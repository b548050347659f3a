/** The what-if replayer's view of the past (internal/engine/replay.go, replay_history.go, store/orgstore.go). */
module ReplayHistory {
  import opened Base
  import opened Transition
  import opened Fleet

  /** Where a trail point is placed: fence state, fence, start of the stay, and the dwell read off it. */
  datatype Placement = Placement(entry: TrailEntry, state: FenceState, inside: string, since: Time, dwell: nat)

  datatype Stance = Stance(key: string, since: Time)

  // -------- The plain search the cursor must agree with --------

  /** The last event of the device in the log at or before `t`. */
  function LastAt(evs: seq<Event>, id: string, t: Time): Option<Event> {
    if evs == [] then None
    else
      var e := evs[|evs| - 1];
      if e.deviceID == id && e.at <= t then Some(e) else LastAt(evs[..|evs| - 1], id, t)
  }

  function EventsFor(evs: seq<Event>, id: string): seq<Event> {
    if evs == [] then []
    else
      var e := evs[|evs| - 1];
      EventsFor(evs[..|evs| - 1], id) + (if e.deviceID == id then [e] else [])
  }

  predicate Chronological(evs: seq<Event>) {
    forall i, j :: 0 <= i < j < |evs| ==> evs[i].at <= evs[j].at
  }

  lemma EventsForMembers(evs: seq<Event>, id: string)
    ensures forall e :: e in EventsFor(evs, id) ==> e in evs && e.deviceID == id
  {
  }

  lemma EventsForChronological(evs: seq<Event>, id: string)
    requires Chronological(evs)
    ensures Chronological(EventsFor(evs, id))
  {
    if evs != [] {
      EventsForChronological(evs[..|evs| - 1], id);
      EventsForMembers(evs[..|evs| - 1], id);
    }
  }

  lemma {:induction false} LastAtOfDevice(evs: seq<Event>, id: string, t: Time)
    ensures LastAt(EventsFor(evs, id), id, t) == LastAt(evs, id, t)
  {
    if evs != [] {
      var e := evs[|evs| - 1];
      var rest := EventsFor(evs[..|evs| - 1], id);
      LastAtOfDevice(evs[..|evs| - 1], id, t);
      if e.deviceID == id {
        assert EventsFor(evs, id)[..|rest|] == rest;
      } else {
        assert EventsFor(evs, id) == rest;
      }
    }
  }

  lemma {:induction false} LastAtSkips(evs: seq<Event>, more: seq<Event>, id: string, t: Time)
    requires forall i :: 0 <= i < |more| ==> more[i].deviceID != id || more[i].at > t
    ensures LastAt(evs + more, id, t) == LastAt(evs, id, t)
  {
    if more == [] {
      assert evs + more == evs;
    } else {
      assert (evs + more)[..|evs + more| - 1] == evs + more[..|more| - 1];
      LastAtSkips(evs, more[..|more| - 1], id, t);
    }
  }

  /** In a chronological list of one device's events, the answer is the one just before the cut. */
  lemma LastAtCut(evs: seq<Event>, id: string, t: Time, i: nat)
    requires i <= |evs|
    requires forall k :: 0 <= k < |evs| ==> evs[k].deviceID == id
    requires forall k :: 0 <= k < i ==> evs[k].at <= t
    requires forall k :: i <= k < |evs| ==> evs[k].at > t
    ensures LastAt(evs, id, t) == if i == 0 then None else Some(evs[i - 1])
  {
    LastAtSkips(evs[..i], evs[i..], id, t);
    assert evs == evs[..i] + evs[i..];
  }

  lemma LastAtHere(log: seq<Event>, evs: seq<Event>, id: string, t: Time, i: nat)
    requires evs == EventsFor(log, id) && Chronological(evs) && i <= |evs|
    requires forall k :: 0 <= k < i ==> evs[k].at <= t
    requires i < |evs| ==> evs[i].at > t
    ensures LastAt(log, id, t) == if i == 0 then None else Some(evs[i - 1])
  {
    hide EventsFor, LastAt;
    EventsForMembers(log, id);
    assert forall k :: 0 <= k < |evs| ==> evs[k] in evs;
    LastAtCut(evs, id, t, i);
    LastAtOfDevice(log, id, t);
  }

  // -------- The index with its moving cursor --------

  class History {
    ghost const log: seq<Event>
    var byDevice: map<string, seq<Event>>
    var cursor: map<string, nat>

    ghost predicate Valid()
      reads this
    {
      && Chronological(log)
      && (forall id :: id in byDevice ==> byDevice[id] == EventsFor(log, id))
      && (forall id :: id !in byDevice ==> EventsFor(log, id) == [])
      && (forall id :: id in cursor ==> cursor[id] <= |EventsFor(log, id)|)
    }

    constructor (evs: seq<Event>)
      requires Chronological(evs)
      ensures Valid() && log == evs && cursor == map[]
    {
      var m: map<string, seq<Event>> := map[];
      for i := 0 to |evs|
        invariant forall id :: id in m ==> m[id] == EventsFor(evs[..i], id)
        invariant forall id :: id !in m ==> EventsFor(evs[..i], id) == []
      {
        assert evs[..i + 1][..i] == evs[..i];
        var id := evs[i].deviceID;
        m := m[id := (if id in m then m[id] else []) + [evs[i]]];
      }
      assert evs[..|evs|] == evs;
      log, byDevice, cursor := evs, m, map[];
    }

    /** Whatever point the cursor was left at, the answer is that of the plain search. */
    method Advance(id: string, at: Time) returns (ev: Option<Event>)
      requires Valid()
      modifies `cursor
      ensures Valid()
      ensures ev == LastAt(log, id, at)
    {
      hide EventsFor, LastAt;
      var evs := if id in byDevice then byDevice[id] else [];
      EventsForChronological(log, id);
      var i: nat := if id in cursor then cursor[id] else 0;
      if i > 0 && evs[i - 1].at > at {
        i := 0;
      }
      while i < |evs| && evs[i].at <= at
        invariant i <= |evs|
        invariant forall k :: 0 <= k < i ==> evs[k].at <= at
      {
        i := i + 1;
      }
      cursor := cursor[id := i];
      LastAtHere(log, evs, id, at, i);
      if i == 0 {
        return None;
      }
      return Some(evs[i - 1]);
    }
  }

  // -------- Placing a point --------

  function Placed(entry: TrailEntry, state: FenceState, inside: string, since: Time): Placement {
    Placement(entry, state, inside, since, DwellSeconds(since, entry.at))
  }

  /** Historical mode: what the last event before the point says; unknown before the first one. */
  function HistoricalPlace(evs: seq<Event>, entry: TrailEntry): Placement {
    var ev := LastAt(evs, entry.deviceID, entry.at);
    if ev.None? then Placed(entry, Unknown, "", entry.at)
    else
      var (state, id) := ParseKey(ev.value.to);
      Placed(entry, state, id, ev.value.at)
  }

  function CurrentKey(fences: seq<Fence>, entry: TrailEntry): string {
    var (state, id) := EvaluateFence(Some(entry.point), fences);
    Key(id, state)
  }

  /** Current-fences mode: a stay is a streak of points with the same recomputed key. */
  function CurrentSince(fences: seq<Fence>, stances: map<string, Stance>, entry: TrailEntry): Time {
    var id := entry.deviceID;
    if id in stances && stances[id].key == CurrentKey(fences, entry) then stances[id].since else entry.at
  }

  function StancesWith(fences: seq<Fence>, stances: map<string, Stance>, entry: TrailEntry): map<string, Stance> {
    stances[entry.deviceID := Stance(CurrentKey(fences, entry), CurrentSince(fences, stances, entry))]
  }

  function StancesAfter(fences: seq<Fence>, points: seq<TrailEntry>): map<string, Stance> {
    if points == [] then map[]
    else StancesWith(fences, StancesAfter(fences, points[..|points| - 1]), points[|points| - 1])
  }

  function PlaceWith(fences: seq<Fence>, stances: map<string, Stance>, entry: TrailEntry): Placement {
    var (state, id) := EvaluateFence(Some(entry.point), fences);
    Placed(entry, state, id, CurrentSince(fences, stances, entry))
  }

  function CurrentPlace(fences: seq<Fence>, points: seq<TrailEntry>, k: nat): Placement
    requires k < |points|
  {
    PlaceWith(fences, StancesAfter(fences, points[..k]), points[k])
  }

  /** The last point of the device among the first `k`. */
  ghost predicate LastBefore(points: seq<TrailEntry>, k: nat, id: string, i: nat)
    requires k <= |points|
  {
    i < k && points[i].deviceID == id && forall j :: i < j < k ==> points[j].deviceID != id
  }

  /** From point `i` to `k` the device has the state of point `k`, and at its point before `i` it had not. */
  ghost predicate StreakFrom(fences: seq<Fence>, points: seq<TrailEntry>, i: nat, k: nat)
    requires k < |points|
  {
    && i <= k && points[i].deviceID == points[k].deviceID
    && (forall j :: i <= j <= k && points[j].deviceID == points[k].deviceID ==>
          CurrentKey(fences, points[j]) == CurrentKey(fences, points[k]))
    && (forall j :: 0 <= j < i && LastBefore(points, i, points[k].deviceID, j) ==>
          CurrentKey(fences, points[j]) != CurrentKey(fences, points[k]))
  }

  lemma StreakExtends(fences: seq<Fence>, points: seq<TrailEntry>, i: nat, p: nat, k: nat)
    requires k < |points| && LastBefore(points, k, points[k].deviceID, p) && StreakFrom(fences, points, i, p)
    requires CurrentKey(fences, points[p]) == CurrentKey(fences, points[k])
    ensures StreakFrom(fences, points, i, k)
  {
    hide CurrentKey;
  }

  lemma StreakStarts(fences: seq<Fence>, points: seq<TrailEntry>, k: nat)
    requires k < |points|
    requires forall j: nat :: LastBefore(points, k, points[k].deviceID, j) ==>
               CurrentKey(fences, points[j]) != CurrentKey(fences, points[k])
    ensures StreakFrom(fences, points, k, k)
  {
    hide CurrentKey, LastBefore;
  }

  lemma OneLast(points: seq<TrailEntry>, k: nat, id: string, i: nat, j: nat)
    requires k <= |points| && LastBefore(points, k, id, i) && LastBefore(points, k, id, j)
    ensures i == j
  {
  }

  lemma LastSnoc(points: seq<TrailEntry>, id: string, i: nat)
    requires points != [] && points[|points| - 1].deviceID != id && LastBefore(points[..|points| - 1], |points| - 1, id, i)
    ensures LastBefore(points, |points|, id, i) && points[..|points| - 1][i] == points[i]
  {
  }

  lemma LastHere(points: seq<TrailEntry>)
    requires points != []
    ensures LastBefore(points, |points|, points[|points| - 1].deviceID, |points| - 1)
  {
  }

  lemma LastInPrefix(points: seq<TrailEntry>, k: nat, id: string, i: nat)
    requires k <= |points| && LastBefore(points[..k], k, id, i)
    ensures LastBefore(points, k, id, i) && points[..k][i] == points[i]
  {
  }

  lemma PlacePrefix(fences: seq<Fence>, points: seq<TrailEntry>, n: nat, i: nat)
    requires i < n <= |points|
    ensures CurrentPlace(fences, points[..n], i) == CurrentPlace(fences, points, i)
  {
    hide PlaceWith, StancesAfter;
    assert points[..n][..i] == points[..i];
  }

  lemma StanceOfLast(fences: seq<Fence>, points: seq<TrailEntry>)
    requires points != []
    ensures var n := |points| - 1;
            StancesAfter(fences, points)
            == StancesAfter(fences, points[..n])
               [points[n].deviceID := Stance(CurrentKey(fences, points[n]), CurrentPlace(fences, points, n).since)]
  {
    hide CurrentKey, CurrentSince;
  }

  /** The stance kept for a device is that of its last point, and there is none before its first. */
  ghost predicate StanceTold(fences: seq<Fence>, points: seq<TrailEntry>, id: string, i: nat) {
    var st := StancesAfter(fences, points);
    if id in st then
      && LastBefore(points, |points|, id, i)
      && st[id] == Stance(CurrentKey(fences, points[i]), CurrentPlace(fences, points, i).since)
    else
      forall j :: 0 <= j < |points| ==> points[j].deviceID != id
  }

  lemma StanceOwn(fences: seq<Fence>, points: seq<TrailEntry>)
    requires points != []
    ensures StanceTold(fences, points, points[|points| - 1].deviceID, |points| - 1)
  {
    hide CurrentKey, CurrentPlace, StancesAfter, LastBefore;
    StanceOfLast(fences, points);
    LastHere(points);
  }

  lemma StanceOther(fences: seq<Fence>, points: seq<TrailEntry>, id: string, i: nat)
    requires points != [] && points[|points| - 1].deviceID != id
    requires StanceTold(fences, points[..|points| - 1], id, i)
    ensures StanceTold(fences, points, id, i)
  {
    hide CurrentKey, CurrentPlace, StancesAfter, LastBefore;
    var n := |points| - 1;
    StanceOfLast(fences, points);
    if id in StancesAfter(fences, points[..n]) {
      LastSnoc(points, id, i);
      LastIsBefore(points[..n], n, id, i);
      PlacePrefix(fences, points, n, i);
    }
  }

  lemma {:induction false} StanceIsLast(fences: seq<Fence>, points: seq<TrailEntry>, id: string) returns (i: nat)
    ensures StanceTold(fences, points, id, i)
  {
    i := 0;
    if points == [] {
      assert StancesAfter(fences, points) == map[];
    } else {
      hide StanceTold;
      var n := |points| - 1;
      if points[n].deviceID == id {
        i := n;
        StanceOwn(fences, points);
      } else {
        i := StanceIsLast(fences, points[..n], id);
        StanceOther(fences, points, id, i);
      }
    }
  }

  lemma NoneBefore(points: seq<TrailEntry>, k: nat, id: string)
    requires k <= |points| && forall j :: 0 <= j < k ==> points[..k][j].deviceID != id
    ensures forall j: nat :: !LastBefore(points, k, id, j)
  {
    assert forall j :: 0 <= j < k ==> points[..k][j] == points[j];
  }

  lemma CurrentSinceIs(fences: seq<Fence>, points: seq<TrailEntry>, k: nat)
    requires k < |points|
    ensures var st, id := StancesAfter(fences, points[..k]), points[k].deviceID;
            CurrentPlace(fences, points, k).since
            == if id in st && st[id].key == CurrentKey(fences, points[k]) then st[id].since else points[k].at
  {
    hide CurrentKey, StancesAfter;
  }

  /** With current fences a stay begins at the first point of the device's present streak of equal states. */
  lemma {:induction false} CurrentStayBegins(fences: seq<Fence>, points: seq<TrailEntry>, k: nat) returns (i: nat)
    requires k < |points|
    ensures StreakFrom(fences, points, i, k) && CurrentPlace(fences, points, k).since == points[i].at
    decreases k
  {
    CurrentSinceIs(fences, points, k);
    hide CurrentKey, CurrentPlace, StancesAfter, LastBefore, StreakFrom;
    var id := points[k].deviceID;
    var p := StanceIsLast(fences, points[..k], id);
    i := k;
    if id in StancesAfter(fences, points[..k]) {
      LastInPrefix(points, k, id, p);
      LastIsBefore(points, k, id, p);
      PlacePrefix(fences, points, k, p);
      if CurrentKey(fences, points[p]) == CurrentKey(fences, points[k]) {
        i := CurrentStayBegins(fences, points, p);
        StreakExtends(fences, points, i, p, k);
        return;
      }
    }
    if id in StancesAfter(fences, points[..k]) {
      forall j: nat | LastBefore(points, k, id, j) ensures j == p {
        OneLast(points, k, id, p, j);
      }
    } else {
      NoneBefore(points, k, id);
    }
    StreakStarts(fences, points, k);
  }

  lemma LastIsBefore(points: seq<TrailEntry>, k: nat, id: string, i: nat)
    requires k <= |points| && LastBefore(points, k, id, i)
    ensures i < k && points[i].deviceID == id
  {
  }

  /** Where such a point is placed: in the first of the fences that holds it, outside when none does. */
  lemma CurrentStateTells(fences: seq<Fence>, points: seq<TrailEntry>, k: nat)
    requires k < |points| && points[k].point.Valid()
    ensures var p := CurrentPlace(fences, points, k);
            && (p.state == Inside <==> exists j :: 0 <= j < |fences| && fences[j].contains(points[k].point))
            && (p.state != Inside ==> p.state == Outside && p.inside == "")
            && (forall j :: 0 <= j < |fences| && FirstHolding(points[k].point, fences, j) && p.state == Inside ==>
                  p.inside == fences[j].id)
  {
    var i := FirstFenceWins(points[k].point, fences);
  }

  // -------- What the store hands to the replayer --------

  predicate Usable(e: TrailEntry) {
    e.deviceID != "" && e.at != ZERO_TIME && e.point.Valid()
  }

  const MAX_TRAIL_POINTS := 20_000
  const REPLAY_DEFAULT_LIMIT := 5_000

  function ReplayLimit(limit: int): (n: nat)
    ensures 1 <= n <= MAX_TRAIL_POINTS
  {
    if limit <= 0 then REPLAY_DEFAULT_LIMIT else if limit > MAX_TRAIL_POINTS then MAX_TRAIL_POINTS else limit
  }

  function UsableOf(trail: seq<TrailEntry>): seq<TrailEntry> {
    if trail == [] then []
    else UsableOf(trail[..|trail| - 1]) + (if Usable(trail[|trail| - 1]) then [trail[|trail| - 1]] else [])
  }

  function LastN<T>(s: seq<T>, n: nat): seq<T> {
    if |s| > n then s[|s| - n..] else s
  }

  /** A trail entry that the store hands out: it names a device, an instant, and a point on the globe. */
  predicate HandedOut(e: TrailEntry) {
    && e.deviceID != "" && e.at != 0
    && e.point.Point? && -90.0 <= e.point.lat <= 90.0 && -180.0 <= e.point.lng <= 180.0
  }

  /** Entries are handed out in file order, each on its own merits. */
  lemma {:induction false} UsableConcat(a: seq<TrailEntry>, b: seq<TrailEntry>)
    ensures UsableOf(a + b) == UsableOf(a) + UsableOf(b)
  {
    if b == [] {
      assert a + b == a;
    } else {
      assert (a + b)[..|a + b| - 1] == a + b[..|b| - 1];
      UsableConcat(a, b[..|b| - 1]);
    }
  }

  lemma UsableSingle(e: TrailEntry)
    ensures UsableOf([e]) == if HandedOut(e) then [e] else []
  {
    assert [e][..0] == [];
  }

  /** How many points a replay covers: as many as asked for, 5000 when nothing is asked for, never more than 20000. */
  function Asked(limit: int): nat {
    if limit <= 0 then 5000 else if limit > 20000 then 20000 else limit
  }

  /** The window is the newest end of what the store hands out. */
  lemma NewestPoints(trail: seq<TrailEntry>, limit: int)
    ensures var usable, points := UsableOf(trail), LastN(UsableOf(trail), ReplayLimit(limit));
            && |points| == (if |usable| < Asked(limit) then |usable| else Asked(limit))
            && forall k :: 0 <= k < |points| ==> points[k] == usable[|usable| - |points| + k]
  {
    hide UsableOf;
  }

  class Replayer {
    const useCurrentFences: bool
    const fences: seq<Fence>
    const history: History
    var stance: map<string, Stance>

    constructor (useCurrentFences: bool, fences: seq<Fence>, evs: seq<Event>)
      requires Chronological(evs)
      ensures history.Valid() && fresh(history) && history.log == evs
      ensures this.useCurrentFences == useCurrentFences && this.fences == fences && stance == map[]
    {
      this.useCurrentFences, this.fences := useCurrentFences, fences;
      this.history := new History(evs);
      this.stance := map[];
    }

    method PlaceAt(entry: TrailEntry) returns (p: Placement)
      requires history.Valid()
      modifies `stance, history`cursor
      ensures history.Valid()
      ensures !useCurrentFences ==> stance == old(stance) && p == HistoricalPlace(history.log, entry)
      ensures useCurrentFences ==>
                stance == StancesWith(fences, old(stance), entry) && p == PlaceWith(fences, old(stance), entry)
    {
      if !useCurrentFences {
        var ev := history.Advance(entry.deviceID, entry.at);
        if ev.None? {
          return Placed(entry, Unknown, "", entry.at);
        }
        var (state, id) := ParseKey(ev.value.to);
        return Placed(entry, state, id, ev.value.at);
      }
      var (state, id) := EvaluateFence(Some(entry.point), fences);
      var key := Key(id, state);
      if entry.deviceID in stance && stance[entry.deviceID].key == key {
        return Placed(entry, state, id, stance[entry.deviceID].since);
      }
      stance := stance[entry.deviceID := Stance(key, entry.at)];
      return Placed(entry, state, id, entry.at);
    }
  }

  lemma PlacedEntry(evs: seq<Event>, fences: seq<Fence>, stances: map<string, Stance>, e: TrailEntry)
    ensures HistoricalPlace(evs, e).entry == e && PlaceWith(fences, stances, e).entry == e
  {
  }

  /** The loop of `Replay`: every point of the window placed in turn. */
  method PlaceAll(useCurrentFences: bool, fences: seq<Fence>, evs: seq<Event>, points: seq<TrailEntry>)
    returns (out: seq<Placement>)
    requires Chronological(evs)
    ensures |out| == |points|
    ensures !useCurrentFences ==> forall k :: 0 <= k < |out| ==> out[k] == HistoricalPlace(evs, points[k])
    ensures useCurrentFences ==> forall k :: 0 <= k < |out| ==> out[k] == CurrentPlace(fences, points, k)
    ensures forall k :: 0 <= k < |out| ==> out[k].entry == points[k]
  {
    hide HistoricalPlace, PlaceWith, StancesWith;
    var r := new Replayer(useCurrentFences, fences, evs);
    out := [];
    for k := 0 to |points|
      invariant r.history.Valid() && |out| == k
      invariant !useCurrentFences ==> forall i :: 0 <= i < k ==> out[i] == HistoricalPlace(evs, points[i])
      invariant useCurrentFences ==> r.stance == StancesAfter(fences, points[..k])
      invariant useCurrentFences ==> forall i :: 0 <= i < k ==> out[i] == CurrentPlace(fences, points, i)
    {
      assert points[..k + 1][..k] == points[..k];
      var p := r.PlaceAt(points[k]);
      out := out + [p];
    }
    forall k | 0 <= k < |out| ensures out[k].entry == points[k] {
      PlacedEntry(evs, fences, StancesAfter(fences, points[..k]), points[k]);
    }
  }

  /** `Replay`: the newest points of the trail, as many as asked for, each placed. */
  method Replay(useCurrentFences: bool, limit: int, fences: seq<Fence>, evs: seq<Event>, trail: seq<TrailEntry>)
    returns (out: seq<Placement>)
    requires Chronological(evs)
    ensures var points := LastN(UsableOf(trail), ReplayLimit(limit));
            && |out| == |points|
            && (!useCurrentFences ==> forall k :: 0 <= k < |out| ==> out[k] == HistoricalPlace(evs, points[k]))
            && (useCurrentFences ==> forall k :: 0 <= k < |out| ==> out[k] == CurrentPlace(fences, points, k))
    ensures var usable := UsableOf(trail);
            && |out| == (if |usable| < Asked(limit) then |usable| else Asked(limit))
            && forall k :: 0 <= k < |out| ==> out[k].entry == usable[|usable| - |out| + k]
  {
    hide HistoricalPlace, CurrentPlace, UsableOf, LastN, ReplayLimit, Asked;
    NewestPoints(trail, limit);
    out := PlaceAll(useCurrentFences, fences, evs, LastN(UsableOf(trail), ReplayLimit(limit)));
  }
}
