/**
  Replay against the current fences, when those fences are the ones the run used: the stay it measures is never
  longer than the engine's exactly while the log has no event between two sightings in the same state, and so in
  particular for a device that keeps answering with a position.
*/
module CurrentFencesReplay {
  import opened Base
  import opened Keys
  import opened Transition
  import opened Fleet
  import opened ReplayHistory
  import opened SweepFacts
  import opened HistoricalReplay
  import opened Outages
  import opened DwellOnce

  /** The last sighting of the device in a window. */
  function LastOf(w: seq<Sighting>, id: string): Option<Sighting> {
    if w == [] then None
    else if w[|w| - 1].device.id == id then Some(w[|w| - 1])
    else LastOf(w[..|w| - 1], id)
  }

  /** The instant of the first sighting of the device in a window. */
  function FirstAt(w: seq<Sighting>, id: string): Option<Time> {
    if w == [] then None
    else
      var before := FirstAt(w[..|w| - 1], id);
      if before.None? && w[|w| - 1].device.id == id then Some(w[|w| - 1].entry.at) else before
  }

  function SinceOf(x: Sighting): Time {
    if x.device.since.Some? then x.device.since.value else x.entry.at
  }

  /** How the engine's stay moves from one sighting of a device to the next one. */
  predicate Linked(p: Option<Sighting>, x: Sighting) {
    && SinceOf(x) <= x.entry.at
    && (p.Some? ==>
          && p.value.entry.at < x.entry.at
          && (KeyOf(p.value.device) == KeyOf(x.device) ==> SinceOf(x) == SinceOf(p.value) || SinceOf(x) == x.entry.at)
          && (KeyOf(p.value.device) != KeyOf(x.device) ==> SinceOf(x) == x.entry.at))
  }

  /** Window facts about one device: the engine used these fences, and its stays are linked. */
  ghost predicate Recorded(fences: seq<Fence>, w: seq<Sighting>, id: string) {
    forall k :: 0 <= k < |w| ==>
      && w[k].entry.deviceID == w[k].device.id
      && (w[k].device.id == id ==>
            CurrentKey(fences, w[k].entry) == KeyOf(w[k].device) && Linked(LastOf(w[..k], id), w[k]))
  }

  /** Seeing the device again under the same key always continues the stay. */
  ghost predicate Steady(w: seq<Sighting>, id: string) {
    forall k :: 0 <= k < |w| && w[k].device.id == id ==>
      var p := LastOf(w[..k], id);
      p.Some? && KeyOf(p.value.device) == KeyOf(w[k].device) ==> SinceOf(w[k]) == SinceOf(p.value)
  }

  function ReplaySince(fences: seq<Fence>, w: seq<Sighting>, k: nat): Time
    requires k < |w|
  {
    CurrentSince(fences, StancesAfter(fences, Entries(w[..k])), w[k].entry)
  }

  /** The stance map holds, for each device, the streak of its last sighting. */
  predicate StreakOf(fences: seq<Fence>, w: seq<Sighting>, id: string) {
    var st := StancesAfter(fences, Entries(w));
    var p := LastOf(w, id);
    && (id in st <==> p.Some?)
    && (p.Some? ==> st[id].key == KeyOf(p.value.device) && st[id].since <= p.value.entry.at)
  }

  lemma EntriesPrefix(w: seq<Sighting>)
    requires w != []
    ensures Entries(w)[..|w| - 1] == Entries(w[..|w| - 1])
  {
  }

  lemma RecordedPrefix(fences: seq<Fence>, w: seq<Sighting>, id: string, n: nat)
    requires n <= |w| && Recorded(fences, w, id)
    ensures Recorded(fences, w[..n], id)
    ensures Steady(w, id) ==> Steady(w[..n], id)
  {
    assert forall k :: 0 <= k < n ==> w[..n][..k] == w[..k];
  }

  lemma {:induction false} Streaks(fences: seq<Fence>, w: seq<Sighting>, id: string)
    requires Recorded(fences, w, id)
    ensures StreakOf(fences, w, id)
    ensures (LastOf(w, id).Some? <==> FirstAt(w, id).Some?)
    ensures Steady(w, id) && LastOf(w, id).Some? ==>
              var since := StancesAfter(fences, Entries(w))[id].since;
              && SinceOf(LastOf(w, id).value) <= since
              && (FirstAt(w, id).value <= SinceOf(LastOf(w, id).value) ==> since == SinceOf(LastOf(w, id).value))
  {
    hide CurrentKey, KeyOf;
    if w != [] {
      var n := |w| - 1;
      RecordedPrefix(fences, w, id, n);
      Streaks(fences, w[..n], id);
      EntriesPrefix(w);
      var st := StancesAfter(fences, Entries(w[..n]));
      assert StancesAfter(fences, Entries(w)) == StancesWith(fences, st, w[n].entry);
      assert w[n].device.id == id ==> Linked(LastOf(w[..n], id), w[n]);
    }
  }

  /** At no point of the window does the replayed stay begin before the engine's. */
  ghost predicate NeverOverstates(fences: seq<Fence>, w: seq<Sighting>, id: string) {
    forall k :: 0 <= k < |w| && w[k].device.id == id ==> SinceOf(w[k]) <= CurrentPlace(fences, Entries(w), k).since
  }

  lemma PlacedSince(fences: seq<Fence>, w: seq<Sighting>, k: nat)
    requires k < |w|
    ensures CurrentPlace(fences, Entries(w), k).since == ReplaySince(fences, w, k)
  {
    assert Entries(w)[..k] == Entries(w[..k]);
  }

  lemma SinceIsStance(fences: seq<Fence>, w: seq<Sighting>, k: nat)
    requires k < |w| && w[k].entry.deviceID == w[k].device.id
    ensures StancesAfter(fences, Entries(w[..k + 1]))[w[k].device.id].since == ReplaySince(fences, w, k)
    ensures LastOf(w[..k + 1], w[k].device.id) == Some(w[k])
  {
    var v := w[..k + 1];
    assert v[..|v| - 1] == w[..k];
    EntriesPrefix(v);
  }

  /** The replay never overstates exactly when the engine continues the stay at every sighting under the same key. */
  lemma NeverOverstatesIffSteady(fences: seq<Fence>, w: seq<Sighting>, id: string)
    requires Recorded(fences, w, id)
    ensures NeverOverstates(fences, w, id) <==> Steady(w, id)
  {
    if Steady(w, id) {
      forall k | 0 <= k < |w| && w[k].device.id == id
        ensures SinceOf(w[k]) <= CurrentPlace(fences, Entries(w), k).since
      {
        PlacedSince(fences, w, k);
        RecordedPrefix(fences, w, id, k + 1);
        Streaks(fences, w[..k + 1], id);
        SinceIsStance(fences, w, k);
      }
    }
    if NeverOverstates(fences, w, id) {
      forall k | 0 <= k < |w| && w[k].device.id == id
        ensures var p := LastOf(w[..k], id);
                p.Some? && KeyOf(p.value.device) == KeyOf(w[k].device) ==> SinceOf(w[k]) == SinceOf(p.value)
      {
        PlacedSince(fences, w, k);
        RecordedPrefix(fences, w, id, k);
        Streaks(fences, w[..k], id);
      }
    }
  }

  // -------- The same condition read off the files --------

  /** The last trail point of the device. */
  function LastEntry(points: seq<TrailEntry>, id: string): Option<TrailEntry> {
    if points == [] then None
    else if points[|points| - 1].deviceID == id then Some(points[|points| - 1])
    else LastEntry(points[..|points| - 1], id)
  }

  /** No event of the device after `from` and up to `to`. */
  predicate Quiet(evs: seq<Event>, id: string, from: Time, to: Time) {
    forall i :: 0 <= i < |evs| && evs[i].deviceID == id ==> !(from < evs[i].at <= to)
  }

  /** Between two consecutive points of the device in the same state, the event log is quiet about it. */
  predicate Unbroken(fences: seq<Fence>, evs: seq<Event>, points: seq<TrailEntry>, id: string) {
    forall k :: 0 <= k < |points| && points[k].deviceID == id ==>
      var p := LastEntry(points[..k], id);
      p.Some? && CurrentKey(fences, p.value) == CurrentKey(fences, points[k]) ==>
        Quiet(evs, id, p.value.at, points[k].at)
  }

  lemma {:induction false} LastEntryIs(w: seq<Sighting>, id: string)
    requires forall k :: 0 <= k < |w| ==> w[k].entry.deviceID == w[k].device.id
    ensures LastEntry(Entries(w), id) == if LastOf(w, id).Some? then Some(LastOf(w, id).value.entry) else None
  {
    if w != [] {
      EntriesPrefix(w);
      LastEntryIs(w[..|w| - 1], id);
    }
  }

  lemma {:induction false} LastAtQuiet(evs: seq<Event>, id: string, from: Time, to: Time)
    requires from <= to && Quiet(evs, id, from, to)
    ensures LastAt(evs, id, to) == LastAt(evs, id, from)
  {
    if evs != [] {
      LastAtQuiet(evs[..|evs| - 1], id, from, to);
    }
  }

  lemma {:induction false} LastAtLatest(evs: seq<Event>, id: string, t: Time, i: nat)
    requires Chronological(evs) && i < |evs| && evs[i].deviceID == id && evs[i].at <= t
    ensures LastAt(evs, id, t).Some? && LastAt(evs, id, t).value.at >= evs[i].at
  {
    var n := |evs| - 1;
    if !(evs[n].deviceID == id && evs[n].at <= t) {
      LastAtLatest(evs[..n], id, t, i);
    }
  }

  /** Two sightings dated by the log show the same stay exactly when the log is quiet in between. */
  lemma SameStayIffQuiet(evs: seq<Event>, p: Sighting, x: Sighting)
    requires Chronological(evs) && Grounded(evs, p) && Grounded(evs, x)
    requires Usable(p.entry) && Usable(x.entry) && p.device.id == x.device.id && p.entry.at <= x.entry.at
    ensures SinceOf(x) == SinceOf(p) <==> Quiet(evs, x.device.id, p.entry.at, x.entry.at)
  {
    hide LastAt, KeyOf;
    var id := x.device.id;
    if Quiet(evs, id, p.entry.at, x.entry.at) {
      LastAtQuiet(evs, id, p.entry.at, x.entry.at);
    } else {
      var i :| 0 <= i < |evs| && evs[i].deviceID == id && p.entry.at < evs[i].at <= x.entry.at;
      LastAtLatest(evs, id, x.entry.at, i);
    }
  }

  lemma {:induction false} LastOfIs(w: seq<Sighting>, id: string)
    ensures LastOf(w, id).Some? ==> LastOf(w, id).value in w && LastOf(w, id).value.device.id == id
  {
    if w != [] {
      LastOfIs(w[..|w| - 1], id);
    }
  }

  lemma SteadyIffUnbroken(fences: seq<Fence>, evs: seq<Event>, w: seq<Sighting>, id: string)
    requires Chronological(evs) && Recorded(fences, w, id)
    requires forall x :: x in w ==> Grounded(evs, x) && Usable(x.entry)
    ensures Steady(w, id) <==> Unbroken(fences, evs, Entries(w), id)
  {
    hide Grounded, Usable, Quiet, CurrentKey, KeyOf, Chronological;
    forall k | 0 <= k < |w| && w[k].device.id == id
      ensures LastEntry(Entries(w)[..k], id).Some? <==> LastOf(w[..k], id).Some?
      ensures LastOf(w[..k], id).Some? ==>
                var p := LastOf(w[..k], id).value;
                && LastEntry(Entries(w)[..k], id) == Some(p.entry)
                && (KeyOf(p.device) == KeyOf(w[k].device) <==> CurrentKey(fences, p.entry) == CurrentKey(fences, w[k].entry))
                && (SinceOf(w[k]) == SinceOf(p) <==> Quiet(evs, id, p.entry.at, w[k].entry.at))
    {
      assert Entries(w)[..k] == Entries(w[..k]);
      LastEntryIs(w[..k], id);
      LastOfIs(w[..k], id);
      if LastOf(w[..k], id).Some? {
        SameStayIffQuiet(evs, LastOf(w[..k], id).value, w[k]);
      }
    }
  }

  /** In a steady window the replayed dwell is at most the engine's, and equal once the stay began inside it. */
  lemma SteadyDwell(fences: seq<Fence>, w: seq<Sighting>, k: nat)
    requires k < |w| && w[k].device.since.Some?
    requires Recorded(fences, w, w[k].device.id) && Steady(w, w[k].device.id)
    requires w[k].device.dwell == DwellSeconds(w[k].device.since.value, w[k].entry.at)
    ensures CurrentPlace(fences, Entries(w), k).dwell <= w[k].device.dwell
    ensures FirstAt(w[..k + 1], w[k].device.id).value <= w[k].device.since.value ==>
              CurrentPlace(fences, Entries(w), k).since == w[k].device.since.value
              && CurrentPlace(fences, Entries(w), k).dwell == w[k].device.dwell
  {
    var id := w[k].device.id;
    RecordedPrefix(fences, w, id, k + 1);
    Streaks(fences, w[..k + 1], id);
    SinceIsStance(fences, w, k);
    assert Entries(w)[..k] == Entries(w[..k]);
    DwellMonotone(w[k].device.since.value, ReplaySince(fences, w, k), w[k].entry.at);
  }

  // -------- The windows of a run --------

  lemma {:induction false} UsableConcat(a: seq<Sighting>, b: seq<Sighting>)
    ensures UsableSightings(a + b) == UsableSightings(a) + UsableSightings(b)
  {
    if b == [] {
      assert a + b == a;
    } else {
      assert (a + b)[..|a + b| - 1] == a + b[..|b| - 1];
      UsableConcat(a, b[..|b| - 1]);
    }
  }

  lemma {:induction false} LastOfConcat(a: seq<Sighting>, b: seq<Sighting>, id: string)
    ensures LastOf(a + b, id) == if LastOf(b, id).Some? then LastOf(b, id) else LastOf(a, id)
  {
    if b == [] {
      assert a + b == a;
    } else {
      assert (a + b)[..|a + b| - 1] == a + b[..|b| - 1];
      LastOfConcat(a, b[..|b| - 1], id);
    }
  }

  function Trace(steps: seq<Step>): seq<Sighting> {
    UsableSightings(Sightings(steps))
  }

  function StepTrace(s: State, step: Step): seq<Sighting> {
    UsableSightings(StepSightings(s, step))
  }

  lemma TraceStep(steps: seq<Step>)
    requires steps != []
    ensures var n := |steps| - 1;
            Trace(steps) == Trace(steps[..n]) + StepTrace(After(steps[..n]), steps[n])
  {
    var n := |steps| - 1;
    UsableConcat(Sightings(steps[..n]), StepSightings(After(steps[..n]), steps[n]));
  }

  function OneSighting(d: Device, now: Time): seq<Sighting> {
    if d.point.Some? && Usable(TrailEntry(d.id, now, d.point.value))
    then [Sighting(TrailEntry(d.id, now, d.point.value), d)] else []
  }

  lemma UsableLast(ds: seq<Device>, now: Time)
    requires ds != []
    ensures UsableSightings(SightingsOf(ds, now))
         == UsableSightings(SightingsOf(ds[..|ds| - 1], now)) + OneSighting(ds[|ds| - 1], now)
  {
    var d := ds[|ds| - 1];
    var last := if d.point.Some? then [Sighting(TrailEntry(d.id, now, d.point.value), d)] else [];
    UsableConcat(SightingsOf(ds[..|ds| - 1], now), last);
    if last != [] {
      assert last[..0] == [];
    }
  }

  ghost predicate AtMostOnce(w: seq<Sighting>, id: string) {
    forall k :: 0 <= k < |w| && w[k].device.id == id ==> LastOf(w[..k], id).None?
  }

  lemma AtMostOnceConcat(u: seq<Sighting>, last: seq<Sighting>, id: string)
    requires AtMostOnce(u, id) && |last| <= 1
    requires last != [] && last[0].device.id == id ==> LastOf(u, id).None?
    ensures AtMostOnce(u + last, id)
  {
    forall k | 0 <= k < |u + last| && (u + last)[k].device.id == id ensures LastOf((u + last)[..k], id).None? {
      if k < |u| {
        assert (u + last)[..k] == u[..k];
      } else {
        assert (u + last)[..k] == u;
      }
    }
  }

  function SightingIn(ds: seq<Device>, now: Time, id: string): Option<Sighting> {
    var d := Lookup(ds, id);
    if id != "" && d.Some? && HasFix(d.value.point)
    then Some(Sighting(TrailEntry(id, now, d.value.point.value), d.value)) else None
  }

  lemma LastOfOne(d: Device, now: Time, id: string)
    requires now != ZERO_TIME
    ensures LastOf(OneSighting(d, now), id)
         == if d.id == id && id != "" && HasFix(d.point)
            then Some(Sighting(TrailEntry(id, now, d.point.value), d)) else None
  {
    var one := OneSighting(d, now);
    if one != [] {
      assert one[..0] == [];
    }
  }

  /** In one cycle a device is sighted at most once, where it was evaluated. */
  lemma {:induction false} SightedOnce(ds: seq<Device>, now: Time, id: string)
    requires Unique(ds) && now != ZERO_TIME
    ensures AtMostOnce(UsableSightings(SightingsOf(ds, now)), id)
    ensures LastOf(UsableSightings(SightingsOf(ds, now)), id) == SightingIn(ds, now, id)
  {
    if ds != [] {
      hide SightingsOf, UsableSightings, OneSighting, LastOf, AtMostOnce;
      var n := |ds| - 1;
      SightedOnce(ds[..n], now, id);
      LookupIs(ds[..n], id);
      UsableLast(ds, now);
      var u := UsableSightings(SightingsOf(ds[..n], now));
      LastOfConcat(u, OneSighting(ds[n], now), id);
      LastOfOne(ds[n], now, id);
      OneSightingIs(ds[n], now);
      AtMostOnceConcat(u, OneSighting(ds[n], now), id);
    }
  }

  lemma OneSightingIs(d: Device, now: Time)
    ensures |OneSighting(d, now)| <= 1
    ensures OneSighting(d, now) != [] ==> OneSighting(d, now)[0].device == d
  {
  }

  lemma RecordedConcat(fences: seq<Fence>, a: seq<Sighting>, u: seq<Sighting>, id: string)
    requires Recorded(fences, a, id) && AtMostOnce(u, id)
    requires forall x :: x in u ==> x.entry.deviceID == x.device.id
    requires forall x :: x in u && x.device.id == id ==>
               CurrentKey(fences, x.entry) == KeyOf(x.device) && Linked(LastOf(a, id), x)
    ensures Recorded(fences, a + u, id)
    ensures Steady(a, id)
            && (forall x :: x in u && x.device.id == id && LastOf(a, id).Some?
                            && KeyOf(LastOf(a, id).value.device) == KeyOf(x.device) ==>
                  SinceOf(x) == SinceOf(LastOf(a, id).value))
            ==> Steady(a + u, id)
  {
    hide CurrentKey, KeyOf, Linked;
    var w := a + u;
    forall k | 0 <= k < |w|
      ensures w[k].device.id == id ==>
                LastOf(w[..k], id) == if k < |a| then LastOf(a[..k], id) else LastOf(a, id)
    {
      if k < |a| {
        assert w[..k] == a[..k];
      } else {
        assert w[..k] == a + u[..k - |a|];
        LastOfConcat(a, u[..k - |a|], id);
      }
    }
    assert forall k :: |a| <= k < |w| ==> w[k] in u;
  }

  lemma LastOfSuffix(w: seq<Sighting>, n: nat, id: string)
    requires n <= |w| && LastOf(w[n..], id).Some?
    ensures LastOf(w[n..], id) == LastOf(w, id)
  {
    assert w == w[..n] + w[n..];
    LastOfConcat(w[..n], w[n..], id);
  }

  lemma RecordedSuffix(fences: seq<Fence>, w: seq<Sighting>, n: nat, id: string)
    requires n <= |w| && Recorded(fences, w, id)
    ensures Recorded(fences, w[n..], id)
    ensures Steady(w, id) ==> Steady(w[n..], id)
  {
    hide CurrentKey, KeyOf;
    forall k | 0 <= k < |w| - n
      ensures LastOf(w[n..][..k], id).Some? ==> LastOf(w[n..][..k], id) == LastOf(w[..n + k], id)
    {
      assert w[n..][..k] == w[..n + k][n..];
      if LastOf(w[n..][..k], id).Some? {
        LastOfSuffix(w[..n + k], n, id);
      }
    }
    assert forall k :: 0 <= k < |w| - n ==> w[n..][k] == w[n + k];
  }

  // -------- The link between what is stored and what was last sighted --------

  /** A stored device whose position is known is stored as it was last sighted. */
  predicate StoredAsSighted(s: State, trace: seq<Sighting>, id: string) {
    var dev := Lookup(s.devices, id);
    var p := LastOf(trace, id);
    dev.Some? && dev.value.fenceState != Unknown ==> p.Some? && p.value.device == dev.value
  }

  /** The device is stored from its first sighting on, always as it was last sighted. */
  predicate AlwaysSighted(s: State, trace: seq<Sighting>, id: string) {
    var dev := Lookup(s.devices, id);
    var p := LastOf(trace, id);
    && (p.Some? <==> dev.Some?)
    && (dev.Some? ==> dev.value.fenceState != Unknown && p.value.device == dev.value)
  }

  /** Every answer of the device's connector in this cycle brings the device, with a valid position. */
  predicate Answered(s: State, inp: Input, id: string) {
    var sent := Lookup(AllFetched(inp.outcomes), id);
    if sent.Some? then HasFix(sent.value.point) else Lookup(s.devices, id).Some? ==> Outage(s, inp, id)
  }

  /** The hypothesis on a run: from its first cycle on, the device is in every successful fetch, with a position. */
  predicate AlwaysAnswers(steps: seq<Step>, id: string) {
    steps != [] ==>
      var n := |steps| - 1;
      && AlwaysAnswers(steps[..n], id)
      && (steps[n].Run? ==> Answered(After(steps[..n]), steps[n].inp, id))
  }

  lemma EvaluatedKey(was: Option<Device>, d: Device, inp: Input)
    requires HasFix(d.point)
    ensures var cur := EvaluatedDevice(was, d, inp);
            && CurrentKey(inp.fences, TrailEntry(d.id, inp.now, d.point.value)) == KeyOf(cur)
            && cur.since == Some(StaySince(was, PreviousKey(was) == KeyOf(cur), inp.now))
            && cur.fenceState != Unknown
  {
  }

  /** One cycle's sighting of the device links to the one before it. */
  lemma NewSightingLinked(s: State, inp: Input, clock: Time, trace: seq<Sighting>, id: string)
    requires Consistent(s, clock) && ZERO_TIME <= clock < inp.now
    requires Unique(AllFetched(inp.outcomes)) && ValidFences(inp.fences)
    requires StoredAsSighted(s, trace, id)
    requires LastOf(trace, id).Some? ==> LastOf(trace, id).value.entry.at <= clock
    requires SightingIn(CycleEvaluated(s, inp), inp.now, id).Some?
    ensures var x := SightingIn(CycleEvaluated(s, inp), inp.now, id).value;
            var p := LastOf(trace, id);
            && CurrentKey(inp.fences, x.entry) == KeyOf(x.device)
            && Linked(p, x)
            && Lookup(Cycle(s, inp).devices, id) == Some(x.device)
            && (AlwaysSighted(s, trace, id) && p.Some? && KeyOf(p.value.device) == KeyOf(x.device) ==>
                  SinceOf(x) == SinceOf(p.value))
  {
    hide Cycle, EvaluatedDevice, CurrentKey, Index, EvaluatedAll;
    var was := Lookup(s.devices, id);
    var sent := Lookup(AllFetched(inp.outcomes), id);
    LookupEvaluated(Index(s.devices), inp, AllFetched(inp.outcomes), id);
    LookupIs(AllFetched(inp.outcomes), id);
    LookupAfterCycle(s, inp, id);
    SentAfterCycle(s, inp, clock, id);
    var cur := EvaluatedDevice(was, sent.value, inp);
    EvaluatedID(was, sent.value, inp);
    EvaluatedKey(was, sent.value, inp);
    if was.None? {
      KnownKeyDiffers("", cur.insideFence, cur.fenceState);
    } else if was.value.fenceState == Unknown {
      KnownKeyDiffers(was.value.insideFence, cur.insideFence, cur.fenceState);
    }
  }

  /** A known state never has the key of an unknown one. */
  lemma KnownKeyDiffers(id: string, inside: string, state: FenceState)
    requires (id == "" || ValidFenceID(id)) && (inside == "" || ValidFenceID(inside)) && state != Unknown
    ensures Key(id, Unknown) != Key(inside, state)
  {
    if Key(id, Unknown) == Key(inside, state) {
      KeyInjective(id, Unknown, inside, state);
    }
  }

  lemma StoredAfterCycle(s: State, inp: Input, clock: Time, trace: seq<Sighting>, id: string)
    requires Consistent(s, clock) && ZERO_TIME <= clock < inp.now && id != ""
    requires Unique(AllFetched(inp.outcomes)) && ValidFences(inp.fences)
    requires StoredAsSighted(s, trace, id)
    requires LastOf(trace, id).Some? ==> LastOf(trace, id).value.entry.at <= clock
    ensures StoredAsSighted(Cycle(s, inp), trace + StepTrace(s, Run(inp)), id)
    ensures AlwaysSighted(s, trace, id) && Answered(s, inp, id) ==>
              AlwaysSighted(Cycle(s, inp), trace + StepTrace(s, Run(inp)), id)
  {
    hide Cycle, EvaluatedDevice, CurrentKey, Index, EvaluatedAll, UsableSightings, SightingsOf, KeyOf;
    var ds := CycleEvaluated(s, inp);
    EvaluatedIDs(Index(s.devices), inp, AllFetched(inp.outcomes));
    SightedOnce(ds, inp.now, id);
    LastOfConcat(trace, StepTrace(s, Run(inp)), id);
    LookupEvaluated(Index(s.devices), inp, AllFetched(inp.outcomes), id);
    LookupAfterCycle(s, inp, id);
    var sent := Lookup(AllFetched(inp.outcomes), id);
    if sent.Some? {
      SentAfterCycle(s, inp, clock, id);
      EvaluatedID(Lookup(s.devices, id), sent.value, inp);
      if HasFix(sent.value.point) {
        NewSightingLinked(s, inp, clock, trace, id);
      }
    }
  }

  lemma RecordedAfterCycle(s: State, inp: Input, clock: Time, trace: seq<Sighting>, id: string)
    requires Consistent(s, clock) && ZERO_TIME <= clock < inp.now && id != ""
    requires Unique(AllFetched(inp.outcomes)) && ValidFences(inp.fences)
    requires StoredAsSighted(s, trace, id) && Recorded(inp.fences, trace, id)
    requires LastOf(trace, id).Some? ==> LastOf(trace, id).value.entry.at <= clock
    ensures Recorded(inp.fences, trace + StepTrace(s, Run(inp)), id)
    ensures Steady(trace, id) && AlwaysSighted(s, trace, id) ==> Steady(trace + StepTrace(s, Run(inp)), id)
  {
    hide Cycle, EvaluatedDevice, CurrentKey, Index, EvaluatedAll, UsableSightings, SightingsOf, KeyOf, Linked;
    var ds := CycleEvaluated(s, inp);
    var u := StepTrace(s, Run(inp));
    EvaluatedIDs(Index(s.devices), inp, AllFetched(inp.outcomes));
    SightedOnce(ds, inp.now, id);
    SightingsOfIs(ds, inp.now);
    UsableSightingsIs(SightingsOf(ds, inp.now));
    forall x | x in u && x.device.id == id ensures Some(x) == SightingIn(ds, inp.now, id) {
      SightedIsLast(u, x, id);
    }
    if x :| x in u && x.device.id == id {
      NewSightingLinked(s, inp, clock, trace, id);
    }
    RecordedConcat(inp.fences, trace, u, id);
  }

  lemma {:induction false} SightedIsLast(u: seq<Sighting>, x: Sighting, id: string)
    requires AtMostOnce(u, id) && x in u && x.device.id == id
    ensures LastOf(u, id) == Some(x)
  {
    var n := |u| - 1;
    if u[n] != x {
      assert x in u[..n];
      assert forall k :: 0 <= k < n ==> u[..n][..k] == u[..k];
      SightedIsLast(u[..n], x, id);
    }
  }

  lemma {:induction false} TraceInvariant(steps: seq<Step>, fences: seq<Fence>, id: string)
    requires WellFormed(steps) && FixedFences(steps, fences) && id != ""
    ensures Recorded(fences, Trace(steps), id) && StoredAsSighted(After(steps), Trace(steps), id)
    ensures AlwaysAnswers(steps, id) ==> AlwaysSighted(After(steps), Trace(steps), id) && Steady(Trace(steps), id)
  {
    if steps != [] {
      hide Cycle, Consistent, Recorded, Steady, StoredAsSighted, AlwaysSighted, Answered, UsableSightings;
      var n := |steps| - 1;
      var s := After(steps[..n]);
      TraceInvariant(steps[..n], fences, id);
      RunInvariant(steps[..n]);
      ClockPositive(steps[..n]);
      TraceStep(steps);
      LastOfMember(Trace(steps[..n]), id);
      UsableSightingsIs(Sightings(steps[..n]));
      if steps[n].Run? {
        StoredAfterCycle(s, steps[n].inp, Clock(steps[..n]), Trace(steps[..n]), id);
        RecordedAfterCycle(s, steps[n].inp, Clock(steps[..n]), Trace(steps[..n]), id);
      } else {
        RestartKeepsTrace(steps, id);
      }
    }
  }

  lemma LastOfMember(w: seq<Sighting>, id: string)
    ensures LastOf(w, id).Some? ==> LastOf(w, id).value in w
  {
  }

  lemma RestartKeepsTrace(steps: seq<Step>, id: string)
    requires steps != [] && steps[|steps| - 1].Restart?
    ensures var n := |steps| - 1;
            && Trace(steps) == Trace(steps[..n])
            && (StoredAsSighted(After(steps[..n]), Trace(steps[..n]), id) ==> StoredAsSighted(After(steps), Trace(steps), id))
            && (AlwaysSighted(After(steps[..n]), Trace(steps[..n]), id) ==> AlwaysSighted(After(steps), Trace(steps), id))
  {
    TraceStep(steps);
  }

  // -------- The theorems --------

  function Window(steps: seq<Step>, limit: int): seq<Sighting> {
    LastN(Trace(steps), ReplayLimit(limit))
  }

  lemma WindowRecorded(steps: seq<Step>, fences: seq<Fence>, limit: int, id: string)
    requires WellFormed(steps) && FixedFences(steps, fences) && id != ""
    ensures Recorded(fences, Window(steps, limit), id)
    ensures AlwaysAnswers(steps, id) ==> Steady(Window(steps, limit), id)
  {
    hide Recorded, Steady, Trace, WellFormed, AlwaysAnswers, After;
    TraceInvariant(steps, fences, id);
    var w := Trace(steps);
    if |w| > ReplayLimit(limit) {
      RecordedSuffix(fences, w, |w| - ReplayLimit(limit), id);
    }
  }

  /** For a device that always answers with a position, the replayed dwell never exceeds the engine's. */
  lemma CurrentReplayNeverOverstates(steps: seq<Step>, fences: seq<Fence>, limit: int, k: nat)
    requires WellFormed(steps) && FixedFences(steps, fences)
    requires k < |Window(steps, limit)| && AlwaysAnswers(steps, Window(steps, limit)[k].device.id)
    ensures var w := Window(steps, limit);
            var points := LastN(UsableOf(After(steps).trail), ReplayLimit(limit));
            && points == Entries(w) && w[k].device.since.Some?
            && CurrentPlace(fences, points, k).dwell <= w[k].device.dwell
            && (FirstAt(w[..k + 1], w[k].device.id).value <= w[k].device.since.value ==>
                  CurrentPlace(fences, points, k).dwell == w[k].device.dwell)
  {
    hide CurrentPlace, Recorded, Steady, WellFormed, AlwaysAnswers, After, Sightings, Cycle, UsableSightings, UsableOf;
    var w := Window(steps, limit);
    RunInvariant(steps);
    UsableSightingsIs(Sightings(steps));
    assert w[k] in Trace(steps);
    WindowRecorded(steps, fences, limit, w[k].device.id);
    FirstAtSome(w[..k + 1], w[k].device.id);
    SteadyDwell(fences, w, k);
  }

  lemma FirstAtSome(w: seq<Sighting>, id: string)
    requires w != [] && w[|w| - 1].device.id == id
    ensures FirstAt(w, id).Some?
  {
  }

  /**
    In any run with fixed fences, a window never overstates the stays of a device if and only if the event log is
    quiet about it between each two consecutive trail points of the window that lie in the same state.
  */
  lemma OverstatesIffResumed(steps: seq<Step>, fences: seq<Fence>, limit: int, id: string)
    requires WellFormed(steps) && FixedFences(steps, fences) && id != ""
    ensures var points := LastN(UsableOf(After(steps).trail), ReplayLimit(limit));
            && Entries(Window(steps, limit)) == points
            && (NeverOverstates(fences, Window(steps, limit), id)
                <==> Unbroken(fences, After(steps).events, points, id))
  {
    hide Recorded, Steady, NeverOverstates, Unbroken, Grounded, Usable, WellFormed, After, Sightings, UsableSightings,
         UsableOf, Chronological, Consistent;
    var w := Window(steps, limit);
    LogChronological(steps);
    RunInvariant(steps);
    UsableSightingsIs(Sightings(steps));
    assert Entries(w) == LastN(Entries(Trace(steps)), ReplayLimit(limit));
    WindowRecorded(steps, fences, limit, id);
    NeverOverstatesIffSteady(fences, w, id);
    SteadyIffUnbroken(fences, After(steps).events, w, id);
  }

  // -------- What breaks a stay --------

  /** Since its last sighting the device was dropped, or came without a position, in some cycle. */
  predicate Interrupted(steps: seq<Step>, id: string) {
    steps != [] &&
      var n := |steps| - 1;
      var s := After(steps[..n]);
      && LastOf(StepTrace(s, steps[n]), id).None?
      && (Interrupted(steps[..n], id) || (steps[n].Run? && !Answered(s, steps[n].inp, id)))
  }

  /** The device is stored as `p` saw it. */
  predicate StoredAs(s: State, p: Sighting) {
    Lookup(s.devices, p.device.id) == Some(p.device)
  }

  lemma UnseenCycle(s: State, inp: Input, clock: Time, trace: seq<Sighting>, id: string)
    requires Consistent(s, clock) && ZERO_TIME <= clock < inp.now && id != ""
    requires Unique(AllFetched(inp.outcomes)) && ValidFences(inp.fences)
    requires LastOf(StepTrace(s, Run(inp)), id).None?
    requires LastOf(trace, id).Some? && LastOf(trace, id).value.device.fenceState != Unknown
    ensures var p := LastOf(trace, id).value;
            StoredAs(Cycle(s, inp), p) <==> StoredAs(s, p) && Answered(s, inp, id)
  {
    hide Cycle, EvaluatedDevice, Index, EvaluatedAll, UsableSightings, SightingsOf;
    LastOfIs(trace, id);
    EvaluatedIDs(Index(s.devices), inp, AllFetched(inp.outcomes));
    SightedOnce(CycleEvaluated(s, inp), inp.now, id);
    LookupEvaluated(Index(s.devices), inp, AllFetched(inp.outcomes), id);
    LookupAfterCycle(s, inp, id);
    if Lookup(AllFetched(inp.outcomes), id).Some? {
      SentAfterCycle(s, inp, clock, id);
      EvaluatedID(Lookup(s.devices, id), Lookup(AllFetched(inp.outcomes), id).value, inp);
    }
  }

  lemma SeenCycle(s: State, inp: Input, clock: Time, trace: seq<Sighting>, id: string)
    requires Consistent(s, clock) && ZERO_TIME <= clock < inp.now && id != ""
    requires Unique(AllFetched(inp.outcomes)) && ValidFences(inp.fences)
    requires StoredAsSighted(s, trace, id)
    requires LastOf(trace, id).Some? ==> LastOf(trace, id).value.entry.at <= clock
    requires LastOf(StepTrace(s, Run(inp)), id).Some?
    ensures var x := LastOf(StepTrace(s, Run(inp)), id).value;
            && StoredAs(Cycle(s, inp), x) && x.entry.at == inp.now
            && (LastOf(trace, id).Some? && LastOf(trace, id).value.device.fenceState != Unknown
                && LastOf(trace, id).value.device.since.Some? && ZERO_TIME < SinceOf(LastOf(trace, id).value) <= clock
                && KeyOf(LastOf(trace, id).value.device) == KeyOf(x.device) ==>
                  (SinceOf(x) == SinceOf(LastOf(trace, id).value) <==> StoredAs(s, LastOf(trace, id).value)))
  {
    hide Cycle, EvaluatedDevice, CurrentKey, Index, EvaluatedAll, UsableSightings, SightingsOf;
    LastOfIs(trace, id);
    EvaluatedIDs(Index(s.devices), inp, AllFetched(inp.outcomes));
    SightedOnce(CycleEvaluated(s, inp), inp.now, id);
    NewSightingLinked(s, inp, clock, trace, id);
    var was, sent := Lookup(s.devices, id), Lookup(AllFetched(inp.outcomes), id);
    LookupEvaluated(Index(s.devices), inp, AllFetched(inp.outcomes), id);
    SentAfterCycle(s, inp, clock, id);
    LookupIs(s.devices, id);
    EvaluatedID(was, sent.value, inp);
    EvaluatedKey(was, sent.value, inp);
    var cur := EvaluatedDevice(was, sent.value, inp);
    if was.None? {
      KnownKeyDiffers("", cur.insideFence, cur.fenceState);
    } else if was.value.fenceState == Unknown {
      KnownKeyDiffers(was.value.insideFence, cur.insideFence, cur.fenceState);
    }
  }

  /** What the run's invariant says of the device's last sighting. */
  lemma LastSighting(steps: seq<Step>, id: string)
    requires WellFormed(steps) && LastOf(Trace(steps), id).Some?
    ensures var p := LastOf(Trace(steps), id).value;
            && Grounded(After(steps).events, p) && Usable(p.entry) && p.device.id == id && p.entry.at <= Clock(steps)
            && p.device.fenceState != Unknown && p.device.since.Some? && ZERO_TIME < SinceOf(p) <= p.entry.at
  {
    hide UsableSightings, LastAt, WellFormed;
    RunInvariant(steps);
    UsableSightingsIs(Sightings(steps));
    LastOfIs(Trace(steps), id);
  }

  /** The device is still stored as last sighted exactly while no cycle since then has interrupted it. */
  lemma {:induction false} StoredIffUninterrupted(steps: seq<Step>, fences: seq<Fence>, id: string)
    requires WellFormed(steps) && FixedFences(steps, fences) && id != "" && LastOf(Trace(steps), id).Some?
    ensures StoredAs(After(steps), LastOf(Trace(steps), id).value) <==> !Interrupted(steps, id)
  {
    if steps != [] {
      var n := |steps| - 1;
      var s, before := After(steps[..n]), steps[..n];
      TraceStep(steps);
      LastOfConcat(Trace(before), StepTrace(s, steps[n]), id);
      RunInvariant(before);
      ClockPositive(before);
      TraceInvariant(before, fences, id);
      hide Trace, StepTrace, Consistent, Answered, Cycle, StoredAsSighted, Recorded;
      if LastOf(Trace(before), id).Some? {
        LastSighting(before, id);
        StoredIffUninterrupted(before, fences, id);
      }
      match steps[n]
      case Restart => NoTrace(s);
      case Run(inp) =>
        if LastOf(StepTrace(s, steps[n]), id).Some? {
          SeenCycle(s, inp, Clock(before), Trace(before), id);
        } else {
          UnseenCycle(s, inp, Clock(before), Trace(before), id);
        }
    }
  }

  lemma NoTrace(s: State)
    ensures StepTrace(s, Restart) == []
  {
  }

  /**
    Seen again in the state of its last sighting, a device has events in between if and only if some cycle in between
    was answered without it, or without its position.
  */
  lemma ResumedIffInterrupted(steps: seq<Step>, inp: Input, fences: seq<Fence>, id: string)
    requires WellFormed(steps + [Run(inp)]) && FixedFences(steps + [Run(inp)], fences) && id != ""
    requires LastOf(Trace(steps), id).Some? && LastOf(StepTrace(After(steps), Run(inp)), id).Some?
    requires CurrentKey(fences, LastOf(Trace(steps), id).value.entry)
          == CurrentKey(fences, LastOf(StepTrace(After(steps), Run(inp)), id).value.entry)
    ensures var p, x := LastOf(Trace(steps), id).value.entry, LastOf(StepTrace(After(steps), Run(inp)), id).value.entry;
            Quiet(After(steps + [Run(inp)]).events, id, p.at, x.at) <==> !Interrupted(steps, id)
  {
    var all := steps + [Run(inp)];
    assert all[..|steps|] == steps;
    var s, p, x := After(steps), LastOf(Trace(steps), id).value, LastOf(StepTrace(After(steps), Run(inp)), id).value;
    TraceStep(all);
    LastOfConcat(Trace(steps), StepTrace(s, Run(inp)), id);
    RunInvariant(steps);
    RunInvariant(all);
    ClockPositive(steps);
    TraceInvariant(steps, fences, id);
    TraceInvariant(all, fences, id);
    LastSighting(steps, id);
    LastSighting(all, id);
    GroundedStays(s, inp, Clock(steps), p);
    StoredIffUninterrupted(steps, fences, id);
    SeenCycle(s, inp, Clock(steps), Trace(steps), id);
    LastKeys(fences, Trace(steps), id);
    LastKeys(fences, Trace(all), id);
    hide Cycle, Consistent, Recorded, StoredAsSighted, Trace, StepTrace, Grounded, Usable, Interrupted, Quiet, StoredAs,
         CurrentKey, KeyOf, LastOf;
    SameStayIffQuiet(After(all).events, p, x);
  }

  lemma LastKeys(fences: seq<Fence>, w: seq<Sighting>, id: string)
    requires Recorded(fences, w, id) && LastOf(w, id).Some?
    ensures CurrentKey(fences, LastOf(w, id).value.entry) == KeyOf(LastOf(w, id).value.device)
  {
    hide CurrentKey, KeyOf, Linked;
    LastOfIs(w, id);
    var k :| 0 <= k < |w| && w[k] == LastOf(w, id).value;
  }

  // -------- The hypothesis is needed: two runs in which the replay overstates --------

  const HERE := Point(0.0, 0.0)
  const SEEN := Device("d", "", "uem", Some(HERE), Unknown, "", "", None, 0, "", Unassigned, None)
  const BLIND := SEEN.(point := None)

  function Tick(second: nat, ds: seq<Device>): Input {
    Input(second * SECOND, [Fetched("uem", ds)], [], [])
  }

  const FIRST_CYCLE: seq<Step> := [Run(Tick(1, [SEEN]))]

  function UpToGap(middle: seq<Device>): seq<Step> {
    FIRST_CYCLE + [Run(Tick(2, middle))]
  }

  /** Sighted, then answered without the device or without its position, then sighted again: no fences at all. */
  function GapRun(middle: seq<Device>): seq<Step> {
    UpToGap(middle) + [Run(Tick(3, [SEEN]))]
  }

  lemma OneMore(steps: seq<Step>, inp: Input)
    ensures var all := steps + [Run(inp)];
            && After(all) == Cycle(After(steps), inp)
            && Clock(all) == inp.now
            && Trace(all) == Trace(steps) + StepTrace(After(steps), Run(inp))
            && (WellFormed(steps) && Clock(steps) < inp.now && Unique(AllFetched(inp.outcomes)) && ValidFences(inp.fences)
                ==> WellFormed(all))
  {
    hide Cycle, StepTrace;
    var all := steps + [Run(inp)];
    assert all[..|all| - 1] == steps;
    TraceStep(all);
  }

  lemma FetchedOne(second: nat, ds: seq<Device>)
    ensures AllFetched(Tick(second, ds).outcomes) == ds
  {
    var outs := Tick(second, ds).outcomes;
    assert outs[..0] == [];
    assert AllFetched(outs) == [] + ds;
  }

  lemma OutsideNow(was: Option<Device>, second: nat)
    requires was.Some? ==> was.value.fenceState == Unknown && was.value.insideFence == ""
    ensures var cur := EvaluatedDevice(was, SEEN, Tick(second, [SEEN]));
            && cur.fenceState == Outside && cur.insideFence == "" && cur.point == Some(HERE) && cur.id == "d"
            && cur.since == Some(second * SECOND) && cur.dwell == 0
  {
    assert Key("", Unknown) == "none:unknown" && Key("", Outside) == "none:outside";
    assert "none:unknown"[5] != "none:outside"[5];
  }

  lemma OneDevice(d: Device, now: Time)
    requires now != ZERO_TIME && d.point == Some(HERE) && d.id == "d"
    ensures UsableSightings(SightingsOf([d], now)) == [Sighting(TrailEntry("d", now, HERE), d)]
  {
    UsableLast([d], now);
    assert [d][..0] == [];
  }

  lemma EvaluatedOne(s: State, inp: Input, d: Device)
    requires AllFetched(inp.outcomes) == [d]
    ensures CycleEvaluated(s, inp) == [EvaluatedDevice(Lookup(s.devices, d.id), d, inp)]
  {
    hide EvaluatedDevice;
    assert [d][..0] == [];
  }

  lemma BlindUnknown(was: Option<Device>, inp: Input)
    ensures var cur := EvaluatedDevice(was, BLIND, inp);
            cur.fenceState == Unknown && cur.insideFence == "" && cur.point == None
  {
  }

  lemma NoSighting(d: Device, now: Time)
    requires d.point == None
    ensures UsableSightings(SightingsOf([d], now)) == []
  {
    UsableLast([d], now);
    assert [d][..0] == [];
  }

  /** The gap forgets the stay (or the position), so the second sighting starts a new one. */
  lemma AfterGap(s: State, middle: seq<Device>)
    requires Unique(s.devices)
    requires middle == [] || middle == [BLIND]
    ensures var was := Lookup(Cycle(s, Tick(2, middle)).devices, "d");
            was.Some? ==> was.value.fenceState == Unknown && was.value.insideFence == ""
    ensures StepTrace(s, Run(Tick(2, middle))) == []
  {
    hide EvaluatedDevice, Cycle, Index;
    var inp := Tick(2, middle);
    FetchedOne(2, middle);
    LookupAfterCycle(s, inp, "d");
    assert Down(inp.outcomes) == {};
    if middle == [BLIND] {
      LookupSingle(BLIND, "d");
      EvaluatedOne(s, inp, BLIND);
      BlindUnknown(Lookup(s.devices, "d"), inp);
      NoSighting(EvaluatedDevice(Lookup(s.devices, "d"), BLIND, inp), inp.now);
    } else {
      LookupIs(middle, "d");
      assert CycleEvaluated(s, inp) == [];
    }
  }

  /** A cycle that sights the device afresh, with no stay to go on with. */
  lemma SightedAfresh(s: State, second: nat) returns (x: Sighting)
    requires second > 0
    requires var was := Lookup(s.devices, "d");
             was.Some? ==> was.value.fenceState == Unknown && was.value.insideFence == ""
    ensures StepTrace(s, Run(Tick(second, [SEEN]))) == [x]
    ensures x.entry == TrailEntry("d", second * SECOND, HERE) && x.device.dwell == 0 && x.device.id == "d"
  {
    hide EvaluatedDevice, Index;
    FetchedOne(second, [SEEN]);
    var was := Lookup(s.devices, "d");
    OutsideNow(was, second);
    EvaluatedOne(s, Tick(second, [SEEN]), SEEN);
    OneDevice(EvaluatedDevice(was, SEEN, Tick(second, [SEEN])), second * SECOND);
    x := Sighting(TrailEntry("d", second * SECOND, HERE), EvaluatedDevice(was, SEEN, Tick(second, [SEEN])));
  }

  lemma TwoPointStreak(a: TrailEntry, b: TrailEntry)
    requires a.deviceID == b.deviceID && a.point == b.point && a.at <= b.at
    ensures CurrentPlace([], [a, b], 1).dwell == DwellSeconds(a.at, b.at)
  {
    hide Key, EvaluateFence;
    assert [a, b][..1] == [a] && [a][..0] == [];
    assert StancesAfter([], [a]) == StancesWith([], map[], a);
    assert CurrentKey([], a) == CurrentKey([], b);
  }

  lemma GapRunWellFormed(middle: seq<Device>)
    requires middle == [] || middle == [BLIND]
    ensures WellFormed(GapRun(middle)) && FixedFences(GapRun(middle), [])
  {
    hide EvaluatedDevice, Cycle, StepTrace, WellFormed;
    FetchedOne(1, [SEEN]);
    FetchedOne(2, middle);
    FetchedOne(3, [SEEN]);
    EmptyWellFormed();
    OneMore([], Tick(1, [SEEN]));
    assert FIRST_CYCLE == [] + [Run(Tick(1, [SEEN]))];
    OneMore(FIRST_CYCLE, Tick(2, middle));
    OneMore(UpToGap(middle), Tick(3, [SEEN]));
  }

  lemma EmptyWellFormed()
    ensures WellFormed([]) && Clock([]) == ZERO_TIME
  {
  }

  lemma GapTrace(middle: seq<Device>) returns (x: Sighting, y: Sighting)
    requires middle == [] || middle == [BLIND]
    ensures Trace(GapRun(middle)) == [x, y]
    ensures x.entry == TrailEntry("d", SECOND, HERE) && y.entry == TrailEntry("d", 3 * SECOND, HERE)
    ensures y.device.dwell == 0
  {
    hide EvaluatedDevice, Cycle, StepTrace, CurrentPlace, WellFormed, FixedFences;
    FetchedOne(1, [SEEN]);
    var s1 := Cycle(EMPTY, Tick(1, [SEEN]));
    var s2 := Cycle(s1, Tick(2, middle));
    AfterCycleUnique(EMPTY, Tick(1, [SEEN]));
    x := SightedAfresh(EMPTY, 1);
    AfterGap(s1, middle);
    y := SightedAfresh(s2, 3);
    assert FIRST_CYCLE == [] + [Run(Tick(1, [SEEN]))];
    OneMore([], Tick(1, [SEEN]));
    OneMore(FIRST_CYCLE, Tick(2, middle));
    OneMore(UpToGap(middle), Tick(3, [SEEN]));
  }

  /** The engine says the stay began this cycle; the replay says two seconds ago. */
  lemma GapOverstates(middle: seq<Device>)
    requires middle == [] || middle == [BLIND]
    ensures var steps := GapRun(middle);
            var w := Window(steps, 0);
            && WellFormed(steps) && FixedFences(steps, [])
            && |w| == 2 && w[1].device.dwell == 0 && CurrentPlace([], Entries(w), 1).dwell == 2
  {
    hide Trace, CurrentPlace, WellFormed, FixedFences, GapRun;
    GapRunWellFormed(middle);
    var x, y := GapTrace(middle);
    var w := Window(GapRun(middle), 0);
    assert w == [x, y];
    assert Entries(w) == [x.entry, y.entry];
    TwoPointStreak(x.entry, y.entry);
  }
}
