/** Fence state of a device, the state key, and the stay clock (internal/domain/transition). */
module Transition {
  import opened Base
  import opened Keys

  datatype FenceState = Inside | Outside | Unknown
  datatype RouteState = OnRoute | OffRoute | Unassigned

  /** A position. `NotFinite` stands for any NaN or infinite coordinate. */
  datatype Point = Point(lat: real, lng: real) | NotFinite {
    predicate Valid() {
      Point? && -90.0 <= lat <= 90.0 && -180.0 <= lng <= 180.0
    }
  }

  datatype When = OnEnter | OnExit | OnViolation | OnUnknown

  datatype FenceAction = FenceAction(action: string, when: When, enabled: bool)

  /** `contains` is the fence's shape, left abstract: any predicate on points. */
  datatype Fence = Fence(id: string, contains: Point -> bool, dwellSeconds: int, violationInterval: int,
                         actions: seq<FenceAction>)
  {
    function ActionsFor(w: When): seq<FenceAction> {
      Enabled(actions, w)
    }
  }

  function Enabled(actions: seq<FenceAction>, w: When): seq<FenceAction> {
    if actions == [] then []
    else (if actions[0].enabled && actions[0].when == w then [actions[0]] else []) + Enabled(actions[1..], w)
  }

  datatype Device = Device(id: string, name: string, provider: string, point: Option<Point>,
                           fenceState: FenceState, insideFence: string, lastInsideFence: string,
                           since: Option<Time>, dwell: int,
                           routeID: string, routeState: RouteState, deviation: Option<real>)

  datatype Event = Event(at: Time, deviceID: string, deviceName: string, from: string, to: string)

  predicate HasFix(point: Option<Point>) {
    point.Some? && point.value.Valid()
  }

  /** The first fence in list order that holds the point wins; without a valid point the state is unknown. */
  function EvaluateFence(point: Option<Point>, fences: seq<Fence>): (r: (FenceState, string))
    ensures r.0.Unknown? <==> !HasFix(point)
    ensures !r.0.Inside? ==> r.1 == ""
  {
    if !HasFix(point) then (Unknown, "")
    else if fences == [] then (Outside, "")
    else if fences[0].contains(point.value) then (Inside, fences[0].id)
    else EvaluateFence(point, fences[1..])
  }

  ghost predicate FirstHolding(p: Point, fences: seq<Fence>, i: nat) {
    i < |fences| && fences[i].contains(p) && forall j :: 0 <= j < i ==> !fences[j].contains(p)
  }

  /** Inside means: some fence holds the point, and the id is that of the first such fence in the list. */
  lemma {:induction false} FirstFenceWins(p: Point, fences: seq<Fence>) returns (i: nat)
    requires p.Valid()
    ensures EvaluateFence(Some(p), fences).0 == Inside <==> exists k :: 0 <= k < |fences| && fences[k].contains(p)
    ensures EvaluateFence(Some(p), fences).0 == Inside ==>
              FirstHolding(p, fences, i) && EvaluateFence(Some(p), fences).1 == fences[i].id
  {
    i := 0;
    if fences != [] && !fences[0].contains(p) {
      i := FirstFenceWins(p, fences[1..]);
      i := i + 1;
      assert forall k :: 1 <= k < |fences| ==> fences[k] == fences[1..][k - 1];
    }
  }

  function StateText(s: FenceState): string {
    match s
    case Inside => "inside"
    case Outside => "outside"
    case Unknown => "unknown"
  }

  /** "<fence|none>:<state>". */
  function Key(insideID: string, state: FenceState): string {
    (if insideID == "" then "none" else insideID) + ":" + StateText(state)
  }

  const FIRST_KEY := Key("", Unknown)

  function KeyOf(d: Device): string {
    Key(d.insideFence, d.fenceState)
  }

  /** The key a device had in the cycle before; a device not seen before counts as unknown. */
  function PreviousKey(prev: Option<Device>): string {
    if prev.Some? then KeyOf(prev.value) else FIRST_KEY
  }

  /** Start of the stay: kept while the key stays the same and the start is known, otherwise this cycle. */
  function StaySince(prev: Option<Device>, same: bool, at: Time): Time {
    if same && prev.Some? && prev.value.since.Some? && prev.value.since.value != ZERO_TIME
    then prev.value.since.value else at
  }

  function LastInside(prev: Option<Device>, cur: Device, state: FenceState, inside: string): string {
    if state != Unknown then inside
    else if prev.None? then cur.lastInsideFence
    else if prev.value.insideFence != "" then prev.value.insideFence
    else prev.value.lastInsideFence
  }

  /** What `Evaluate` makes of the fetched device. */
  function Evaluated(prev: Option<Device>, d: Device, fences: seq<Fence>, at: Time): Device {
    var (state, inside) := EvaluateFence(d.point, fences);
    var since := StaySince(prev, PreviousKey(prev) == Key(inside, state), at);
    d.(fenceState := state, insideFence := inside, lastInsideFence := LastInside(prev, d, state, inside),
       since := Some(since), dwell := DwellSeconds(since, at))
  }

  function EventOf(prev: Option<Device>, d: Device, fences: seq<Fence>, at: Time): Option<Event> {
    var cur := Evaluated(prev, d, fences, at);
    if PreviousKey(prev) == KeyOf(cur) then None
    else Some(Event(at, d.id, d.name, PreviousKey(prev), KeyOf(cur)))
  }

  /** `Evaluate`, field by field as the source assigns them. */
  method Evaluate(prev: Option<Device>, d: Device, fences: seq<Fence>, at: Time)
    returns (cur: Device, tr: Option<Event>)
    ensures cur == Evaluated(prev, d, fences, at)
    ensures tr == EventOf(prev, d, fences, at)
  {
    var (state, inside) := EvaluateFence(d.point, fences);
    cur := d.(fenceState := state, insideFence := inside);
    if state == Unknown {
      if prev.Some? {
        cur := cur.(lastInsideFence := prev.value.insideFence);
        if cur.lastInsideFence == "" {
          cur := cur.(lastInsideFence := prev.value.lastInsideFence);
        }
      }
    } else {
      cur := cur.(lastInsideFence := inside);
    }
    var prevKey := FIRST_KEY;
    if prev.Some? {
      prevKey := Key(prev.value.insideFence, prev.value.fenceState);
    }
    var curKey := Key(inside, state);
    var since := at;
    if prevKey == curKey && prev.Some? && prev.value.since.Some? && prev.value.since.value != ZERO_TIME {
      since := prev.value.since.value;
    }
    cur := cur.(since := Some(since), dwell := Max(0, TruncDiv(at - since, SECOND)));
    if prevKey == curKey {
      tr := None;
    } else {
      tr := Some(Event(at, cur.id, cur.name, prevKey, curKey));
    }
  }

  // -------- Reading a key back (internal/engine/replay_history.go, parseKey) --------

  /** Index of the first `c`, or the length when there is none. */
  function IndexOf(s: string, c: char): (i: nat)
    ensures i <= |s|
    ensures forall k :: 0 <= k < i ==> s[k] != c
    ensures i < |s| ==> s[i] == c
  {
    if s == [] || s[0] == c then 0 else 1 + IndexOf(s[1..], c)
  }

  function StateOf(text: string): FenceState {
    if text == "inside" then Inside else if text == "outside" then Outside else Unknown
  }

  function ParseKey(key: string): (FenceState, string) {
    var i := IndexOf(key, ':');
    if i == |key| then (Unknown, "")
    else
      var id := if key[..i] == "none" then "" else key[..i];
      var state := StateOf(key[i + 1..]);
      if state.Unknown? then (Unknown, "") else (state, id)
  }

  lemma ParseKeyCut(head: string, rest: string)
    requires Free(head, ':')
    ensures IndexOf(head + ":" + rest, ':') == |head|
  {
    var s := head + ":" + rest;
    assert s[|head|] == ':';
    assert forall k :: 0 <= k < |head| ==> s[k] == head[k];
  }

  lemma StateOfText(s: FenceState)
    ensures StateOf(StateText(s)) == s && Free(StateText(s), ':')
  {
  }

  lemma NoStateHas(text: string, i: nat)
    requires i < |text| && text[i] == ':'
    ensures StateOf(text) == Unknown
  {
    StateOfText(Inside);
    StateOfText(Outside);
  }

  /** `parseKey` undoes `Key` exactly for the ids a fence may carry; any other id is read back wrong. */
  lemma ParseKeyInvertsKey(id: string, state: FenceState)
    ensures ParseKey(Key(id, state)) == (state, id) <==>
            if state.Unknown? then id == "" else id != "none" && Free(id, ':')
  {
    hide StateOf, StateText;
    var head := if id == "" then "none" else id;
    var key := Key(id, state);
    StateOfText(state);
    if Free(head, ':') {
      ParseKeyCut(head, StateText(state));
      assert key[..|head|] == head && key[|head| + 1..] == StateText(state);
    } else {
      var i := IndexOf(head, ':');
      assert i < |head|;
      ParseKeyCut(head[..i], head[i + 1..] + ":" + StateText(state));
      assert key == head[..i] + ":" + (head[i + 1..] + ":" + StateText(state));
      var tail := key[i + 1..];
      assert tail == head[i + 1..] + ":" + StateText(state);
      NoStateHas(tail, |head| - i - 1);
    }
  }

  lemma ValidFenceIDFree(id: string)
    requires ValidFenceID(id)
    ensures Free(id, ':') && Free(id, '|') && id != "" && id != "none"
  {
  }

  /** Different stances have different keys when the fence ids are well formed. */
  lemma KeyInjective(id: string, s: FenceState, id': string, s': FenceState)
    requires id == "" || ValidFenceID(id)
    requires id' == "" || ValidFenceID(id')
    requires Key(id, s) == Key(id', s')
    ensures s == s' && id == id'
  {
    hide StateOf, StateText, ValidFenceID;
    StateOfText(s);
    StateOfText(s');
    if id != "" {
      ValidFenceIDFree(id);
    }
    if id' != "" {
      ValidFenceIDFree(id');
    }
    var head := if id == "" then "none" else id;
    var head' := if id' == "" then "none" else id';
    ParseKeyCut(head, StateText(s));
    ParseKeyCut(head', StateText(s'));
    assert head == Key(id, s)[..|head|] && head' == Key(id', s')[..|head'|];
    assert StateText(s) == Key(id, s)[|head| + 1..] && StateText(s') == Key(id', s')[|head'| + 1..];
  }
}
