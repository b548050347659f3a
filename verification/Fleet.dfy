/**
  The evaluation cycle as the observer of the fleet: fetch, evaluate, log, plan the geofence and route
  orders, save (internal/engine/cycle.go, actions.go, standing.go, internal/store/dwell_marks.go).
  Functions give the state after a cycle; class `Engine` computes it in place, loop by loop.
*/
module Fleet {
  import opened Base
  import opened Keys
  import opened Transition

  datatype Route = Route(id: string, corridor: real, distance: Point -> real, deviceIDs: seq<string>,
                         actions: seq<FenceAction>)

  /** What one connector answered in this cycle. */
  datatype Outcome = Fetched(name: string, devices: seq<Device>) | Failed(name: string)

  datatype Input = Input(now: Time, outcomes: seq<Outcome>, fences: seq<Fence>, routes: seq<Route>)

  datatype TrailEntry = TrailEntry(deviceID: string, at: Time, point: Point)

  datatype Order = Order(deviceID: string, action: string, fenceID: string, routeID: string, trigger: string)

  /** One on_enter batch planned by the stay clock: which device, which fence, which stay. */
  datatype Firing = Firing(deviceID: string, fenceID: string, stay: Time)

  /** The persisted stores plus the engine's memory between cycles. */
  datatype State = State(devices: seq<Device>, events: seq<Event>, trail: seq<TrailEntry>,
                         marks: map<string, Time>, dirty: bool, file: map<string, Time>,
                         violations: map<string, int>)

  /** What a cycle has accumulated so far. */
  datatype Work = Work(devices: seq<Device>, events: seq<Event>, trail: seq<TrailEntry>,
                       marks: map<string, Time>, dirty: bool, violations: map<string, int>,
                       orders: seq<Order>, firings: seq<Firing>)

  const EMPTY := State([], [], [], map[], false, map[], map[])

  // -------- Reading the fleet --------

  function AllFetched(outs: seq<Outcome>): seq<Device> {
    if outs == [] then []
    else
      var o := outs[|outs| - 1];
      AllFetched(outs[..|outs| - 1]) + (if o.Fetched? then o.devices else [])
  }

  function Down(outs: seq<Outcome>): set<string> {
    set o | o in outs && o.Failed? :: o.name
  }

  /** Devices by id; the last one wins. */
  function Index(ds: seq<Device>): map<string, Device> {
    if ds == [] then map[]
    else
      var d := ds[|ds| - 1];
      Index(ds[..|ds| - 1])[d.id := d]
  }

  function Get(m: map<string, Device>, id: string): Option<Device> {
    if id in m then Some(m[id]) else None
  }

  function Lookup(ds: seq<Device>, id: string): Option<Device> {
    Get(Index(ds), id)
  }

  function IDs(ds: seq<Device>): set<string> {
    set d | d in ds :: d.id
  }

  predicate Unique(ds: seq<Device>) {
    forall i, j :: 0 <= i < j < |ds| ==> ds[i].id != ds[j].id
  }

  /** Devices of the previous cycle kept as they were: their connector failed and nobody else sent them. */
  function Stale(prev: seq<Device>, down: set<string>, seen: set<string>): seq<Device> {
    if prev == [] then []
    else
      var d := prev[|prev| - 1];
      Stale(prev[..|prev| - 1], down, seen) + (if d.provider in down && d.id !in seen then [d] else [])
  }

  // -------- One device --------

  function ForDevice(routes: seq<Route>, id: string): Option<Route> {
    if routes == [] then None
    else if id in routes[0].deviceIDs then Some(routes[0])
    else ForDevice(routes[1..], id)
  }

  function Routed(d: Device, routes: seq<Route>): Device {
    var r := ForDevice(routes, d.id);
    if r.Some? && d.point.Some? then
      var m := r.value.distance(d.point.value);
      d.(routeID := r.value.id, deviation := Some(m),
         routeState := if m > r.value.corridor then OffRoute else OnRoute)
    else d.(routeID := "", deviation := None, routeState := Unassigned)
  }

  function EvaluatedDevice(prev: Option<Device>, d: Device, inp: Input): Device {
    Routed(Evaluated(prev, d, inp.fences, inp.now), inp.routes)
  }

  function TrailOf(d: Device, now: Time): seq<TrailEntry> {
    if d.point.Some? then [TrailEntry(d.id, now, d.point.value)] else []
  }

  function ToSeq<T>(o: Option<T>): seq<T> {
    if o.Some? then [o.value] else []
  }

  // -------- Orders --------

  function FenceOrders(id: string, acts: seq<FenceAction>, fenceID: string, trigger: string): seq<Order> {
    seq(|acts|, i requires 0 <= i < |acts| => Order(id, acts[i].action, fenceID, "", trigger))
  }

  function FindFence(fences: seq<Fence>, id: string): Option<Fence> {
    if fences == [] then None
    else if fences[0].id == id then Some(fences[0])
    else FindFence(fences[1..], id)
  }

  /** The fence id of a transition key, "" for none. */
  function FenceOfKey(key: string): string {
    var id := key[..IndexOf(key, ':')];
    if id == "none" then "" else id
  }

  function Harmless(acts: seq<FenceAction>): seq<FenceAction> {
    if acts == [] then []
    else (if Destructive(acts[0].action) then [] else [acts[0]]) + Harmless(acts[1..])
  }

  function UnknownOrders(id: string, fences: seq<Fence>): seq<Order> {
    if fences == [] then []
    else FenceOrders(id, Harmless(fences[0].ActionsFor(OnUnknown)), fences[0].id, "on_unknown")
         + UnknownOrders(id, fences[1..])
  }

  function ExitOrders(id: string, from: string, fences: seq<Fence>): seq<Order> {
    var f := FindFence(fences, from);
    if from == "" || f.None? then [] else FenceOrders(id, f.value.ActionsFor(OnExit), f.value.id, "on_exit")
  }

  function EnterOrders(id: string, to: string, fences: seq<Fence>): seq<Order> {
    var f := FindFence(fences, to);
    if to == "" || f.None? || f.value.dwellSeconds > 0 then []
    else FenceOrders(id, f.value.ActionsFor(OnEnter), f.value.id, "on_enter")
  }

  function TransitionOrders(cur: Device, tr: Option<Event>, fences: seq<Fence>): seq<Order> {
    if tr.None? then []
    else ExitOrders(cur.id, FenceOfKey(tr.value.from), fences)
         + EnterOrders(cur.id, FenceOfKey(tr.value.to), fences)
         + (if cur.fenceState.Unknown? then UnknownOrders(cur.id, fences) else [])
  }

  function RouteActions(r: Route): seq<FenceAction> {
    if r.actions == [] then [FenceAction("notify", OnExit, true)] else Enabled(r.actions, OnExit)
  }

  /** Leaving the corridor orders once: only when the cycle before was not already off the route. */
  function RouteOrders(prev: Option<Device>, cur: Device, routes: seq<Route>): seq<Order> {
    var r := ForDevice(routes, cur.id);
    if prev.None? || cur.routeState != OffRoute || prev.value.routeState == OffRoute || r.None? then []
    else
      var acts := RouteActions(r.value);
      seq(|acts|, i requires 0 <= i < |acts| => Order(cur.id, acts[i].action, "", r.value.id, "route_exit"))
  }

  // -------- The stay clock: rules.dwell_seconds --------

  predicate InsideOf(cur: Device, f: Fence) {
    cur.fenceState == Inside && cur.insideFence == f.id
  }

  predicate Fires(cur: Device, f: Fence, marks: map<string, Time>) {
    var key := MarkKey(cur.id, f.id);
    && f.dwellSeconds > 0
    && InsideOf(cur, f)
    && f.ActionsFor(OnEnter) != []
    && cur.since.Some?
    && cur.dwell >= f.dwellSeconds
    && !(key in marks && marks[key] == cur.since.value)
  }

  predicate Forgets(cur: Device, f: Fence, marks: map<string, Time>) {
    f.dwellSeconds > 0 && !InsideOf(cur, f) && MarkKey(cur.id, f.id) in marks
  }

  function Marked(cur: Device, f: Fence, marks: map<string, Time>): map<string, Time> {
    var key := MarkKey(cur.id, f.id);
    if Fires(cur, f, marks) then marks[key := cur.since.value]
    else if Forgets(cur, f, marks) then marks - {key}
    else marks
  }

  function MarksAfter(cur: Device, fences: seq<Fence>, marks: map<string, Time>): map<string, Time> {
    if fences == [] then marks
    else Marked(cur, fences[|fences| - 1], MarksAfter(cur, fences[..|fences| - 1], marks))
  }

  function DirtyAfter(cur: Device, fences: seq<Fence>, marks: map<string, Time>, dirty: bool): bool {
    if fences == [] then dirty
    else
      var before := MarksAfter(cur, fences[..|fences| - 1], marks);
      var f := fences[|fences| - 1];
      DirtyAfter(cur, fences[..|fences| - 1], marks, dirty) || Fires(cur, f, before) || Forgets(cur, f, before)
  }

  function FiringsOf(cur: Device, fences: seq<Fence>, marks: map<string, Time>): seq<Firing> {
    if fences == [] then []
    else
      var f := fences[|fences| - 1];
      FiringsOf(cur, fences[..|fences| - 1], marks)
      + (if Fires(cur, f, MarksAfter(cur, fences[..|fences| - 1], marks))
         then [Firing(cur.id, f.id, cur.since.value)] else [])
  }

  function DwellOrders(cur: Device, fences: seq<Fence>, marks: map<string, Time>): seq<Order> {
    if fences == [] then []
    else
      var f := fences[|fences| - 1];
      DwellOrders(cur, fences[..|fences| - 1], marks)
      + (if Fires(cur, f, MarksAfter(cur, fences[..|fences| - 1], marks))
         then FenceOrders(cur.id, f.ActionsFor(OnEnter), f.id, "dwell") else [])
  }

  // -------- Standing violations --------

  predicate Violates(cur: Device, f: Fence) {
    cur.fenceState == Outside && f.ActionsFor(OnViolation) != []
  }

  function Count(m: map<string, int>, key: string): int {
    if key in m then m[key] else 0
  }

  function Counted(cur: Device, f: Fence, v: map<string, int>): map<string, int> {
    var key := MarkKey(cur.id, f.id);
    if Violates(cur, f) then v[key := Count(v, key) + 1] else v - {key}
  }

  function ViolationsAfter(cur: Device, fences: seq<Fence>, v: map<string, int>): map<string, int> {
    if fences == [] then v
    else Counted(cur, fences[|fences| - 1], ViolationsAfter(cur, fences[..|fences| - 1], v))
  }

  /** On the n-th, 2n-th, … consecutive cycle outside, counting the one the map already holds. */
  predicate Due(cur: Device, f: Fence, v: map<string, int>) {
    && Violates(cur, f)
    && (Count(v, MarkKey(cur.id, f.id)) + 1) % Max(1, f.violationInterval) == 0
  }

  function StandingOrders(cur: Device, fences: seq<Fence>, v: map<string, int>): seq<Order> {
    if fences == [] then []
    else
      var f := fences[|fences| - 1];
      StandingOrders(cur, fences[..|fences| - 1], v)
      + (if Due(cur, f, ViolationsAfter(cur, fences[..|fences| - 1], v))
         then FenceOrders(cur.id, f.ActionsFor(OnViolation), f.id, "on_violation") else [])
  }

  // -------- The cycle --------

  /** The geofence and route orders of one device, in plan order. */
  function OrdersOf(before: Option<Device>, cur: Device, tr: Option<Event>, inp: Input,
                    marks: map<string, Time>, violations: map<string, int>): seq<Order>
  {
    RouteOrders(before, cur, inp.routes) + TransitionOrders(cur, tr, inp.fences)
    + DwellOrders(cur, inp.fences, marks) + StandingOrders(cur, inp.fences, violations)
  }

  function Visit(prev: map<string, Device>, inp: Input, d: Device, w: Work): Work {
    var before := Get(prev, d.id);
    var cur := EvaluatedDevice(before, d, inp);
    var tr := EventOf(before, d, inp.fences, inp.now);
    Work(w.devices + [cur], w.events + ToSeq(tr), w.trail + TrailOf(cur, inp.now),
         MarksAfter(cur, inp.fences, w.marks), DirtyAfter(cur, inp.fences, w.marks, w.dirty),
         ViolationsAfter(cur, inp.fences, w.violations),
         w.orders + OrdersOf(before, cur, tr, inp, w.marks, w.violations),
         w.firings + FiringsOf(cur, inp.fences, w.marks))
  }

  function Sweep(prev: map<string, Device>, inp: Input, ds: seq<Device>, w: Work): Work {
    if ds == [] then w else Visit(prev, inp, ds[|ds| - 1], Sweep(prev, inp, ds[..|ds| - 1], w))
  }

  lemma SweepStep(prev: map<string, Device>, inp: Input, ds: seq<Device>, i: nat, w: Work)
    requires i < |ds|
    ensures Sweep(prev, inp, ds[..i + 1], w) == Visit(prev, inp, ds[i], Sweep(prev, inp, ds[..i], w))
  {
    assert ds[..i + 1][..i] == ds[..i];
  }

  function Begin(s: State): Work {
    Work([], s.events, s.trail, s.marks, s.dirty, s.violations, [], [])
  }

  function CycleWork(s: State, inp: Input): Work {
    Sweep(Index(s.devices), inp, AllFetched(inp.outcomes), Begin(s))
  }

  function Cycle(s: State, inp: Input): State {
    var w := CycleWork(s, inp);
    State(w.devices + Stale(s.devices, Down(inp.outcomes), IDs(w.devices)), w.events, w.trail, w.marks, false,
          if w.dirty then w.marks else s.file, w.violations)
  }

  /** A new process: the marks come back from the file, the violation counters start again. */
  function Restarted(s: State): State {
    s.(marks := s.file, dirty := false, violations := map[])
  }

  // -------- Runs --------

  datatype Step = Run(inp: Input) | Restart

  function Next(s: State, step: Step): State {
    match step
    case Run(inp) => Cycle(s, inp)
    case Restart => Restarted(s)
  }

  function After(steps: seq<Step>): State {
    if steps == [] then EMPTY else Next(After(steps[..|steps| - 1]), steps[|steps| - 1])
  }

  /** The clock of the last cycle; zero before the first. */
  function Clock(steps: seq<Step>): Time {
    if steps == [] then ZERO_TIME
    else match steps[|steps| - 1]
      case Run(inp) => inp.now
      case Restart => Clock(steps[..|steps| - 1])
  }

  predicate ValidFences(fences: seq<Fence>) {
    forall i :: 0 <= i < |fences| ==> ValidFenceID(fences[i].id)
  }

  /** The hypotheses on a run: cycle clocks grow strictly, a cycle sends each device once, fence ids are valid. */
  predicate WellFormed(steps: seq<Step>) {
    steps != [] ==>
      var n := |steps| - 1;
      && WellFormed(steps[..n])
      && (steps[n].Run? ==>
        && Clock(steps[..n]) < steps[n].inp.now
        && Unique(AllFetched(steps[n].inp.outcomes))
        && ValidFences(steps[n].inp.fences))
  }

  // -------- The engine in place --------

  class Engine {
    var devices: seq<Device>          // devices.json
    var events: seq<Event>            // events.jsonl
    var trail: seq<TrailEntry>        // trail.jsonl
    var dwellFile: map<string, Time>  // dwell.json
    var dwelled: map<string, Time>
    var dwellDirty: bool
    var violations: map<string, int>

    function Contents(): State
      reads this
    {
      State(devices, events, trail, dwelled, dwellDirty, dwellFile, violations)
    }

    /** A process started on the stores it finds. */
    constructor (stored: State)
      ensures Contents() == Restarted(stored)
    {
      devices, events, trail, dwellFile := stored.devices, stored.events, stored.trail, stored.file;
      dwelled, dwellDirty, violations := stored.file, false, map[];
    }

    method FetchAll(outs: seq<Outcome>) returns (all: seq<Device>, down: set<string>)
      ensures all == AllFetched(outs)
      ensures down == Down(outs)
    {
      all, down := [], {};
      for i := 0 to |outs|
        invariant all == AllFetched(outs[..i])
        invariant down == Down(outs[..i])
      {
        assert outs[..i + 1][..i] == outs[..i];
        assert outs[..i + 1] == outs[..i] + [outs[i]];
        match outs[i] {
          case Fetched(_, ds) => all := all + ds;
          case Failed(name) => down := down + {name};
        }
      }
      assert outs[..|outs|] == outs;
    }

    method PlanDwell(cur: Device, fences: seq<Fence>) returns (out: seq<Order>)
      modifies `dwelled, `dwellDirty
      ensures dwelled == MarksAfter(cur, fences, old(dwelled))
      ensures dwellDirty == DirtyAfter(cur, fences, old(dwelled), old(dwellDirty))
      ensures out == DwellOrders(cur, fences, old(dwelled))
    {
      out := [];
      for i := 0 to |fences|
        invariant dwelled == MarksAfter(cur, fences[..i], old(dwelled))
        invariant dwellDirty == DirtyAfter(cur, fences[..i], old(dwelled), old(dwellDirty))
        invariant out == DwellOrders(cur, fences[..i], old(dwelled))
      {
        var f := fences[i];
        assert fences[..i + 1][..i] == fences[..i];
        if f.dwellSeconds > 0 {
          var key := MarkKey(cur.id, f.id);
          if cur.fenceState != Inside || cur.insideFence != f.id {
            if key in dwelled {
              dwelled := dwelled - {key};
              dwellDirty := true;
            }
          } else {
            var acts := f.ActionsFor(OnEnter);
            if |acts| != 0 && cur.since.Some? && cur.dwell >= f.dwellSeconds
               && !(key in dwelled && dwelled[key] == cur.since.value)
            {
              dwelled := dwelled[key := cur.since.value];
              dwellDirty := true;
              out := out + FenceOrders(cur.id, acts, f.id, "dwell");
            }
          }
        }
      }
      assert fences[..|fences|] == fences;
    }

    method PlanStanding(cur: Device, fences: seq<Fence>) returns (out: seq<Order>)
      modifies `violations
      ensures violations == ViolationsAfter(cur, fences, old(violations))
      ensures out == StandingOrders(cur, fences, old(violations))
    {
      out := [];
      for i := 0 to |fences|
        invariant violations == ViolationsAfter(cur, fences[..i], old(violations))
        invariant out == StandingOrders(cur, fences[..i], old(violations))
      {
        var f := fences[i];
        assert fences[..i + 1][..i] == fences[..i];
        var acts := f.ActionsFor(OnViolation);
        var key := MarkKey(cur.id, f.id);
        if cur.fenceState != Outside || |acts| == 0 {
          violations := violations - {key};
        } else {
          violations := violations[key := Count(violations, key) + 1];
          var interval := if f.violationInterval < 1 then 1 else f.violationInterval;
          if violations[key] % interval == 0 {
            out := out + FenceOrders(cur.id, acts, f.id, "on_violation");
          }
        }
      }
      assert fences[..|fences|] == fences;
    }

    /** One device: evaluate, append to the trail and the event log, plan. */
    method ProcessDevice(prev: map<string, Device>, inp: Input, d: Device)
      returns (cur: Device, planned: seq<Order>)
      modifies `events, `trail, `dwelled, `dwellDirty, `violations
      ensures cur == EvaluatedDevice(Get(prev, d.id), d, inp)
      ensures events == old(events) + ToSeq(EventOf(Get(prev, d.id), d, inp.fences, inp.now))
      ensures trail == old(trail) + TrailOf(cur, inp.now)
      ensures dwelled == MarksAfter(cur, inp.fences, old(dwelled))
      ensures dwellDirty == DirtyAfter(cur, inp.fences, old(dwelled), old(dwellDirty))
      ensures violations == ViolationsAfter(cur, inp.fences, old(violations))
      ensures planned == OrdersOf(Get(prev, d.id), cur, EventOf(Get(prev, d.id), d, inp.fences, inp.now), inp,
                                  old(dwelled), old(violations))
    {
      var before := Get(prev, d.id);
      var tr;
      cur, tr := Evaluate(before, d, inp.fences, inp.now);
      cur := Routed(cur, inp.routes);
      if cur.point.Some? {
        trail := trail + [TrailEntry(cur.id, inp.now, cur.point.value)];
      }
      if tr.Some? {
        events := events + [tr.value];
      }
      planned := RouteOrders(before, cur, inp.routes);
      planned := planned + TransitionOrders(cur, tr, inp.fences);
      var dwell := PlanDwell(cur, inp.fences);
      planned := planned + dwell;
      var standing := PlanStanding(cur, inp.fences);
      planned := planned + standing;
    }

    method RunCycle(inp: Input) returns (orders: seq<Order>)
      modifies this
      ensures Contents() == Cycle(old(Contents()), inp)
      ensures orders == CycleWork(old(Contents()), inp).orders
    {
      hide OrdersOf, EvaluatedDevice, EventOf, TrailOf, ToSeq;
      ghost var s := Contents();
      var prevAll := devices;
      var prev := Index(prevAll);
      var fetched, down := FetchAll(inp.outcomes);
      var evaluated: seq<Device> := [];
      orders := [];
      ghost var w := Begin(s);
      for i := 0 to |fetched|
        invariant devices == prevAll && dwellFile == s.file
        invariant w == Sweep(prev, inp, fetched[..i], Begin(s))
        invariant w == Work(evaluated, events, trail, dwelled, dwellDirty, violations, orders, w.firings)
      {
        SweepStep(prev, inp, fetched, i, Begin(s));
        w := Visit(prev, inp, fetched[i], w);
        var cur, planned := ProcessDevice(prev, inp, fetched[i]);
        evaluated := evaluated + [cur];
        orders := orders + planned;
      }
      assert fetched[..|fetched|] == fetched;
      devices := evaluated + Stale(prevAll, down, IDs(evaluated));
      if dwellDirty {
        dwellFile := dwelled;
        dwellDirty := false;
      }
    }
  }
}
