/**
  Provider outages are stuttering steps: deleting from a run the cycles in which a device's connector failed
  leaves everything the engine keeps about that device, and every geofence and route order it gets, as it was.
*/
module Outages {
  import opened Base
  import opened Keys
  import opened Transition
  import opened Fleet
  import opened ReplayHistory
  import opened SweepFacts

  function At<T>(m: map<string, T>, key: string): Option<T> {
    if key in m then Some(m[key]) else None
  }

  /** Two maps hold the same under every key of the device. */
  ghost predicate Agree<T(!new)>(m: map<string, T>, m': map<string, T>, id: string) {
    forall f :: Free(f, '|') ==> At(m, MarkKey(id, f)) == At(m', MarkKey(id, f))
  }

  function OrdersFor(orders: seq<Order>, id: string): seq<Order> {
    if orders == [] then []
    else
      var o := orders[|orders| - 1];
      OrdersFor(orders[..|orders| - 1], id) + (if o.deviceID == id then [o] else [])
  }

  /** All the engine keeps about one device. */
  ghost predicate SameView(s: State, t: State, id: string) {
    && Lookup(s.devices, id) == Lookup(t.devices, id)
    && EventsFor(s.events, id) == EventsFor(t.events, id)
    && Agree(s.marks, t.marks, id)
    && Agree(s.violations, t.violations, id)
  }

  ghost predicate SameWork(v: Work, w: Work, id: string) {
    && EventsFor(v.events, id) == EventsFor(w.events, id)
    && OrdersFor(v.orders, id) == OrdersFor(w.orders, id)
    && Agree(v.marks, w.marks, id)
    && Agree(v.violations, w.violations, id)
  }

  // -------- Filters over concatenation --------

  lemma {:induction false} OrdersForConcat(a: seq<Order>, b: seq<Order>, id: string)
    ensures OrdersFor(a + b, id) == OrdersFor(a, id) + OrdersFor(b, id)
  {
    if b == [] {
      assert a + b == a;
    } else {
      assert (a + b)[..|a + b| - 1] == a + b[..|b| - 1];
      OrdersForConcat(a, b[..|b| - 1], id);
    }
  }

  lemma {:induction false} EventsForConcat(a: seq<Event>, b: seq<Event>, id: string)
    ensures EventsFor(a + b, id) == EventsFor(a, id) + EventsFor(b, id)
  {
    if b == [] {
      assert a + b == a;
    } else {
      assert (a + b)[..|a + b| - 1] == a + b[..|b| - 1];
      EventsForConcat(a, b[..|b| - 1], id);
    }
  }

  lemma OthersOrders(orders: seq<Order>, id: string)
    requires forall o :: o in orders ==> o.deviceID != id
    ensures OrdersFor(orders, id) == []
  {
  }

  // -------- The two mark maps --------

  lemma {:induction false} MarksFrame(cur: Device, fences: seq<Fence>, m: map<string, Time>, id: string)
    requires cur.id != id && ValidFences(fences)
    ensures Agree(m, MarksAfter(cur, fences, m), id)
  {
    if fences != [] {
      var n := |fences| - 1;
      MarksFrame(cur, fences[..n], m, id);
      ForeignKey(cur.id, fences[n].id, id);
    }
  }

  lemma {:induction false} ViolationsFrame(cur: Device, fences: seq<Fence>, v: map<string, int>, id: string)
    requires cur.id != id && ValidFences(fences)
    ensures Agree(v, ViolationsAfter(cur, fences, v), id)
  {
    if fences != [] {
      var n := |fences| - 1;
      ViolationsFrame(cur, fences[..n], v, id);
      ForeignKey(cur.id, fences[n].id, id);
    }
  }

  lemma ForeignKey(d: string, f: string, id: string)
    requires d != id && ValidFenceID(f)
    ensures forall g :: Free(g, '|') ==> MarkKey(id, g) != MarkKey(d, f)
  {
    ValidFenceIDFree(f);
    forall g | Free(g, '|') ensures MarkKey(id, g) != MarkKey(d, f) {
      if MarkKey(id, g) == MarkKey(d, f) {
        MarkKeyInjective(id, g, d, f);
      }
    }
  }

  lemma {:induction false} MarksCongruent(cur: Device, fences: seq<Fence>, m: map<string, Time>, m': map<string, Time>)
    requires Agree(m, m', cur.id) && ValidFences(fences)
    ensures Agree(MarksAfter(cur, fences, m), MarksAfter(cur, fences, m'), cur.id)
    ensures DwellOrders(cur, fences, m) == DwellOrders(cur, fences, m')
  {
    if fences != [] {
      var n := |fences| - 1;
      MarksCongruent(cur, fences[..n], m, m');
      ValidFenceIDFree(fences[n].id);
      var a, b := MarksAfter(cur, fences[..n], m), MarksAfter(cur, fences[..n], m');
      assert At(a, MarkKey(cur.id, fences[n].id)) == At(b, MarkKey(cur.id, fences[n].id));
      assert Fires(cur, fences[n], a) == Fires(cur, fences[n], b);
    }
  }

  lemma CountedCongruent(cur: Device, f: Fence, a: map<string, int>, b: map<string, int>)
    requires Agree(a, b, cur.id) && ValidFenceID(f.id)
    ensures Agree(Counted(cur, f, a), Counted(cur, f, b), cur.id)
    ensures Due(cur, f, a) == Due(cur, f, b)
  {
    ValidFenceIDFree(f.id);
    hide MarkKey, ValidFenceID, Violates;
    assert At(a, MarkKey(cur.id, f.id)) == At(b, MarkKey(cur.id, f.id));
  }

  lemma {:induction false} ViolationsCongruent(cur: Device, fences: seq<Fence>, v: map<string, int>, v': map<string, int>)
    requires Agree(v, v', cur.id) && ValidFences(fences)
    ensures Agree(ViolationsAfter(cur, fences, v), ViolationsAfter(cur, fences, v'), cur.id)
    ensures StandingOrders(cur, fences, v) == StandingOrders(cur, fences, v')
  {
    if fences != [] {
      hide Agree, Counted, Due, ValidFenceID, FenceOrders;
      var n := |fences| - 1;
      ViolationsCongruent(cur, fences[..n], v, v');
      CountedCongruent(cur, fences[n], ViolationsAfter(cur, fences[..n], v), ViolationsAfter(cur, fences[..n], v'));
    }
  }

  // -------- One visit --------

  lemma OwnedDwell(cur: Device, fences: seq<Fence>, m: map<string, Time>)
    ensures forall o :: o in DwellOrders(cur, fences, m) ==> o.deviceID == cur.id
  {
  }

  lemma OwnedStanding(cur: Device, fences: seq<Fence>, v: map<string, int>)
    ensures forall o :: o in StandingOrders(cur, fences, v) ==> o.deviceID == cur.id
  {
  }

  lemma OwnedUnknown(id: string, fences: seq<Fence>)
    ensures forall o :: o in UnknownOrders(id, fences) ==> o.deviceID == id
  {
  }

  lemma OwnedOrders(before: Option<Device>, cur: Device, tr: Option<Event>, inp: Input,
                    m: map<string, Time>, v: map<string, int>)
    ensures forall o :: o in OrdersOf(before, cur, tr, inp, m, v) ==> o.deviceID == cur.id
  {
    hide DwellOrders, StandingOrders, UnknownOrders, FindFence, Enabled, RouteActions, FenceOfKey, ForDevice;
    OwnedDwell(cur, inp.fences, m);
    OwnedStanding(cur, inp.fences, v);
    OwnedUnknown(cur.id, inp.fences);
  }

  lemma VisitFrame(prev: map<string, Device>, inp: Input, d: Device, w: Work, id: string)
    requires d.id != id && ValidFences(inp.fences)
    ensures SameWork(w, Visit(prev, inp, d, w), id)
  {
    hide EvaluatedDevice, EventOf, OrdersOf, MarksAfter, ViolationsAfter;
    var before := Get(prev, d.id);
    var cur := EvaluatedDevice(before, d, inp);
    EvaluatedID(before, d, inp);
    var tr := EventOf(before, d, inp.fences, inp.now);
    EventOfStamp(before, d, inp.fences, inp.now);
    var orders := OrdersOf(before, cur, tr, inp, w.marks, w.violations);
    OwnedOrders(before, cur, tr, inp, w.marks, w.violations);
    OthersOrders(orders, id);
    OrdersForConcat(w.orders, orders, id);
    EventsForConcat(w.events, ToSeq(tr), id);
    MarksFrame(cur, inp.fences, w.marks, id);
    ViolationsFrame(cur, inp.fences, w.violations, id);
  }

  lemma VisitCongruent(prev: map<string, Device>, prev': map<string, Device>, inp: Input, d: Device, v: Work, w: Work)
    requires Get(prev, d.id) == Get(prev', d.id) && SameWork(v, w, d.id) && ValidFences(inp.fences)
    ensures var v', w' := Visit(prev, inp, d, v), Visit(prev', inp, d, w); SameWork(v', w', d.id)
  {
    hide EvaluatedDevice, EventOf, MarksAfter, ViolationsAfter, DwellOrders, StandingOrders, TransitionOrders, RouteOrders;
    var before := Get(prev, d.id);
    var cur := EvaluatedDevice(before, d, inp);
    EvaluatedID(before, d, inp);
    var tr := EventOf(before, d, inp.fences, inp.now);
    MarksCongruent(cur, inp.fences, v.marks, w.marks);
    ViolationsCongruent(cur, inp.fences, v.violations, w.violations);
    var orders := OrdersOf(before, cur, tr, inp, v.marks, v.violations);
    OrdersForConcat(v.orders, orders, d.id);
    OrdersForConcat(w.orders, orders, d.id);
    EventsForConcat(v.events, ToSeq(tr), d.id);
    EventsForConcat(w.events, ToSeq(tr), d.id);
  }

  // -------- One cycle --------

  lemma {:induction false} SweepCongruent(prev: map<string, Device>, prev': map<string, Device>, inp: Input,
                                          ds: seq<Device>, v: Work, w: Work, id: string)
    requires Get(prev, id) == Get(prev', id) && SameWork(v, w, id) && ValidFences(inp.fences)
    ensures var v', w' := Sweep(prev, inp, ds, v), Sweep(prev', inp, ds, w); SameWork(v', w', id)
  {
    hide Visit;
    if ds != [] {
      var n := |ds| - 1;
      SweepCongruent(prev, prev', inp, ds[..n], v, w, id);
      var v', w' := Sweep(prev, inp, ds[..n], v), Sweep(prev', inp, ds[..n], w);
      if ds[n].id == id {
        VisitCongruent(prev, prev', inp, ds[n], v', w');
      } else {
        VisitFrame(prev, inp, ds[n], v', id);
        VisitFrame(prev', inp, ds[n], w', id);
      }
    }
  }

  lemma {:induction false} SweepFrame(prev: map<string, Device>, inp: Input, ds: seq<Device>, w: Work, id: string)
    requires ValidFences(inp.fences)
    requires forall i :: 0 <= i < |ds| ==> ds[i].id != id
    ensures SameWork(w, Sweep(prev, inp, ds, w), id)
  {
    hide Visit;
    if ds != [] {
      var n := |ds| - 1;
      SweepFrame(prev, inp, ds[..n], w, id);
      VisitFrame(prev, inp, ds[n], Sweep(prev, inp, ds[..n], w), id);
    }
  }

  function CycleOrders(s: State, inp: Input, id: string): seq<Order> {
    OrdersFor(CycleWork(s, inp).orders, id)
  }

  lemma CycleCongruent(s: State, t: State, inp: Input, id: string)
    requires Unique(s.devices) && Unique(t.devices) && SameView(s, t, id) && ValidFences(inp.fences)
    ensures SameView(Cycle(s, inp), Cycle(t, inp), id)
    ensures CycleOrders(s, inp, id) == CycleOrders(t, inp, id)
  {
    hide EvaluatedDevice, Sweep, Index;
    SweepCongruent(Index(s.devices), Index(t.devices), inp, AllFetched(inp.outcomes), Begin(s), Begin(t), id);
    LookupAfterCycle(s, inp, id);
    LookupAfterCycle(t, inp, id);
  }

  /** The device is known, its connector failed in this cycle and no other connector sent it. */
  predicate Outage(s: State, inp: Input, id: string) {
    && Lookup(s.devices, id).Some?
    && Lookup(s.devices, id).value.provider in Down(inp.outcomes)
    && Lookup(AllFetched(inp.outcomes), id).None?
  }

  lemma OutageStutters(s: State, inp: Input, id: string)
    requires Unique(s.devices) && ValidFences(inp.fences) && Outage(s, inp, id)
    ensures SameView(s, Cycle(s, inp), id)
    ensures CycleOrders(s, inp, id) == []
  {
    hide EvaluatedDevice, Sweep, Index;
    LookupIs(AllFetched(inp.outcomes), id);
    SweepFrame(Index(s.devices), inp, AllFetched(inp.outcomes), Begin(s), id);
    LookupAfterCycle(s, inp, id);
  }

  // -------- Memory and file of the stay marks --------

  lemma {:induction false} CleanMarksUnchanged(cur: Device, fences: seq<Fence>, m: map<string, Time>, dirty: bool)
    ensures !DirtyAfter(cur, fences, m, dirty) ==> !dirty && MarksAfter(cur, fences, m) == m
  {
    if fences != [] {
      CleanMarksUnchanged(cur, fences[..|fences| - 1], m, dirty);
    }
  }

  lemma {:induction false} CleanSweepUnchanged(prev: map<string, Device>, inp: Input, ds: seq<Device>, w: Work)
    ensures !Sweep(prev, inp, ds, w).dirty ==> !w.dirty && Sweep(prev, inp, ds, w).marks == w.marks
  {
    hide EvaluatedDevice, EventOf, OrdersOf, MarksAfter, DirtyAfter;
    if ds != [] {
      var n := |ds| - 1;
      CleanSweepUnchanged(prev, inp, ds[..n], w);
      var v := Sweep(prev, inp, ds[..n], w);
      CleanMarksUnchanged(EvaluatedDevice(Get(prev, ds[n].id), ds[n], inp), inp.fences, v.marks, v.dirty);
    }
  }

  /** Between cycles dwell.json holds the engine's marks, so a restart forgets none. */
  lemma {:induction false} MarksSynced(steps: seq<Step>)
    ensures var s := After(steps); s.file == s.marks && !s.dirty
  {
    hide Sweep;
    if steps != [] {
      var n := |steps| - 1;
      MarksSynced(steps[..n]);
      if steps[n].Run? {
        var s, inp := After(steps[..n]), steps[n].inp;
        CleanSweepUnchanged(Index(s.devices), inp, AllFetched(inp.outcomes), Begin(s));
      }
    }
  }

  // -------- Whole runs --------

  /** Each cycle sends a device once and uses valid fence ids; nothing is asked of the clock. */
  predicate Clean(steps: seq<Step>) {
    forall i :: 0 <= i < |steps| && steps[i].Run? ==>
      Unique(AllFetched(steps[i].inp.outcomes)) && ValidFences(steps[i].inp.fences)
  }

  /** The run with the outage cycles of the device deleted. */
  function WithoutOutages(steps: seq<Step>, id: string): (r: seq<Step>)
    ensures Clean(steps) ==> Clean(r)
  {
    if steps == [] then []
    else
      var n := |steps| - 1;
      var rest := WithoutOutages(steps[..n], id);
      if steps[n].Run? && Outage(After(steps[..n]), steps[n].inp, id) then rest else rest + [steps[n]]
  }

  datatype Issued = Issued(at: Time, order: Order)

  function Stamped(at: Time, orders: seq<Order>): seq<Issued> {
    seq(|orders|, i requires 0 <= i < |orders| => Issued(at, orders[i]))
  }

  /** The orders of the device in one step, with the clock of its cycle. */
  function StepOrders(s: State, step: Step, id: string): seq<Issued> {
    if step.Run? then Stamped(step.inp.now, CycleOrders(s, step.inp, id)) else []
  }

  /** Every geofence and route order of the device over a run, with the clock of its cycle. */
  function RunOrders(steps: seq<Step>, id: string): seq<Issued> {
    if steps == [] then []
    else
      var n := |steps| - 1;
      RunOrders(steps[..n], id) + StepOrders(After(steps[..n]), steps[n], id)
  }

  lemma {:induction false} StoredUnique(steps: seq<Step>)
    requires Clean(steps)
    ensures Unique(After(steps).devices)
  {
    hide Cycle;
    if steps != [] {
      var n := |steps| - 1;
      StoredUnique(steps[..n]);
      if steps[n].Run? {
        AfterCycleUnique(After(steps[..n]), steps[n].inp);
      }
    }
  }

  lemma RestartCongruent(steps: seq<Step>, steps': seq<Step>, id: string)
    requires SameView(After(steps), After(steps'), id)
    ensures SameView(Restarted(After(steps)), Restarted(After(steps')), id)
  {
    MarksSynced(steps);
    MarksSynced(steps');
  }

  lemma SameViewTrans(a: State, b: State, c: State, id: string)
    requires SameView(a, b, id) && SameView(a, c, id)
    ensures SameView(b, c, id)
  {
  }

  predicate OutageStep(s: State, step: Step, id: string) {
    step.Run? && Outage(s, step.inp, id)
  }

  /** One step from two states that look alike: an outage stutters, anything else keeps them alike. */
  lemma StepCongruent(steps: seq<Step>, rest: seq<Step>, step: Step, id: string)
    requires Clean(steps) && Clean(rest) && SameView(After(steps), After(rest), id)
    requires step.Run? ==> ValidFences(step.inp.fences)
    ensures OutageStep(After(steps), step, id) ==>
              SameView(Next(After(steps), step), After(rest), id) && StepOrders(After(steps), step, id) == []
    ensures !OutageStep(After(steps), step, id) ==>
              && SameView(Next(After(steps), step), Next(After(rest), step), id)
              && StepOrders(After(steps), step, id) == StepOrders(After(rest), step, id)
  {
    hide Cycle, CycleOrders, Agree;
    StoredUnique(steps);
    StoredUnique(rest);
    var s, t := After(steps), After(rest);
    if step.Restart? {
      RestartCongruent(steps, rest, id);
    } else if Outage(s, step.inp, id) {
      OutageStutters(s, step.inp, id);
      SameViewTrans(s, Cycle(s, step.inp), t, id);
    } else {
      CycleCongruent(s, t, step.inp, id);
    }
  }

  lemma Deleting(steps: seq<Step>, id: string)
    requires steps != []
    ensures var front, step := steps[..|steps| - 1], steps[|steps| - 1];
            && After(steps) == Next(After(front), step)
            && RunOrders(steps, id) == RunOrders(front, id) + StepOrders(After(front), step, id)
            && WithoutOutages(steps, id) == if OutageStep(After(front), step, id) then WithoutOutages(front, id)
                                            else WithoutOutages(front, id) + [step]
  {
    hide Next, Outage, CycleOrders;
  }

  lemma Keeping(steps: seq<Step>, step: Step, id: string)
    ensures After(steps + [step]) == Next(After(steps), step)
    ensures RunOrders(steps + [step], id) == RunOrders(steps, id) + StepOrders(After(steps), step, id)
  {
    hide Next, CycleOrders;
    assert (steps + [step])[..|steps|] == steps;
  }

  lemma CleanFront(steps: seq<Step>, id: string)
    requires Clean(steps) && steps != []
    ensures Clean(steps[..|steps| - 1]) && Clean(WithoutOutages(steps[..|steps| - 1], id))
    ensures steps[|steps| - 1].Run? ==> ValidFences(steps[|steps| - 1].inp.fences)
  {
    hide Unique, ValidFences, WithoutOutages;
  }

  lemma {:induction false} OutagesAreStutters(steps: seq<Step>, id: string)
    requires Clean(steps)
    ensures SameView(After(steps), After(WithoutOutages(steps, id)), id)
    ensures RunOrders(steps, id) == RunOrders(WithoutOutages(steps, id), id)
  {
    if steps != [] {
      hide SameView, Next, After, RunOrders, StepOrders, OutageStep, Clean, WithoutOutages;
      var front, step := steps[..|steps| - 1], steps[|steps| - 1];
      var rest := WithoutOutages(front, id);
      CleanFront(steps, id);
      OutagesAreStutters(front, id);
      Deleting(steps, id);
      Keeping(rest, step, id);
      StepCongruent(front, rest, step, id);
    }
  }
}
