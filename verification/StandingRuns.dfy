/** Standing violations and stay orders over whole runs (internal/engine/standing.go). */
module StandingRuns {
  import opened Base
  import opened Keys
  import opened Transition
  import opened Fleet
  import opened SweepFacts
  import opened Outages
  import opened DwellOnce
  import opened FleetPlans
  import opened OrderPlans

  // -------- Violations every n-th cycle --------

  /** How many evaluated cycles in a row, up to the last one, found the device outside every fence in this process. */
  function Streak(steps: seq<Step>, id: string): nat {
    if steps == [] then 0
    else
      var n := |steps| - 1;
      match steps[n]
      case Restart => 0
      case Run(inp) =>
        var sent := Lookup(AllFetched(inp.outcomes), id);
        if sent.None? then Streak(steps[..n], id)
        else if EvaluatedDevice(Lookup(After(steps[..n]).devices, id), sent.value, inp).fenceState == Outside
        then Streak(steps[..n], id) + 1
        else 0
  }

  /** The fence has an enabled on_violation action. */
  predicate Watches(fences: seq<Fence>, j: nat) {
    && ValidFences(fences) && UniqueFences(fences)
    && j < |fences|
    && exists i :: 0 <= i < |fences[j].actions| && fences[j].actions[i].enabled && fences[j].actions[i].when == OnViolation
  }

  lemma WatchedActions(f: Fence)
    requires exists i :: 0 <= i < |f.actions| && f.actions[i].enabled && f.actions[i].when == OnViolation
    ensures f.ActionsFor(OnViolation) != []
  {
    var i :| 0 <= i < |f.actions| && f.actions[i].enabled && f.actions[i].when == OnViolation;
    EnabledIs(f.actions, OnViolation, f.actions[i]);
  }

  lemma {:induction false} CountOfVisit(cur: Device, fences: seq<Fence>, v: map<string, int>, j: nat, n: nat)
    requires Watches(fences, j) && j < n <= |fences|
    ensures At(ViolationsAfter(cur, fences[..n], v), MarkKey(cur.id, fences[j].id))
         == if cur.fenceState == Outside then Some(Count(v, MarkKey(cur.id, fences[j].id)) + 1) else None
  {
    var key := MarkKey(cur.id, fences[j].id);
    WatchedActions(fences[j]);
    assert fences[..n][..n - 1] == fences[..n - 1];
    if n == j + 1 {
      KeysApart(cur.id, fences, j);
      hide MarkKey, Enabled, ValidFenceID;
      CountsElsewhere(cur, fences[..j], v, key);
    } else {
      CountOfVisit(cur, fences, v, j, n - 1);
      KeysApart(cur.id, fences, n - 1);
      hide MarkKey, Enabled, ValidFenceID;
    }
  }

  lemma CountOfCycle(s: State, inp: Input, j: nat, id: string)
    requires Unique(AllFetched(inp.outcomes)) && Watches(inp.fences, j)
    ensures var key := MarkKey(id, inp.fences[j].id);
            var sent := Lookup(AllFetched(inp.outcomes), id);
            Count(Cycle(s, inp).violations, key)
            == if sent.None? then Count(s.violations, key)
               else if EvaluatedDevice(Lookup(s.devices, id), sent.value, inp).fenceState == Outside
               then Count(s.violations, key) + 1 else 0
  {
    hide EvaluatedDevice, EventOf, OrdersOf, Sweep, Index, MarksAfter, ViolationsAfter, MarkKey, ValidFenceID;
    SweepPlans(Index(s.devices), inp, AllFetched(inp.outcomes), Begin(s), id);
    ValidFenceIDFree(inp.fences[j].id);
    var key, sent := MarkKey(id, inp.fences[j].id), Lookup(AllFetched(inp.outcomes), id);
    assert Cycle(s, inp).violations == CycleWork(s, inp).violations;
    if sent.Some? {
      LookupIs(AllFetched(inp.outcomes), id);
      var cur := EvaluatedDevice(Lookup(s.devices, id), sent.value, inp);
      EvaluatedID(Lookup(s.devices, id), sent.value, inp);
      CountOfVisit(cur, inp.fences, s.violations, j, |inp.fences|);
      assert inp.fences[..|inp.fences|] == inp.fences;
      assert At(ViolationsAfter(cur, inp.fences, s.violations), key) == At(Cycle(s, inp).violations, key);
    } else {
      assert At(s.violations, key) == At(Cycle(s, inp).violations, key);
    }
  }

  /** With fixed fences the stored count is the present streak, through cycles that did not see the device. */
  lemma {:induction false} CountIsStreak(steps: seq<Step>, fences: seq<Fence>, j: nat, id: string)
    requires WellFormed(steps) && FixedFences(steps, fences) && Watches(fences, j)
    ensures Count(After(steps).violations, id + "|" + fences[j].id) == Streak(steps, id)
  {
    assert MarkKey(id, fences[j].id) == id + "|" + fences[j].id;
    if steps != [] {
      hide Cycle, EvaluatedDevice, AllFetched, Lookup, MarkKey, Watches;
      var n := |steps| - 1;
      CountIsStreak(steps[..n], fences, j, id);
      if steps[n].Run? {
        CountOfCycle(After(steps[..n]), steps[n].inp, j, id);
      }
    }
  }

  lemma OrderedTo(steps: seq<Step>, inp: Input, o: Order)
    requires WellFormed(steps) && Unique(AllFetched(inp.outcomes)) && ValidFences(inp.fences) && UniqueFences(inp.fences)
    requires Lookup(AllFetched(inp.outcomes), o.deviceID).Some?
    ensures var s := After(steps);
            var was, sent := Lookup(s.devices, o.deviceID), Lookup(AllFetched(inp.outcomes), o.deviceID);
            o in CycleWork(s, inp).orders
            <==> OrderDue(was, EvaluatedDevice(was, sent.value, inp), inp, s.marks, s.violations, o)
  {
    hide EvaluatedDevice, EventOf, OrdersOf, Sweep, Index, AllFetched, OrderDue, Placed;
    var s := After(steps);
    StoredPlaced(steps);
    LookupIs(s.devices, o.deviceID);
    OrdersOfCycle(s, inp, o.deviceID);
    OrdersForIs(CycleWork(s, inp).orders, o.deviceID, o);
    PlanIff(Lookup(s.devices, o.deviceID), Lookup(AllFetched(inp.outcomes), o.deviceID).value, inp, s.marks, s.violations, o);
  }

  lemma StreakStep(steps: seq<Step>, inp: Input, id: string)
    requires Lookup(AllFetched(inp.outcomes), id).Some?
    ensures var cur := EvaluatedDevice(Lookup(After(steps).devices, id), Lookup(AllFetched(inp.outcomes), id).value, inp);
            Streak(steps + [Run(inp)], id) == if cur.fenceState == Outside then Streak(steps, id) + 1 else 0
  {
    hide EvaluatedDevice, AllFetched, After;
    var all := steps + [Run(inp)];
    assert all[..|steps|] == steps && all[|steps|] == Run(inp);
  }

  /** On_violation goes out exactly on the n-th, 2n-th, … evaluated cycle in a row outside, n being 1 at least. */
  lemma ViolationEveryNth(steps: seq<Step>, inp: Input, j: nat, id: string, action: string)
    requires WellFormed(steps + [Run(inp)]) && FixedFences(steps, inp.fences) && Watches(inp.fences, j)
    requires Wants(inp.fences[j].actions, OnViolation, action)
    requires Lookup(AllFetched(inp.outcomes), id).Some?
    ensures var f := inp.fences[j];
            var streak := Streak(steps + [Run(inp)], id);
            Order(id, action, f.id, "", "on_violation") in CycleWork(After(steps), inp).orders
            <==> streak > 0 && streak % (if f.violationInterval < 1 then 1 else f.violationInterval) == 0
  {
    hide EvaluatedDevice, AllFetched, CycleWork, Lookup, Wants, OrderDue, Streak, After;
    var all := steps + [Run(inp)];
    assert all[..|steps|] == steps && all[|steps|] == Run(inp);
    var s, f := After(steps), inp.fences[j];
    var o := Order(id, action, f.id, "", "on_violation");
    var was, sent := Lookup(s.devices, id), Lookup(AllFetched(inp.outcomes), id);
    LookupIs(AllFetched(inp.outcomes), id);
    EvaluatedID(was, sent.value, inp);
    CountIsStreak(steps, inp.fences, j, id);
    StreakStep(steps, inp, id);
    OrderedTo(steps, inp, o);
    OnlyViolation(was, EvaluatedDevice(was, sent.value, inp), inp, s.marks, s.violations, o, j);
  }

  /** An on_violation order of a fence has one reason only. */
  lemma OnlyViolation(was: Option<Device>, cur: Device, inp: Input, marks: map<string, Time>, v: map<string, int>,
                      o: Order, j: nat)
    requires UniqueFences(inp.fences) && j < |inp.fences| && o.trigger == "on_violation" && o.fenceID == inp.fences[j].id
    ensures OrderDue(was, cur, inp, marks, v, o) <==> ViolationDue(cur, inp.fences[j], v, o)
  {
    hide Wants, Assigned;
    assert |o.trigger| == 12 && |"on_exit"| == 7 && |"on_enter"| == 8 && |"on_unknown"| == 10;
    assert |"dwell"| == 5 && |"route_exit"| == 10;
  }

  // -------- Stays --------

  lemma {:induction false} FiringIs(cur: Device, fences: seq<Fence>, m: map<string, Time>, j: nat, n: nat)
    requires UniqueFences(fences) && ValidFences(fences) && j < |fences| && n <= |fences| && cur.since.Some?
    ensures Firing(cur.id, fences[j].id, cur.since.value) in FiringsOf(cur, fences[..n], m)
            <==> j < n && Fires(cur, fences[j], m)
  {
    if n > 0 {
      hide MarkKey, Fires, ValidFenceID, MarksAfter;
      FiringIs(cur, fences, m, j, n - 1);
      assert fences[..n][..n - 1] == fences[..n - 1];
      if j == n - 1 {
        KeysApart(cur.id, fences, j);
        MarksElsewhere(cur, fences[..j], m, MarkKey(cur.id, fences[j].id));
        FiresByMark(cur, fences[j], MarksAfter(cur, fences[..j], m), m);
      }
    }
  }

  lemma {:induction false} TimesPresent(xs: seq<Firing>, x: Firing)
    ensures Times(xs, x) > 0 <==> x in xs
  {
    if xs != [] {
      TimesPresent(xs[..|xs| - 1], x);
      assert xs == xs[..|xs| - 1] + [xs[|xs| - 1]];
    }
  }

  lemma OnlyDwell(was: Option<Device>, cur: Device, inp: Input, marks: map<string, Time>, v: map<string, int>,
                  o: Order, j: nat)
    requires UniqueFences(inp.fences) && j < |inp.fences| && o.trigger == "dwell" && o.fenceID == inp.fences[j].id
    ensures OrderDue(was, cur, inp, marks, v, o) <==> DwellDue(cur, inp.fences[j], marks, o)
  {
    hide Wants, Assigned;
    assert |o.trigger| == 5 && |"on_exit"| == 7 && |"on_enter"| == 8 && |"on_unknown"| == 10;
    assert |"on_violation"| == 12 && |"route_exit"| == 10;
  }

  lemma FiresDwell(cur: Device, f: Fence, m: map<string, Time>, o: Order)
    requires Wants(f.actions, OnEnter, o.action) && o == Order(cur.id, o.action, f.id, "", "dwell")
    ensures Fires(cur, f, m) <==> DwellDue(cur, f, m, o)
  {
    hide Wants, Enabled, FenceOrders;
    OrdersForEvent(cur.id, f, OnEnter, "dwell", o);
    FiresIs(cur, f, m, o);
  }

  lemma FiringOfCycle(s: State, inp: Input, j: nat, id: string)
    requires Unique(AllFetched(inp.outcomes)) && Timed(inp.fences, j) && Lookup(AllFetched(inp.outcomes), id).Some?
    requires EvaluatedDevice(Lookup(s.devices, id), Lookup(AllFetched(inp.outcomes), id).value, inp).since.Some?
    ensures var cur := EvaluatedDevice(Lookup(s.devices, id), Lookup(AllFetched(inp.outcomes), id).value, inp);
            Times(CycleFirings(s, inp), Firing(id, inp.fences[j].id, cur.since.value)) > 0
            <==> Fires(cur, inp.fences[j], s.marks)
  {
    hide EvaluatedDevice, Sweep, Index, MarksAfter, FiringsOf, Fires, AllFetched;
    var was, sent := Lookup(s.devices, id), Lookup(AllFetched(inp.outcomes), id);
    LookupIs(AllFetched(inp.outcomes), id);
    EvaluatedID(was, sent.value, inp);
    var cur := EvaluatedDevice(was, sent.value, inp);
    var x := Firing(id, inp.fences[j].id, cur.since.value);
    SweepOfDevice(Index(s.devices), inp, AllFetched(inp.outcomes), Begin(s), x);
    FiringIs(cur, inp.fences, s.marks, j, |inp.fences|);
    assert inp.fences[..|inp.fences|] == inp.fences;
    TimesPresent(FiringsOf(cur, inp.fences, s.marks), x);
    assert Times([], x) == 0;
  }

  /**
    With fixed fences the on_enter orders of a fence with a stay threshold go out exactly in the first evaluated cycle
    in which the device has been inside long enough.
  */
  lemma DwellAtThreshold(steps: seq<Step>, inp: Input, j: nat, id: string, action: string)
    requires WellFormed(steps + [Run(inp)]) && FixedFences(steps, inp.fences) && Timed(inp.fences, j)
    requires Wants(inp.fences[j].actions, OnEnter, action)
    requires Lookup(AllFetched(inp.outcomes), id).Some?
    ensures var f := inp.fences[j];
            var was := Lookup(After(steps).devices, id);
            var cur := EvaluatedDevice(was, Lookup(AllFetched(inp.outcomes), id).value, inp);
            Order(id, action, f.id, "", "dwell") in CycleWork(After(steps), inp).orders
            <==> cur.fenceState == Inside && cur.insideFence == f.id && cur.dwell >= f.dwellSeconds
                 && !AlreadyReached(was, cur, f.dwellSeconds)
  {
    hide EvaluatedDevice, AllFetched, CycleWork, Lookup, Wants, OrderDue, After, Fires, DwellDue, AlreadyReached, CycleFirings;
    var all := steps + [Run(inp)];
    assert all[..|steps|] == steps && all[|steps|] == Run(inp);
    var s, f := After(steps), inp.fences[j];
    var o := Order(id, action, f.id, "", "dwell");
    var was, sent := Lookup(s.devices, id), Lookup(AllFetched(inp.outcomes), id);
    var cur := EvaluatedDevice(was, sent.value, inp);
    LookupIs(AllFetched(inp.outcomes), id);
    EvaluatedID(was, sent.value, inp);
    EvaluatedShape(was, sent.value, inp);
    OrderedTo(steps, inp, o);
    OnlyDwell(was, cur, inp, s.marks, s.violations, o, j);
    FiresDwell(cur, f, s.marks, o);
    TriggerAtThreshold(steps, inp, j, id);
    FiringOfCycle(s, inp, j, id);
    RunFirings(steps, inp, Firing(id, f.id, cur.since.value));
    assert Fires(cur, f, s.marks) ==> IsInside(cur, f) by {
      FiresInside(cur, f, s.marks);
    }
  }

  lemma FiresInside(cur: Device, f: Fence, m: map<string, Time>)
    ensures Fires(cur, f, m) ==> cur.fenceState == Inside && cur.insideFence == f.id
  {
  }

  lemma RunFirings(steps: seq<Step>, inp: Input, x: Firing)
    requires WellFormed(steps + [Run(inp)])
    ensures Times(CycleFirings(After(steps), inp), x) <= 1
  {
    hide CycleFirings, WellFormed;
    var all := steps + [Run(inp)];
    assert all[..|steps|] == steps && all[|steps|] == Run(inp);
    OneTriggerPerStay(all);
    assert Firings(all) == Firings(steps) + CycleFirings(After(steps), inp);
    assert Times(Firings(all), x) <= 1;
    TimesConcat(Firings(steps), CycleFirings(After(steps), inp), x);
  }

  /** The marks are written to the file exactly when a visit changes them, or a write was already owed. */
  lemma {:induction false} DirtyIffChanged(cur: Device, fences: seq<Fence>, m: map<string, Time>, dirty: bool)
    requires ValidFences(fences) && UniqueFences(fences)
    ensures DirtyAfter(cur, fences, m, dirty) <==> dirty || MarksAfter(cur, fences, m) != m
  {
    if fences != [] {
      hide MarkKey, ValidFenceID;
      var n := |fences| - 1;
      DirtyIffChanged(cur, fences[..n], m, dirty);
      KeysApart(cur.id, fences, n);
      var key := MarkKey(cur.id, fences[n].id);
      MarksElsewhere(cur, fences[..n], m, key);
      var a, b := MarksAfter(cur, fences[..n], m), MarksAfter(cur, fences, m);
      if Fires(cur, fences[n], a) || Forgets(cur, fences[n], a) {
        assert At(b, key) != At(m, key);
      }
    }
  }
}
