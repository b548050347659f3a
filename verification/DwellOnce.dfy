/**
  rules.dwell_seconds over whole runs, with restarts: the on_enter batch of a stay is planned at most once and,
  under fixed rules, exactly in the first evaluated cycle whose dwell reaches the threshold.
*/
module DwellOnce {
  import opened Base
  import opened Keys
  import opened Transition
  import opened Fleet
  import opened SweepFacts
  import opened HistoricalReplay
  import opened Outages

  function CycleFirings(s: State, inp: Input): seq<Firing> {
    CycleWork(s, inp).firings
  }

  /** Every stay batch planned over a run, in order. */
  function Firings(steps: seq<Step>): seq<Firing> {
    if steps == [] then []
    else
      var n := |steps| - 1;
      Firings(steps[..n]) + (if steps[n].Run? then CycleFirings(After(steps[..n]), steps[n].inp) else [])
  }

  /** How often a batch occurs in a list. */
  function Times(xs: seq<Firing>, x: Firing): nat {
    if xs == [] then 0 else Times(xs[..|xs| - 1], x) + (if xs[|xs| - 1] == x then 1 else 0)
  }

  lemma {:induction false} TimesConcat(a: seq<Firing>, b: seq<Firing>, x: Firing)
    ensures Times(a + b, x) == Times(a, x) + Times(b, x)
  {
    if b == [] {
      assert a + b == a;
    } else {
      assert (a + b)[..|a + b| - 1] == a + b[..|b| - 1];
      TimesConcat(a, b[..|b| - 1], x);
    }
  }

  lemma TimesAbsent(xs: seq<Firing>, x: Firing)
    ensures Times(xs, x) > 0 ==> x in xs
  {
    if xs != [] {
      TimesAbsent(xs[..|xs| - 1], x);
    }
  }

  function StayKey(d: Device): string {
    MarkKey(d.id, d.insideFence)
  }

  /** The device is in this stay. */
  predicate Staying(d: Device, x: Firing) {
    d.id == x.deviceID && d.fenceState == Inside && d.insideFence == x.fenceID && d.since == Some(x.stay)
  }

  // -------- One device --------

  /** A visit fires at most the stay it is in, not if the mark is already there, and leaves the mark. */
  lemma {:induction false} VisitFires(cur: Device, fences: seq<Fence>, m: map<string, Time>)
    requires ValidFences(fences) && cur.since.Some?
    requires cur.fenceState == Inside ==> Free(cur.insideFence, '|')
    ensures forall x :: x in FiringsOf(cur, fences, m) ==> Staying(cur, x)
    ensures |FiringsOf(cur, fences, m)| <= 1
    ensures cur.fenceState == Inside ==>
              At(MarksAfter(cur, fences, m), StayKey(cur))
              == if FiringsOf(cur, fences, m) != [] then cur.since else At(m, StayKey(cur))
    ensures FiringsOf(cur, fences, m) != [] ==> At(m, StayKey(cur)) != cur.since
  {
    if fences != [] {
      var n := |fences| - 1;
      VisitFires(cur, fences[..n], m);
      ValidFenceIDFree(fences[n].id);
      if MarkKey(cur.id, fences[n].id) == StayKey(cur) && cur.fenceState == Inside {
        MarkKeyInjective(cur.id, fences[n].id, cur.id, cur.insideFence);
      }
    }
  }

  lemma {:induction false} FiringsCongruent(cur: Device, fences: seq<Fence>, m: map<string, Time>, m': map<string, Time>)
    requires Agree(m, m', cur.id) && ValidFences(fences)
    ensures FiringsOf(cur, fences, m) == FiringsOf(cur, fences, m')
  {
    if fences != [] {
      var n := |fences| - 1;
      FiringsCongruent(cur, fences[..n], m, m');
      MarksCongruent(cur, fences[..n], m, m');
      ValidFenceIDFree(fences[n].id);
      assert At(MarksAfter(cur, fences[..n], m), MarkKey(cur.id, fences[n].id))
          == At(MarksAfter(cur, fences[..n], m'), MarkKey(cur.id, fences[n].id));
    }
  }

  lemma OwnedFirings(cur: Device, fences: seq<Fence>, m: map<string, Time>)
    ensures forall x :: x in FiringsOf(cur, fences, m) ==> x.deviceID == cur.id
  {
  }

  lemma EvaluatedShape(before: Option<Device>, d: Device, inp: Input)
    requires ValidFences(inp.fences)
    ensures var cur := EvaluatedDevice(before, d, inp);
            && cur.id == d.id && cur.since.Some?
            && (cur.fenceState == Inside ==> ValidFenceID(cur.insideFence) && Free(cur.insideFence, '|'))
  {
    InsideFenceValid(d.point, inp.fences);
  }

  // -------- One cycle --------

  lemma VisitOther(prev: map<string, Device>, inp: Input, d: Device, w: Work, x: Firing)
    requires d.id != x.deviceID && ValidFences(inp.fences)
    ensures Agree(w.marks, Visit(prev, inp, d, w).marks, x.deviceID)
    ensures Times(Visit(prev, inp, d, w).firings, x) == Times(w.firings, x)
  {
    hide EvaluatedDevice, EventOf, OrdersOf, MarksAfter, FiringsOf, DirtyAfter, ViolationsAfter;
    var cur := EvaluatedDevice(Get(prev, d.id), d, inp);
    EvaluatedID(Get(prev, d.id), d, inp);
    MarksFrame(cur, inp.fences, w.marks, x.deviceID);
    OwnedFirings(cur, inp.fences, w.marks);
    TimesAbsent(FiringsOf(cur, inp.fences, w.marks), x);
    TimesConcat(w.firings, FiringsOf(cur, inp.fences, w.marks), x);
  }

  lemma VisitOwn(prev: map<string, Device>, inp: Input, d: Device, w: Work, marks: map<string, Time>, x: Firing)
    requires d.id == x.deviceID && ValidFences(inp.fences) && Agree(marks, w.marks, d.id)
    ensures var v := Visit(prev, inp, d, w);
            var cur := EvaluatedDevice(Get(prev, d.id), d, inp);
            && Agree(MarksAfter(cur, inp.fences, marks), v.marks, x.deviceID)
            && Times(v.firings, x) == Times(w.firings, x) + Times(FiringsOf(cur, inp.fences, marks), x)
  {
    hide EvaluatedDevice, EventOf, OrdersOf, MarksAfter, FiringsOf, DirtyAfter, ViolationsAfter;
    var cur := EvaluatedDevice(Get(prev, d.id), d, inp);
    EvaluatedID(Get(prev, d.id), d, inp);
    MarksCongruent(cur, inp.fences, marks, w.marks);
    FiringsCongruent(cur, inp.fences, marks, w.marks);
    TimesConcat(w.firings, FiringsOf(cur, inp.fences, w.marks), x);
  }

  /** The effect of a whole sweep on one device's marks and batches is that of its own visit. */
  lemma {:induction false} SweepOfDevice(prev: map<string, Device>, inp: Input, ds: seq<Device>, w: Work, x: Firing)
    requires Unique(ds) && ValidFences(inp.fences)
    ensures var v := Sweep(prev, inp, ds, w);
            var sent := Lookup(ds, x.deviceID);
            if sent.None? then
              Agree(w.marks, v.marks, x.deviceID) && Times(v.firings, x) == Times(w.firings, x)
            else
              var cur := EvaluatedDevice(Get(prev, x.deviceID), sent.value, inp);
              && Agree(MarksAfter(cur, inp.fences, w.marks), v.marks, x.deviceID)
              && Times(v.firings, x) == Times(w.firings, x) + Times(FiringsOf(cur, inp.fences, w.marks), x)
  {
    hide EvaluatedDevice, Visit, MarksAfter, FiringsOf, Agree, Times;
    if ds == [] {
      AgreeRefl(w.marks, x.deviceID);
    } else {
      var n := |ds| - 1;
      SweepOfDevice(prev, inp, ds[..n], w, x);
      LookupIs(ds[..n], x.deviceID);
      var b := Sweep(prev, inp, ds[..n], w);
      if ds[n].id == x.deviceID {
        VisitOwn(prev, inp, ds[n], b, w.marks, x);
      } else {
        VisitOther(prev, inp, ds[n], b, x);
        var from := if Lookup(ds, x.deviceID).None? then w.marks
                    else MarksAfter(EvaluatedDevice(Get(prev, x.deviceID), Lookup(ds, x.deviceID).value, inp),
                                    inp.fences, w.marks);
        AgreeTrans(from, b.marks, Visit(prev, inp, ds[n], b).marks, x.deviceID);
      }
    }
  }

  lemma AgreeRefl(a: map<string, Time>, id: string)
    ensures Agree(a, a, id)
  {
  }

  lemma AgreeTrans(a: map<string, Time>, b: map<string, Time>, c: map<string, Time>, id: string)
    requires Agree(a, b, id) && Agree(b, c, id)
    ensures Agree(a, c, id)
  {
  }

  // -------- At most once --------

  /** The stay of a planned batch is either marked, or over for good. */
  predicate Spent(s: State, clock: Time, x: Firing) {
    && ValidFenceID(x.fenceID) && x.stay <= clock
    && (At(s.marks, MarkKey(x.deviceID, x.fenceID)) == Some(x.stay)
        || (Lookup(s.devices, x.deviceID).Some? ==> !Staying(Lookup(s.devices, x.deviceID).value, x)))
  }

  /** A stay seen after a cycle either went on through it or began in it. */
  lemma StayGoesOn(was: Option<Device>, d: Device, inp: Input, x: Firing)
    requires was.Some? ==> was.value.id == d.id && (was.value.insideFence == "" || ValidFenceID(was.value.insideFence))
    requires ValidFences(inp.fences) && x.stay < inp.now
    requires Staying(EvaluatedDevice(was, d, inp), x)
    ensures was.Some? && Staying(was.value, x)
  {
    InsideFenceValid(d.point, inp.fences);
    var cur := Evaluated(was, d, inp.fences, inp.now);
    if PreviousKey(was) == KeyOf(cur) {
      if was.Some? {
        KeyInjective(was.value.insideFence, was.value.fenceState, cur.insideFence, cur.fenceState);
      } else {
        KeyInjective("", Unknown, cur.insideFence, cur.fenceState);
      }
    }
  }

  lemma SpentStays(s: State, inp: Input, clock: Time, x: Firing)
    requires Consistent(s, clock) && clock < inp.now
    requires Unique(AllFetched(inp.outcomes)) && ValidFences(inp.fences)
    requires Spent(s, clock, x)
    ensures Spent(Cycle(s, inp), inp.now, x) && Times(CycleFirings(s, inp), x) == 0
  {
    hide Sweep, EvaluatedDevice, MarksAfter, FiringsOf, Index;
    var sent := Lookup(AllFetched(inp.outcomes), x.deviceID);
    var was := Lookup(s.devices, x.deviceID);
    SweepOfDevice(Index(s.devices), inp, AllFetched(inp.outcomes), Begin(s), x);
    LookupAfterCycle(s, inp, x.deviceID);
    LookupIs(AllFetched(inp.outcomes), x.deviceID);
    LookupIs(s.devices, x.deviceID);
    ValidFenceIDFree(x.fenceID);
    if sent.Some? {
      var cur := EvaluatedDevice(was, sent.value, inp);
      EvaluatedShape(was, sent.value, inp);
      VisitFires(cur, inp.fences, s.marks);
      TimesAbsent(FiringsOf(cur, inp.fences, s.marks), x);
      if Staying(cur, x) {
        StayGoesOn(was, sent.value, inp, x);
      }
    }
  }

  lemma FreshlySpent(s: State, inp: Input, clock: Time, x: Firing)
    requires Consistent(s, clock) && clock < inp.now && ZERO_TIME <= clock
    requires Unique(AllFetched(inp.outcomes)) && ValidFences(inp.fences)
    requires Times(CycleFirings(s, inp), x) > 0
    ensures Spent(Cycle(s, inp), inp.now, x) && Times(CycleFirings(s, inp), x) == 1
  {
    hide Sweep, EvaluatedDevice, MarksAfter, FiringsOf, Index;
    var sent := Lookup(AllFetched(inp.outcomes), x.deviceID);
    var was := Lookup(s.devices, x.deviceID);
    SweepOfDevice(Index(s.devices), inp, AllFetched(inp.outcomes), Begin(s), x);
    LookupIs(AllFetched(inp.outcomes), x.deviceID);
    SentAfterCycle(s, inp, clock, x.deviceID);
    var cur := EvaluatedDevice(was, sent.value, inp);
    EvaluatedShape(was, sent.value, inp);
    VisitFires(cur, inp.fences, s.marks);
    var xs := FiringsOf(cur, inp.fences, s.marks);
    TimesAbsent(xs, x);
    assert xs == [x];
    ValidFenceIDFree(x.fenceID);
  }

  lemma {:induction false} SpentOnce(steps: seq<Step>, x: Firing)
    requires WellFormed(steps)
    ensures Times(Firings(steps), x) <= 1
    ensures Times(Firings(steps), x) == 1 ==> Spent(After(steps), Clock(steps), x)
  {
    if steps != [] {
      hide Cycle, Consistent, Spent;
      var n := |steps| - 1;
      SpentOnce(steps[..n], x);
      RunInvariant(steps[..n]);
      ClockPositive(steps[..n]);
      if steps[n].Run? {
        var s, inp := After(steps[..n]), steps[n].inp;
        TimesConcat(Firings(steps[..n]), CycleFirings(s, inp), x);
        if Times(Firings(steps[..n]), x) == 1 {
          SpentStays(s, inp, Clock(steps[..n]), x);
        } else if Times(CycleFirings(s, inp), x) > 0 {
          FreshlySpent(s, inp, Clock(steps[..n]), x);
        }
      } else {
        assert Firings(steps) == Firings(steps[..n]);
        SpentRestart(steps[..n], x);
      }
    }
  }

  lemma SpentRestart(steps: seq<Step>, x: Firing)
    ensures Spent(After(steps), Clock(steps), x) ==> Spent(Restarted(After(steps)), Clock(steps), x)
  {
    MarksSynced(steps);
  }

  /** For each device, fence and stay the batch is planned at most once, whatever restarts there are. */
  lemma OneTriggerPerStay(steps: seq<Step>)
    requires WellFormed(steps)
    ensures forall x :: Times(Firings(steps), x) <= 1
  {
    forall x ensures Times(Firings(steps), x) <= 1 {
      SpentOnce(steps, x);
    }
  }

  // -------- Exactly when the threshold is reached --------

  predicate UniqueFences(fences: seq<Fence>) {
    forall i, j :: 0 <= i < j < |fences| ==> fences[i].id != fences[j].id
  }

  /** A fence with a stay threshold and something to do on it. */
  predicate Timed(fences: seq<Fence>, j: nat) {
    && ValidFences(fences) && UniqueFences(fences)
    && j < |fences| && fences[j].dwellSeconds > 0 && fences[j].ActionsFor(OnEnter) != []
  }

  ghost predicate FixedFences(steps: seq<Step>, fences: seq<Fence>) {
    forall i :: 0 <= i < |steps| && steps[i].Run? ==> steps[i].inp.fences == fences
  }

  /** Only the fence the device is in can fire, and it fires by its own rule. */
  lemma {:induction false} InsideFires(cur: Device, fences: seq<Fence>, m: map<string, Time>, j: nat, k: nat)
    requires Timed(fences, j) && k <= |fences| && InsideOf(cur, fences[j])
    ensures k <= j ==> FiringsOf(cur, fences[..k], m) == []
                       && At(MarksAfter(cur, fences[..k], m), StayKey(cur)) == At(m, StayKey(cur))
    ensures k > j ==> (FiringsOf(cur, fences[..k], m) != [] <==> Fires(cur, fences[j], m))
  {
    if k > 0 {
      InsideFires(cur, fences, m, j, k - 1);
      assert fences[..k][..k - 1] == fences[..k - 1];
      ValidFenceIDFree(fences[k - 1].id);
      ValidFenceIDFree(fences[j].id);
      if MarkKey(cur.id, fences[k - 1].id) == StayKey(cur) {
        MarkKeyInjective(cur.id, fences[k - 1].id, cur.id, cur.insideFence);
      }
    }
  }

  lemma {:induction false} MarksBound(cur: Device, fences: seq<Fence>, m: map<string, Time>, key: string)
    ensures At(MarksAfter(cur, fences, m), key).Some? ==>
              At(MarksAfter(cur, fences, m), key) == At(m, key) || At(MarksAfter(cur, fences, m), key) == cur.since
  {
    if fences != [] {
      MarksBound(cur, fences[..|fences| - 1], m, key);
    }
  }

  /** The mark is set exactly for stays that reached the threshold, and no mark is dated after the clock. */
  predicate MarkTells(s: State, f: Fence, clock: Time, id: string) {
    var mark := At(s.marks, MarkKey(id, f.id));
    var dev := Lookup(s.devices, id);
    && (mark.Some? ==> mark.value <= clock)
    && (dev.Some? && dev.value.since.Some? ==>
          && dev.value.dwell <= DwellSeconds(dev.value.since.value, clock)
          && (InsideOf(dev.value, f) ==> (mark == dev.value.since <==> dev.value.dwell >= f.dwellSeconds)))
  }

  /** The stay had already reached the threshold when the device was last evaluated. */
  predicate AlreadyReached(was: Option<Device>, cur: Device, threshold: int) {
    && was.Some? && was.value.fenceState == Inside && was.value.insideFence == cur.insideFence
    && was.value.since == cur.since && was.value.dwell >= threshold
  }

  lemma MarkTellsAfterCycle(s: State, inp: Input, j: nat, clock: Time, id: string)
    requires Consistent(s, clock) && ZERO_TIME <= clock < inp.now
    requires Unique(AllFetched(inp.outcomes)) && Timed(inp.fences, j)
    requires MarkTells(s, inp.fences[j], clock, id)
    ensures MarkTells(Cycle(s, inp), inp.fences[j], inp.now, id)
    ensures var sent := Lookup(AllFetched(inp.outcomes), id);
            sent.Some? ==>
              var cur := EvaluatedDevice(Lookup(s.devices, id), sent.value, inp);
              InsideOf(cur, inp.fences[j]) ==>
                && cur.since.Some?
                && (Times(CycleFirings(s, inp), Firing(id, inp.fences[j].id, cur.since.value)) == 1 <==>
                    cur.dwell >= inp.fences[j].dwellSeconds
                    && !AlreadyReached(Lookup(s.devices, id), cur, inp.fences[j].dwellSeconds))
  {
    hide Sweep, EvaluatedDevice, MarksAfter, FiringsOf, Index, Cycle;
    var f := inp.fences[j];
    var key := MarkKey(id, f.id);
    var sent := Lookup(AllFetched(inp.outcomes), id);
    var was := Lookup(s.devices, id);
    LookupAfterCycle(s, inp, id);
    LookupIs(s.devices, id);
    ValidFenceIDFree(f.id);
    CycleMarks(s, inp);
    if sent.None? {
      SweepOfDevice(Index(s.devices), inp, AllFetched(inp.outcomes), Begin(s), Firing(id, f.id, clock));
      if was.Some? && was.value.since.Some? {
        DwellGrows(was.value.since.value, clock, inp.now);
      }
    } else {
      var cur := EvaluatedDevice(was, sent.value, inp);
      SentAfterCycle(s, inp, clock, id);
      EvaluatedShape(was, sent.value, inp);
      SweepOfDevice(Index(s.devices), inp, AllFetched(inp.outcomes), Begin(s), Firing(id, f.id, cur.since.value));
      MarksBound(cur, inp.fences, s.marks, key);
      if InsideOf(cur, f) {
        MarkTellsInside(s, was, sent.value, inp, j, clock);
      }
    }
  }

  lemma CycleMarks(s: State, inp: Input)
    ensures Cycle(s, inp).marks == CycleWork(s, inp).marks
  {
  }

  lemma DwellGrows(since: Time, at: Time, at': Time)
    requires at <= at'
    ensures DwellSeconds(since, at) <= DwellSeconds(since, at')
  {
  }

  /** The evaluated device inside the fence: the rule fires exactly on the first evaluation past the threshold. */
  lemma MarkTellsInside(s: State, was: Option<Device>, d: Device, inp: Input, j: nat, clock: Time)
    requires Consistent(s, clock) && ZERO_TIME <= clock < inp.now && Timed(inp.fences, j)
    requires was == Lookup(s.devices, d.id) && MarkTells(s, inp.fences[j], clock, d.id)
    requires was.Some? ==> was.value.id == d.id
    requires EvaluatedDevice(was, d, inp).id == d.id && EvaluatedDevice(was, d, inp).since.Some?
    requires InsideOf(EvaluatedDevice(was, d, inp), inp.fences[j])
    requires var cur := EvaluatedDevice(was, d, inp);
             cur.dwell == DwellSeconds(cur.since.value, inp.now) && cur.since.value <= inp.now
    ensures var cur := EvaluatedDevice(was, d, inp);
            var f := inp.fences[j];
            var x := Firing(d.id, f.id, cur.since.value);
            && (Times(FiringsOf(cur, inp.fences, s.marks), x) == 1 <==>
                cur.dwell >= f.dwellSeconds && !AlreadyReached(was, cur, f.dwellSeconds))
            && (At(MarksAfter(cur, inp.fences, s.marks), StayKey(cur)) == cur.since <==> cur.dwell >= f.dwellSeconds)
  {
    hide EvaluatedDevice, MarksAfter, FiringsOf, Lookup;
    var cur := EvaluatedDevice(was, d, inp);
    var f := inp.fences[j];
    var x := Firing(d.id, f.id, cur.since.value);
    ValidFenceIDFree(f.id);
    InsideFires(cur, inp.fences, s.marks, j, |inp.fences|);
    assert inp.fences[..|inp.fences|] == inp.fences;
    VisitFires(cur, inp.fences, s.marks);
    var xs := FiringsOf(cur, inp.fences, s.marks);
    TimesAbsent(xs, x);
    if xs != [] {
      assert xs[0] in xs;
      assert xs == [x];
      assert Times(xs[..0], x) == 0;
    }
    if cur.since.value < inp.now {
      StayGoesOn(was, d, inp, x);
      DwellGrows(cur.since.value, clock, inp.now);
    }
  }

  /** With the same rules throughout, the batch goes out exactly in the first evaluated cycle past the threshold. */
  lemma {:induction false} TriggerAtThreshold(steps: seq<Step>, inp: Input, j: nat, id: string)
    requires WellFormed(steps + [Run(inp)]) && FixedFences(steps, inp.fences) && Timed(inp.fences, j)
    requires Lookup(AllFetched(inp.outcomes), id).Some?
    ensures var s := After(steps);
            var f := inp.fences[j];
            var cur := EvaluatedDevice(Lookup(s.devices, id), Lookup(AllFetched(inp.outcomes), id).value, inp);
            InsideOf(cur, f) ==>
              && cur.since.Some?
              && (Times(CycleFirings(s, inp), Firing(id, f.id, cur.since.value)) == 1 <==>
                  cur.dwell >= f.dwellSeconds && !AlreadyReached(Lookup(s.devices, id), cur, f.dwellSeconds))
  {
    hide EvaluatedDevice, Consistent;
    var all := steps + [Run(inp)];
    assert all[..|all| - 1] == steps && all[|all| - 1] == Run(inp);
    MarkTellsThroughout(steps, inp.fences, j, id);
    RunInvariant(steps);
    ClockPositive(steps);
    MarkTellsAfterCycle(After(steps), inp, j, Clock(steps), id);
  }

  lemma {:induction false} MarkTellsThroughout(steps: seq<Step>, fences: seq<Fence>, j: nat, id: string)
    requires WellFormed(steps) && FixedFences(steps, fences) && Timed(fences, j)
    ensures MarkTells(After(steps), fences[j], Clock(steps), id)
  {
    if steps != [] {
      hide Cycle, Consistent, MarkTells;
      var n := |steps| - 1;
      MarkTellsThroughout(steps[..n], fences, j, id);
      RunInvariant(steps[..n]);
      ClockPositive(steps[..n]);
      if steps[n].Run? {
        MarkTellsAfterCycle(After(steps[..n]), steps[n].inp, j, Clock(steps[..n]), id);
      } else {
        MarkTellsRestart(steps[..n], fences[j], id);
      }
    }
  }

  lemma MarkTellsRestart(steps: seq<Step>, f: Fence, id: string)
    requires MarkTells(After(steps), f, Clock(steps), id)
    ensures MarkTells(Restarted(After(steps)), f, Clock(steps), id)
  {
    MarksSynced(steps);
  }
}
