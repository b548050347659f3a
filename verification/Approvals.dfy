/**
  What becomes of an approval: it is executed with its result, or it strands because the process stopped, its order
  was held back, or its last write failed (internal/engine/handoffs.go).
*/
module Approvals {
  import opened Base
  import opened Guardrails
  import opened Handoffs
  import opened HumanGate
  import opened HumanGateTheorems

  ghost predicate MarkedSince(log: seq<Mark>, n: nat, id: string, k: Kind) {
    exists i :: n <= i < |log| && log[i].id == id && KindOf(log[i]) == k
  }

  /** The request is stored as approved, as `f`, and nobody is running it. */
  predicate Stranded(s: State, f: Handoff) {
    Find(s.inbox, f.id) == Some(f) && f.status == Approved && f.decidedAt.Some? && Idle(s, f.id)
  }

  /** There is no device to send the order to, or the cooldown holds. */
  predicate HeldBack(s: State, h: Handoff, found: Option<Target>, c: Context) {
    found.None? || Cooled(c.enforcement, LastActionAt(s.books.marks, h.deviceID, h.action), h.action, c.decideAt)
  }

  lemma ByHandNone(b: Books, p: Planned, c: Context)
    ensures ByHand(b, p, c).1.None? <==>
            Cooled(c.enforcement, LastActionAt(b.marks, p.deviceID, p.action), p.action, c.decideAt)
  {
    DecideIsTheGate(c.enforcement, LastActionAt(b.marks, p.deviceID, p.action), p.deviceID, p.action, c.decideAt);
  }

  /**
    Whatever happened since the approval, its order is held back by the books of the instant that decides it: then
    nothing but the lock changes, and otherwise one result is kept and one line written or lost.
  */
  lemma ExecuteReleasesIff(s: State, found: Option<Target>, c: Context, logged: bool)
    requires s.lock.Held?
    ensures var s', h := Next(s, Execute(found, c, logged)), s.lock.handoff;
            && (s'.lock.Free? <==> HeldBack(s, h, found, c))
            && (HeldBack(s, h, found, c) ==> s' == s.(lock := Free))
            && (!HeldBack(s, h, found, c) ==>
                  && s'.lock.Ran? && s'.lock.handoff == h && s'.inbox == s.inbox
                  && ByHand(s.books, HandoffOrder(h, found.value), c).1 == Some(s'.lock.result)
                  && s'.audit == (if logged then s.audit + [s'.lock.result] else s.audit)
                  && s'.lost == (if logged then s.lost else s.lost + [s'.lock.result]))
  {
    hide ByHand, Cooled, LastActionAt;
    if found.Some? {
      ByHandNone(s.books, HandoffOrder(s.lock.handoff, found.value), c);
    }
  }

  // -------- The fate of an approval --------

  /** The step takes the lock from the approval that holds it, and leaves the request behind. */
  predicate Strands(s: State, step: Step) {
    match step
    case Restart => !s.lock.Free?
    case Execute(found, c, _) => s.lock.Held? && HeldBack(s, s.lock.handoff, found, c)
    case Finish(_, _, saved) => s.lock.Ran? && !saved
    case _ => false
  }

  /** The i-th of these steps sent the approved order, and this is the result it left. */
  predicate LeftBy(base: seq<Step>, more: seq<Step>, i: nat, h: Handoff, r: Result) {
    && i < |more| && more[i].Execute? && more[i].found.Some?
    && ByHand(After(base + more[..i]).books, HandoffOrder(h, more[i].found.value), more[i].context).1 == Some(r)
  }

  /** The request with the result of its order. */
  predicate Completed(f: Option<Handoff>, h: Handoff, r: Result) {
    f.Some? && f.value == h.(status := Status.Executed, result := Some(r))
  }

  /** While the approval holds the lock no step takes it away but these, and its request stays as it was approved. */
  lemma HoldingStep(s: State, step: Step)
    requires !s.lock.Free? && !Next(s, step).lock.Free?
    ensures var s' := Next(s, step);
            && s'.lock.handoff == s.lock.handoff
            && (s.lock.Ran? ==> s'.lock == s.lock)
            && (s.lock.Held? && s'.lock.Ran? ==>
                  && step.Execute? && step.found.Some?
                  && ByHand(s.books, HandoffOrder(s.lock.handoff, step.found.value), step.context).1 == Some(s'.lock.result))
    ensures !Strands(s, step)
  {
    hide HeldBack, ByHand, AskedAll, Offered, Plan, Ruling, UpsertAll, Upserted, OpenMarks, Written, Unwritten, Handoffs.Decide;
    if step.Execute? && s.lock.Held? {
      ExecuteReleasesIff(s, step.found, step.context, step.logged);
    }
  }

  /** The step that ends the approval: a last write that went well completes the request, any other strands it. */
  lemma EndingStep(s: State, step: Step)
    requires Invariant(s) && !s.lock.Free? && Next(s, step).lock.Free?
    ensures var s', h := Next(s, step), s.lock.handoff;
            if Strands(s, step) then Stranded(s', h)
            else s.lock.Ran? && Completed(Find(s'.inbox, h.id), h, s.lock.result)
  {
    var h := s.lock.handoff;
    assert LockInvariant(s) && Sound(s.inbox);
    SoundFind(s.inbox, h.id);
    hide Invariant, LockInvariant, Sound, Find, Upserted, ByHand, AskedAll, Offered, Plan, Ruling, UpsertAll, OpenMarks,
         Written, Unwritten, HeldBack, IDOf;
    if step.Execute? && s.lock.Held? {
      ExecuteReleasesIff(s, step.found, step.context, step.logged);
    } else if step.Finish? && step.saved && s.lock.Ran? {
      var done := Handoffs.Decide(h, Status.Executed, step.who, "", step.at).handoff.(result := Some(s.lock.result));
      FindUpserted(s.inbox, done, h.id);
    }
  }

  /** The lock taken at the end of `base` has not been given back so far. */
  ghost predicate Holding(base: seq<Step>, more: seq<Step>) {
    forall i :: 0 <= i <= |more| ==> !After(base + more[..i]).lock.Free?
  }

  /** No step of `more` strands the approval. */
  ghost predicate Undisturbed(base: seq<Step>, more: seq<Step>) {
    forall i :: 0 <= i < |more| ==> !Strands(After(base + more[..i]), more[i])
  }

  lemma UndisturbedSnoc(base: seq<Step>, more: seq<Step>)
    requires more != []
    ensures var n := |more| - 1;
            Undisturbed(base, more) <==> Undisturbed(base, more[..n]) && !Strands(After(base + more[..n]), more[n])
  {
    hide After, Strands;
    var n := |more| - 1;
    assert forall i :: 0 <= i < n ==> more[..n][..i] == more[..i] && more[..n][i] == more[i];
  }

  lemma LeftByStays(base: seq<Step>, more: seq<Step>, i: nat, h: Handoff, r: Result)
    requires more != [] && LeftBy(base, more[..|more| - 1], i, h, r)
    ensures LeftBy(base, more, i, h, r)
  {
    hide After, ByHand;
    assert more[..|more| - 1][..i] == more[..i] && more[..|more| - 1][i] == more[i];
  }

  lemma {:induction false} HoldingKeeps(base: seq<Step>, more: seq<Step>, h: Handoff)
    requires After(base).lock == Held(h) && Holding(base, more)
    ensures var s := After(base + more);
            && !s.lock.Free? && s.lock.handoff == h && Undisturbed(base, more)
            && (s.lock.Ran? ==> exists i :: LeftBy(base, more, i, h, s.lock.result))
  {
    if more == [] {
      assert base + more == base;
    } else {
      hide After, Next, Strands, Undisturbed, ByHand;
      var n := |more| - 1;
      var s := After(base + more[..n]);
      assert forall i :: 0 <= i <= n ==> more[..n][..i] == more[..i];
      assert more[..|more|] == more;
      HoldingKeeps(base, more[..n], h);
      AfterConcat(base, more);
      HoldingStep(s, more[n]);
      UndisturbedSnoc(base, more);
      if s.lock.Ran? {
        var i :| LeftBy(base, more[..n], i, h, s.lock.result);
        LeftByStays(base, more, i, h, s.lock.result);
      } else if After(base + more).lock.Ran? {
        assert LeftBy(base, more, n, h, After(base + more).lock.result);
      }
    }
  }

  lemma EndsAs(base: seq<Step>, more: seq<Step>, h: Handoff)
    requires After(base).lock == Held(h) && more != [] && Holding(base, more[..|more| - 1])
    requires After(base + more).lock.Free?
    ensures var s := After(base + more);
            if Undisturbed(base, more) then exists i, r :: LeftBy(base, more, i, h, r) && Completed(Find(s.inbox, h.id), h, r)
            else Stranded(s, h)
  {
    hide After, Next, Strands, Undisturbed, Invariant, Find, Holding, LeftBy, Completed, Stranded;
    var n := |more| - 1;
    var s := After(base + more[..n]);
    HoldingKeeps(base, more[..n], h);
    Always(base + more[..n]);
    AfterConcat(base, more);
    UndisturbedSnoc(base, more);
    EndingStep(s, more[n]);
    if !Strands(s, more[n]) {
      var i :| LeftBy(base, more[..n], i, h, s.lock.result);
      LeftByStays(base, more, i, h, s.lock.result);
    }
  }

  lemma TakesLock(s: State, id: string, who: string, note: string, at: Time)
    requires s.lock.Free? && Ruling(s, id, Approved, who, note, at).Some?
    ensures Next(s, Approve(id, who, note, at, true)).lock == Held(Ruling(s, id, Approved, who, note, at).value)
  {
    hide Ruling, Upserted;
  }

  /**
    The fate of an approval, whatever the cycle and other people do meanwhile. When its lock is free again, the request
    is executed with the result of its order if and only if no step since then strands it: no restart, no order held
    back by the books of the instant that decided it, and no failed write of the executed request. Otherwise it is
    stored as it was approved, and nobody is running it.
  */
  lemma ApprovalStrandsIff(steps: seq<Step>, more: seq<Step>, id: string, who: string, note: string, at: Time)
    requires After(steps).lock.Free? && Ruling(After(steps), id, Approved, who, note, at).Some?
    requires more != [] && Holding(steps + [Approve(id, who, note, at, true)], more[..|more| - 1])
    requires After(steps + [Approve(id, who, note, at, true)] + more).lock.Free?
    ensures var base := steps + [Approve(id, who, note, at, true)];
            var h := Ruling(After(steps), id, Approved, who, note, at).value;
            var s := After(base + more);
            && h.id == id && Find(s.inbox, id).Some?
            && (Find(s.inbox, id).value.status == Status.Executed <==> Undisturbed(base, more))
            && (Undisturbed(base, more) ==>
                  exists i, r :: LeftBy(base, more, i, h, r) && Completed(Find(s.inbox, id), h, r))
            && (!Undisturbed(base, more) ==> Stranded(s, h))
  {
    hide After, Next, Undisturbed, Invariant, Ruling, Find, Holding, LeftBy;
    Always(steps);
    assert Sound(After(steps).inbox) by {
      SoundInbox(After(steps));
    }
    DecisionIs(After(steps), id, Approved, who, note, at);
    AfterSnoc(steps, Approve(id, who, note, at, true));
    TakesLock(After(steps), id, who, note, at);
    EndsAs(steps + [Approve(id, who, note, at, true)], more, Ruling(After(steps), id, Approved, who, note, at).value);
  }

  lemma SoundInbox(s: State)
    requires Invariant(s)
    ensures Sound(s.inbox)
  {
  }

  // -------- Results --------

  /** A request holds a result exactly when it was executed. */
  predicate Resulted(hs: seq<Handoff>) {
    forall i :: 0 <= i < |hs| ==> (hs[i].status == Status.Executed <==> hs[i].result.Some?)
  }

  ghost predicate ResultedState(s: State) {
    Resulted(s.inbox) && (s.cycle.Some? ==> Resulted(s.cycle.value.added))
  }

  lemma ResultedUpsert(hs: seq<Handoff>, h: Handoff)
    requires Resulted(hs) && (h.status == Status.Executed <==> h.result.Some?)
    ensures Resulted(Upserted(hs, h))
  {
    UpsertedAt(hs, h);
    ReplacedAt(hs, h);
  }

  lemma {:induction false} ResultedAsked(c: Cycle, t: Target, asks: seq<Ask>)
    requires Resulted(c.added)
    ensures Resulted(AskedAll(c, t, asks).added)
  {
    if asks != [] {
      ResultedAsked(c, t, asks[..|asks| - 1]);
    }
  }

  lemma {:induction false} ResultedAll(hs: seq<Handoff>, added: seq<Handoff>)
    requires Resulted(hs) && Resulted(added)
    ensures Resulted(UpsertAll(hs, added))
  {
    if added != [] {
      ResultedAll(hs, added[..|added| - 1]);
      ResultedUpsert(UpsertAll(hs, added[..|added| - 1]), added[|added| - 1]);
    }
  }

  lemma ResultedRuling(s: State, id: string, to: Status, who: string, note: string, at: Time)
    requires Resulted(s.inbox) && Ruling(s, id, to, who, note, at).Some? && (to == Approved || to == Rejected)
    ensures Resulted(Upserted(s.inbox, Ruling(s, id, to, who, note, at).value))
  {
    FindIs(s.inbox, id);
    hide Find, Upserted;
    ResultedUpsert(s.inbox, Ruling(s, id, to, who, note, at).value);
  }

  lemma ResultedNext(s: State, step: Step)
    requires LockInvariant(s) && ResultedState(s)
    ensures ResultedState(Next(s, step))
  {
    hide AskedAll, Offered, ByHand, Plan, Ruling, UpsertAll, Upserted, OpenMarks, Written, Unwritten, HandoffOrder, Find,
         StageOf;
    match step
    case Visit(t, plain, ps, failed) =>
      if s.cycle.Some? {
        ResultedAsked(s.cycle.value, t, Asks(ps, failed));
      }
    case EndCycle(_, _) =>
      if s.cycle.Some? {
        ResultedAll(s.inbox, s.cycle.value.added);
      }
    case Approve(id, who, note, at, _) =>
      if Ruling(s, id, Approved, who, note, at).Some? {
        ResultedRuling(s, id, Approved, who, note, at);
      }
    case Reject(id, who, note, at, _) =>
      if Ruling(s, id, Rejected, who, note, at).Some? {
        ResultedRuling(s, id, Rejected, who, note, at);
      }
    case Finish(who, at, saved) =>
      if s.lock.Ran? && saved {
        ResultedUpsert(s.inbox, Handoffs.Decide(s.lock.handoff, Status.Executed, who, "", at).handoff
                                .(result := Some(s.lock.result)));
      }
    case _ =>
  }

  /** In every reachable inbox a request holds a result if and only if it was executed, so a stranded one holds none. */
  lemma {:induction false} ResultIffExecuted(steps: seq<Step>)
    ensures ResultedState(After(steps))
  {
    if steps != [] {
      var n := |steps| - 1;
      Always(steps[..n]);
      assert LockInvariant(After(steps[..n]));
      hide Next, Invariant, ResultedState;
      ResultIffExecuted(steps[..n]);
      ResultedNext(After(steps[..n]), steps[n]);
    }
  }

  // -------- A stranded request --------

  /** A step on a stranded request leaves it stranded and uncalled, unless a cycle a day later reopens it. */
  lemma StrandedStep(s: State, step: Step, n: nat, f: Handoff)
    requires Invariant(s) && n <= |s.log| && Stranded(s, f) && !MarkedSince(s.log, n, f.id, Calling)
    ensures var s' := Next(s, step);
            || ReopenedSince(s'.log, n, f.id, f.decidedAt.value)
            || (Stranded(s', f) && !MarkedSince(s'.log, n, f.id, Calling))
  {
    DecisionKept(s, step, f.id);
    if Reopening(s, step, f.id, f) {
      ReopeningMarks(s, step, f.id, f, n);
    } else {
      hide Reopening, Next, Invariant;
      StaysIdle(s, step, f.id);
      NewMarks(s, step);
    }
  }

  /** Only an approval takes the lock, and only for a request that was waiting. */
  lemma StaysIdle(s: State, step: Step, id: string)
    requires Invariant(s) && Find(s.inbox, id).Some? && Find(s.inbox, id).value.status == Approved && Idle(s, id)
    ensures Idle(Next(s, step), id)
  {
    assert Sound(s.inbox);
    hide AskedAll, Offered, ByHand, Plan, UpsertAll, Upserted, Invariant, Sound, Find, Written, Unwritten, OpenMarks;
    if step.Approve? && Ruling(s, step.id, Approved, step.who, step.note, step.at).Some? {
      SoundFind(s.inbox, step.id);
    }
  }

  /** A call is marked for the request whose approval holds the lock, and for no other. */
  lemma NewMarks(s: State, step: Step)
    ensures s.log <= Next(s, step).log
    ensures forall i :: |s.log| <= i < |Next(s, step).log| && Next(s, step).log[i].WasCalled? ==>
              s.lock.Held? && Next(s, step).log[i].id == s.lock.handoff.id
  {
    hide AskedAll, Offered, ByHand, Plan, Ruling, UpsertAll, Written, Unwritten;
  }

  /**
    A stranded request stays as it is and is never called, through any steps, until a cycle whose clock is a day or
    more after the decision opens its id again.
  */
  lemma {:induction false} StrandedUntilReopened(steps: seq<Step>, more: seq<Step>, f: Handoff)
    requires Stranded(After(steps), f)
    ensures var s, n := After(steps + more), |After(steps).log|;
            || ReopenedSince(s.log, n, f.id, f.decidedAt.value)
            || (Stranded(s, f) && !MarkedSince(s.log, n, f.id, Calling))
  {
    if more == [] {
      assert steps + more == steps;
    } else {
      hide After, Next, Invariant, Stranded;
      var n := |After(steps).log|;
      var rest := more[..|more| - 1];
      StrandedUntilReopened(steps, rest, f);
      AfterConcat(steps, more);
      LogPrefix(steps, rest);
      var s := After(steps + rest);
      Always(steps + rest);
      LogGrows(s, more[|more| - 1]);
      if ReopenedSince(s.log, n, f.id, f.decidedAt.value) {
        ReopenedStays(s.log, Next(s, more[|more| - 1]).log, n, f.id, f.decidedAt.value);
      } else {
        StrandedStep(s, more[|more| - 1], n, f);
      }
    }
  }

  lemma ReopenedStays(log: seq<Mark>, log': seq<Mark>, n: nat, id: string, t: Time)
    requires log <= log' && ReopenedSince(log, n, id, t)
    ensures ReopenedSince(log', n, id, t)
  {
    var k :| n <= k < |log| && log[k].WasOpened? && log[k].id == id && log[k].at - t >= REOPEN_AFTER;
    assert log'[k] == log[k];
  }

  /** So until then approving it again, however long after the cooldown, changes nothing. */
  lemma ApprovedIsNotRetried(steps: seq<Step>, more: seq<Step>, f: Handoff,
                             who: string, note: string, at: Time, saved: bool)
    requires Stranded(After(steps), f)
    requires !ReopenedSince(After(steps + more).log, |After(steps).log|, f.id, f.decidedAt.value)
    ensures After(steps + more + [Approve(f.id, who, note, at, saved)]) == After(steps + more)
  {
    StrandedUntilReopened(steps, more, f);
    AfterSnoc(steps + more, Approve(f.id, who, note, at, saved));
    hide After, ReopenedSince, Find;
  }

  // -------- A run in which that happens --------

  /** A playbook that asks for a lock of every device. */
  const CONTAIN := Playbook("contain", true, true, true, ["lock"])

  function FirstRequest(t: Target, now: Time): Handoff {
    Request(t, Ask(CONTAIN.id, "lock"), now)
  }

  lemma FirstAsk(t: Target, now: Time)
    ensures AskedAll(Cycle(now, [], [], [], false), t, [Ask(CONTAIN.id, "lock")])
         == Cycle(now, [FirstRequest(t, now)], [FirstRequest(t, now)], [], false)
  {
    hide HandoffID;
    var a, c := Ask(CONTAIN.id, "lock"), Cycle(now, [], [], [], false);
    assert [a][..0] == [];
    assert Reopens(c.snapshot, t.id, a.playbookID, a.action, now);
    assert AskedAll(c, t, [a]) == Asked(c, t, a);
    assert [] + [FirstRequest(t, now)] == [FirstRequest(t, now)];
  }

  lemma FirstAsks(t: Target)
    ensures Asks([CONTAIN], false) == [Ask(CONTAIN.id, "lock")]
    ensures Plan(t, [], [CONTAIN], false) == []
  {
    var a := Ask(CONTAIN.id, "lock");
    assert AsksOf(CONTAIN.id, ["lock"]) == [a];
    assert [CONTAIN][..0] == [] && MatchAll([]) == [];
    assert Valid(CONTAIN);
    assert [a][..0] == [];
    assert SoarOrders(t, [a]) == [];
  }

  lemma FirstVisit(t: Target, s: State, now: Time)
    requires s.cycle == Some(Cycle(now, [], [], [], false))
    ensures Next(s, Visit(t, [], [CONTAIN], false))
         == s.(cycle := Some(Cycle(now, [FirstRequest(t, now)], [FirstRequest(t, now)], [], false)))
  {
    FirstAsk(t, now);
    FirstAsks(t);
    hide AskedAll, Asks, Plan, FirstRequest;
  }

  lemma FirstEnding(s: State, h: Handoff, now: Time)
    requires s == START.(cycle := Some(Cycle(now, [h], [h], [], false)))
    ensures Next(Next(s, Flush({})), EndCycle(true, true)) == START.(inbox := [h], log := [WasOpened(h.id, h.requestedAt)])
  {
    assert [h][..0] == [] && Upserted([], h) == [h];
    assert UpsertAll([], [h]) == [h];
    assert OpenMarks([h]) == [WasOpened(h.id, h.requestedAt)];
    hide UpsertAll, Upserted, OpenMarks;
  }

  lemma FirstOpening(t: Target, now: Time)
    ensures After([StartCycle(now), Visit(t, [], [CONTAIN], false), Flush({}), EndCycle(true, true)])
         == START.(inbox := [FirstRequest(t, now)], log := [WasOpened(FirstRequest(t, now).id, now)])
  {
    FirstVisit(t, Next(START, StartCycle(now)), now);
    var s := START.(cycle := Some(Cycle(now, [FirstRequest(t, now)], [FirstRequest(t, now)], [], false)));
    assert Next(Next(START, StartCycle(now)), Visit(t, [], [CONTAIN], false)) == s;
    assert FirstRequest(t, now).requestedAt == now;
    hide Next, After, FirstRequest;
    FirstEnding(s, FirstRequest(t, now), now);
    var two := [] + [StartCycle(now), Visit(t, [], [CONTAIN], false)];
    AfterTwo([], StartCycle(now), Visit(t, [], [CONTAIN], false));
    AfterTwo(two, Flush({}), EndCycle(true, true));
    assert two + [Flush({}), EndCycle(true, true)]
        == [StartCycle(now), Visit(t, [], [CONTAIN], false), Flush({}), EndCycle(true, true)];
    AfterNone();
  }

  lemma AfterNone()
    ensures After([]) == START
  {
  }

  /** An order by hand that reaches the device, live or dry, arms the cooldown. */
  lemma LockByHand(b: Books, p: Planned, c: Context)
    requires Window(c.enforcement) > 0 && c.hasAdapter && c.adapterOK && c.markSaved
    requires b == START.books && p.action == "lock"
    ensures var (b', r) := ByHand(b, p, c);
            && r.Some? && r.value.order == p
            && |b'.calls| == 1 && b'.calls[0].order == p
            && LastActionAt(b'.marks, p.deviceID, p.action) == Some(WholeSecond(c.recordAt))
  {
    DecideIsTheGate(c.enforcement, None, p.deviceID, p.action, c.decideAt);
  }

  lemma FirstManual(s: State, p: Planned, c: Context)
    requires Window(c.enforcement) > 0 && c.hasAdapter && c.adapterOK && c.markSaved
    requires s.books == START.books && s.lock.Free? && s.audit == [] && p.action == "lock" && p.playbookID == ""
    ensures var s' := Next(s, Manual(p, c, true));
            && s' == s.(books := s'.books, audit := s'.audit)
            && |s'.audit| == 1 && s'.audit[0].order == p
            && |s'.books.calls| == 1 && s'.books.calls[0].order == p
            && LastActionAt(s'.books.marks, p.deviceID, "lock") == Some(WholeSecond(c.recordAt))
  {
    hide ByHand, LastActionAt, WholeSecond;
    assert p.(playbookID := "") == p;
    LockByHand(s.books, p, c);
  }

  lemma FirstRuling(s: State, t: Target, now: Time, who: string, note: string, at: Time)
    requires s.inbox == [FirstRequest(t, now)]
    ensures Find(s.inbox, FirstRequest(t, now).id) == Some(FirstRequest(t, now))
    ensures Ruling(s, FirstRequest(t, now).id, Approved, who, note, at).Some?
  {
    hide HandoffID;
  }

  /** An approval whose order follows at once and is held back. */
  lemma HeldBackAtOnce(s: State, h: Handoff, who: string, note: string, at: Time, found: Option<Target>, c: Context,
                       logged: bool)
    requires s.lock.Free? && Find(s.inbox, h.id) == Some(h) && h.status == Pending && HeldBack(s, h, found, c)
    ensures var s' := Next(Next(s, Approve(h.id, who, note, at, true)), Execute(found, c, logged));
            && s' == s.(inbox := s'.inbox, log := s.log + [WasApproved(h.id, at)])
            && Find(s'.inbox, h.id).Some? && Stranded(s', Find(s'.inbox, h.id).value)
            && Find(s'.inbox, h.id).value.result == h.result
  {
    var s1 := Next(s, Approve(h.id, who, note, at, true));
    FindUpserted(s.inbox, Ruling(s, h.id, Approved, who, note, at).value, h.id);
    hide Find, Upserted, Cooled, LastActionAt;
    ExecuteReleasesIff(s1, found, c, logged);
  }

  lemma SevenSteps(a: Step, b: Step, c: Step, d: Step, e: Step, f: Step, g: Step)
    ensures [a, b, c, d, e, f, g] == ([a, b, c, d] + [e]) + [f, g]
  {
  }

  /**
    Such a run: a cycle asks to lock a device, a person locks it by hand, the request is approved while the cooldown
    holds. It ends up approved, without a result; the one call and the one audit line are those of the order by hand.
  */
  lemma ApprovalStrands(t: Target, now: Time, e: Enforcement, lockedAt: Time, who: string, note: string, at: Time)
    requires Window(e) > 0 && at - WholeSecond(lockedAt) < Window(e)
    ensures var id := FirstRequest(t, now).id;
            var p := Planned(t.id, t.provider, "lock", t.inside, "", "manual");
            var s := After([StartCycle(now), Visit(t, [], [CONTAIN], false), Flush({}), EndCycle(true, true),
                            Manual(p, Context(e, lockedAt, lockedAt, true, true, true), true),
                            Approve(id, who, note, at, true),
                            Execute(Some(t), Context(e, at, at, true, true, true), true)]);
            && Find(s.inbox, id).Some? && Stranded(s, Find(s.inbox, id).value) && Find(s.inbox, id).value.result.None?
            && s.log == [WasOpened(id, now), WasApproved(id, at)]
            && |s.audit| == 1 && s.audit[0].order == p && s.lost == []
            && |s.books.calls| == 1 && s.books.calls[0].order == p
  {
    var h := FirstRequest(t, now);
    var p := Planned(t.id, t.provider, "lock", t.inside, "", "manual");
    var c, c' := Context(e, lockedAt, lockedAt, true, true, true), Context(e, at, at, true, true, true);
    var four := [StartCycle(now), Visit(t, [], [CONTAIN], false), Flush({}), EndCycle(true, true)];
    var five := four + [Manual(p, c, true)];
    SevenSteps(StartCycle(now), Visit(t, [], [CONTAIN], false), Flush({}), EndCycle(true, true), Manual(p, c, true),
               Approve(h.id, who, note, at, true), Execute(Some(t), c', true));
    hide After, Next, Find, Ruling, Stranded, LastActionAt, WholeSecond, HandoffID;
    FirstOpening(t, now);
    AfterSnoc(four, Manual(p, c, true));
    FirstManual(After(four), p, c);
    FirstRuling(After(five), t, now, who, note, at);
    AfterTwo(five, Approve(h.id, who, note, at, true), Execute(Some(t), c', true));
    HeldBackAtOnce(After(five), h, who, note, at, Some(t), c', true);
  }
}
