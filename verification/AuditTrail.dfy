/** Which live calls the audit log tells, over whole runs with restarts and failed writes. */
module AuditTrail {
  import opened Base
  import opened Guardrails
  import opened Handoffs
  import opened HumanGate
  import opened HumanGateTheorems

  lemma {:induction false} LiveConcat(a: seq<Result>, b: seq<Result>)
    ensures LiveResults(a + b) == LiveResults(a) + LiveResults(b)
  {
    if b == [] {
      assert a + b == a;
    } else {
      LiveConcat(a, b[..|b| - 1]);
      assert (a + b)[..|a + b| - 1] == a + b[..|b| - 1];
    }
  }

  /** How often an order stands among live calls, and among results that say live. */
  function CallsOf(ks: seq<Call>, p: Planned): nat {
    multiset(LiveCalls(ks))[p]
  }

  function ResultsOf(rs: seq<Result>, p: Planned): nat {
    multiset(LiveResults(rs))[p]
  }

  lemma ResultsConcat(a: seq<Result>, b: seq<Result>, p: Planned)
    ensures ResultsOf(a + b, p) == ResultsOf(a, p) + ResultsOf(b, p)
  {
    LiveConcat(a, b);
  }

  /** Outside a running cycle no result waits for its line, and a flushed cycle has no order left. */
  predicate Drained(s: State) {
    && (s.cycle.None? || s.cycle.value.closing ==> s.books.results == [])
    && (s.cycle.Some? && s.cycle.value.closing ==> s.cycle.value.queue == [])
  }

  /** The live calls are those in the audit log, those that wait for their line, and those whose line was lost. */
  predicate Accounts(s: State, p: Planned) {
    && Drained(s)
    && CallsOf(s.books.calls, p) == ResultsOf(s.audit, p) + ResultsOf(s.books.results, p) + ResultsOf(s.lost, p)
  }

  lemma DrainedNext(s: State, step: Step)
    requires Drained(s)
    ensures Drained(Next(s, step))
  {
    hide Offered, ByHand, Plan, Ruling, UpsertAll, Upserted, OpenMarks, AskedAll, Asks, Handoffs.Decide, Written, Unwritten;
    if step.Visit? && s.cycle.Some? {
      AskedAllFlags(s.cycle.value, step.target, Asks(step.playbooks, step.evalFailed));
    }
    if step.Execute? && s.lock.Held? && step.found.Some? {
      ByHandFrame(s.books, HandoffOrder(s.lock.handoff, step.found.value), step.context);
    }
    if step.Manual? {
      ByHandFrame(s.books, step.order.(playbookID := ""), step.context);
    }
  }

  lemma AppliedAccounts(b: Books, p: Planned, c: Context, x: Planned)
    ensures var (b', r) := Applied(b, p, c);
            && b'.results == b.results
            && CallsOf(b'.calls, x) == CallsOf(b.calls, x) + ResultsOf(if r.Some? then [r.value] else [], x)
  {
    AppliedBooks(b, p, c);
    hide Applied, GatedCall, LiveCalls, LiveResults;
  }

  lemma NoResults(x: Planned)
    ensures ResultsOf([], x) == 0
  {
    assert LiveResults([]) == [];
  }

  lemma OfferedAccounts(b: Books, p: Planned, c: Context, x: Planned)
    ensures var b' := Offered(b, p, c);
            CallsOf(b'.calls, x) - ResultsOf(b'.results, x) == CallsOf(b.calls, x) - ResultsOf(b.results, x)
  {
    hide Applied, CallsOf, ResultsOf, FireKey;
    var b0 := b.(fired := b.fired + {FireKey(p)}, planned := b.planned + 1);
    AppliedAccounts(b0, p, c, x);
    NoResults(x);
    var r := Applied(b0, p, c).1;
    if r.Some? {
      ResultsConcat(b.results, [r.value], x);
    }
  }

  lemma OfferAccounts(s: State, c: Context, x: Planned)
    requires Accounts(s, x)
    ensures Accounts(Next(s, Offer(c)), x)
  {
    hide Offered, CallsOf, ResultsOf;
    DrainedNext(s, Offer(c));
    hide Drained;
    if s.cycle.Some? && s.cycle.value.queue != [] {
      OfferedAccounts(s.books, s.cycle.value.queue[0], c, x);
    }
  }

  lemma {:induction false} SplitResults(rs: seq<Result>, failed: set<nat>, x: Planned)
    ensures ResultsOf(Written(rs, failed), x) + ResultsOf(Unwritten(rs, failed), x) == ResultsOf(rs, x)
  {
    hide ResultsOf;
    NoResults(x);
    if rs != [] {
      var n := |rs| - 1;
      SplitResults(rs[..n], failed, x);
      assert rs == rs[..n] + [rs[n]];
      ResultsConcat(rs[..n], [rs[n]], x);
      if n in failed {
        ResultsConcat(Unwritten(rs[..n], failed), [rs[n]], x);
      } else {
        ResultsConcat(Written(rs[..n], failed), [rs[n]], x);
      }
    }
  }

  lemma FlushAccounts(s: State, failed: set<nat>, x: Planned)
    requires Accounts(s, x)
    ensures Accounts(Next(s, Flush(failed)), x)
  {
    hide CallsOf, ResultsOf, Written, Unwritten;
    DrainedNext(s, Flush(failed));
    hide Drained;
    var rs := s.books.results;
    NoResults(x);
    SplitResults(rs, failed, x);
    ResultsConcat(s.audit, Written(rs, failed), x);
    ResultsConcat(s.lost, Unwritten(rs, failed), x);
  }

  lemma RestartAccounts(s: State, x: Planned)
    requires Accounts(s, x)
    ensures Accounts(Next(s, Restart), x)
  {
    hide CallsOf, ResultsOf;
    NoResults(x);
    ResultsConcat(s.lost, s.books.results, x);
  }

  lemma ByHandAccounts(s: State, p: Planned, c: Context, x: Planned)
    ensures var (b', r) := ByHand(s.books, p, c);
            && b'.results == s.books.results
            && CallsOf(b'.calls, x) == CallsOf(s.books.calls, x) + ResultsOf(if r.Some? then [r.value] else [], x)
  {
    hide Applied, CallsOf, ResultsOf;
    AppliedAccounts(s.books, p, c, x);
  }

  /** An order by hand adds one line, to the audit log or to what was lost. */
  lemma LineOf(s: State, s': State, r: Option<Result>, logged: bool, x: Planned)
    requires s'.audit == if r.Some? && logged then s.audit + [r.value] else s.audit
    requires s'.lost == if r.Some? && !logged then s.lost + [r.value] else s.lost
    ensures ResultsOf(s'.audit, x) + ResultsOf(s'.lost, x)
         == ResultsOf(s.audit, x) + ResultsOf(s.lost, x) + ResultsOf(if r.Some? then [r.value] else [], x)
  {
    hide ResultsOf;
    NoResults(x);
    if r.Some? {
      ResultsConcat(s.audit, [r.value], x);
      ResultsConcat(s.lost, [r.value], x);
    }
  }

  lemma ExecuteAccounts(s: State, found: Option<Target>, c: Context, logged: bool, x: Planned)
    requires Accounts(s, x)
    ensures Accounts(Next(s, Execute(found, c, logged)), x)
  {
    hide CallsOf, ResultsOf, ByHand, HandoffOrder;
    DrainedNext(s, Execute(found, c, logged));
    hide Drained;
    if s.lock.Held? && found.Some? {
      var p := HandoffOrder(s.lock.handoff, found.value);
      ByHandAccounts(s, p, c, x);
      LineOf(s, Next(s, Execute(found, c, logged)), ByHand(s.books, p, c).1, logged, x);
    }
  }

  lemma ManualAccounts(s: State, order: Planned, c: Context, logged: bool, x: Planned)
    requires Accounts(s, x)
    ensures Accounts(Next(s, Manual(order, c, logged)), x)
  {
    hide CallsOf, ResultsOf, ByHand;
    DrainedNext(s, Manual(order, c, logged));
    hide Drained;
    var p := order.(playbookID := "");
    if s.lock.Free? {
      ByHandAccounts(s, p, c, x);
      LineOf(s, Next(s, Manual(order, c, logged)), ByHand(s.books, p, c).1, logged, x);
    }
  }

  /** The other steps call nothing and write no audit line. */
  lemma QuietAccounts(s: State, step: Step, x: Planned)
    requires Accounts(s, x)
    requires !step.Offer? && !step.Flush? && !step.Restart? && !step.Execute? && !step.Manual?
    ensures Accounts(Next(s, step), x)
  {
    hide CallsOf, ResultsOf, Plan, Ruling, UpsertAll, Upserted, OpenMarks, AskedAll, Asks, Handoffs.Decide;
    DrainedNext(s, step);
  }

  lemma AccountsNext(s: State, step: Step, x: Planned)
    requires Accounts(s, x)
    ensures Accounts(Next(s, step), x)
  {
    hide Accounts, Next;
    match step
    case Offer(c) => OfferAccounts(s, c, x);
    case Flush(failed) => FlushAccounts(s, failed, x);
    case Restart => RestartAccounts(s, x);
    case Execute(found, c, logged) => ExecuteAccounts(s, found, c, logged, x);
    case Manual(order, c, logged) => ManualAccounts(s, order, c, logged, x);
    case _ => QuietAccounts(s, step, x);
  }

  /** At every instant a live call is in the audit log, waits for its line, or its line was lost. */
  lemma {:induction false} EveryCallAccountedFor(steps: seq<Step>, p: Planned)
    ensures Accounts(After(steps), p)
  {
    if steps == [] {
      assert LiveCalls([]) == [] && LiveResults([]) == [];
    } else {
      hide Next, Accounts;
      EveryCallAccountedFor(steps[..|steps| - 1], p);
      AccountsNext(After(steps[..|steps| - 1]), steps[|steps| - 1], p);
    }
  }

  /** A result that stands for a live call. */
  predicate Live(r: Result) {
    !r.blocked && !r.dryRun
  }

  /** The order is about to touch the device. */
  predicate GoesLive(b: Books, p: Planned, c: Context) {
    && c.hasAdapter
    && Permits(c.enforcement, p.deviceID, p.action)
    && !Cooled(c.enforcement, LastActionAt(b.marks, p.deviceID, p.action), p.action, c.decideAt)
  }

  /**
    The step leaves a live call without an audit line: the process stops while a live result waits for the end of
    its cycle, or the line of a live result cannot be appended.
  */
  predicate LosesLine(s: State, step: Step) {
    match step
    case Restart => exists i :: 0 <= i < |s.books.results| && Live(s.books.results[i])
    case Flush(failed) =>
      && s.cycle.Some? && s.cycle.value.queue == [] && !s.cycle.value.closing
      && exists i :: 0 <= i < |s.books.results| && i in failed && Live(s.books.results[i])
    case Execute(found, c, logged) =>
      !logged && s.lock.Held? && found.Some? && GoesLive(s.books, HandoffOrder(s.lock.handoff, found.value), c)
    case Manual(order, c, logged) => !logged && s.lock.Free? && GoesLive(s.books, order, c)
    case _ => false
  }

  lemma {:induction false} LiveSome(rs: seq<Result>)
    ensures LiveResults(rs) != [] <==> exists i :: 0 <= i < |rs| && Live(rs[i])
  {
    if rs != [] {
      var n := |rs| - 1;
      LiveSome(rs[..n]);
      assert forall i :: 0 <= i < n ==> rs[..n][i] == rs[i];
    }
  }

  lemma {:induction false} UnwrittenSome(rs: seq<Result>, failed: set<nat>)
    ensures LiveResults(Unwritten(rs, failed)) != [] <==> exists i :: 0 <= i < |rs| && i in failed && Live(rs[i])
  {
    if rs != [] {
      var n := |rs| - 1;
      UnwrittenSome(rs[..n], failed);
      assert forall i :: 0 <= i < n ==> rs[..n][i] == rs[i];
      if n in failed {
        ConcatOne(Unwritten(rs[..n], failed), rs[n]);
      }
    }
  }

  lemma ByHandLive(b: Books, p: Planned, c: Context)
    ensures var r := ByHand(b, p, c).1;
            (if r.Some? then LiveResults([r.value]) else []) != [] <==> GoesLive(b, p, c)
  {
    DecideIsTheGate(c.enforcement, LastActionAt(b.marks, p.deviceID, p.action), p.deviceID, p.action, c.decideAt);
    var r := ByHand(b, p, c).1;
    if r.Some? {
      assert [r.value][..0] == [];
    }
  }

  /** A step loses a live line exactly when it is one of those the condition names. */
  lemma LostNext(s: State, step: Step)
    ensures LiveResults(Next(s, step).lost) == [] <==> LiveResults(s.lost) == [] && !LosesLine(s, step)
  {
    hide Live, GoesLive, LiveResults, Written, Unwritten, ByHand, HandoffOrder, Offered, Plan, Ruling, UpsertAll,
         Upserted, OpenMarks, AskedAll, Asks, Handoffs.Decide;
    match step
    case Restart =>
      LiveSome(s.books.results);
      LiveConcat(s.lost, s.books.results);
    case Flush(failed) =>
      UnwrittenSome(s.books.results, failed);
      LiveConcat(s.lost, Unwritten(s.books.results, failed));
    case Execute(found, c, logged) =>
      if s.lock.Held? && found.Some? {
        LostByHand(s, HandoffOrder(s.lock.handoff, found.value), c);
      }
    case Manual(order, c, logged) =>
      LostByHand(s, order.(playbookID := ""), c);
      GoesLiveWithout(s.books, order, c);
    case _ =>
  }

  lemma LostByHand(s: State, p: Planned, c: Context)
    ensures var r := ByHand(s.books, p, c).1;
            && (r.None? ==> !GoesLive(s.books, p, c))
            && (r.Some? ==> (LiveResults(s.lost + [r.value]) == [] <==> LiveResults(s.lost) == [] && !GoesLive(s.books, p, c)))
  {
    hide GoesLive, LiveResults, ByHand;
    ByHandLive(s.books, p, c);
    var r := ByHand(s.books, p, c).1;
    if r.Some? {
      LiveConcat(s.lost, [r.value]);
    }
  }

  lemma GoesLiveWithout(b: Books, p: Planned, c: Context)
    ensures GoesLive(b, p.(playbookID := ""), c) == GoesLive(b, p, c)
  {
  }

  /** No step of the run lost the line of a live call. */
  predicate NothingLost(steps: seq<Step>) {
    forall i :: 0 <= i < |steps| ==> !LosesLine(After(steps[..i]), steps[i])
  }

  lemma NothingLostSnoc(steps: seq<Step>)
    requires steps != []
    ensures var n := |steps| - 1;
            NothingLost(steps) <==> NothingLost(steps[..n]) && !LosesLine(After(steps[..n]), steps[n])
  {
    hide After, LosesLine;
    var n := |steps| - 1;
    assert forall i :: 0 <= i < n ==> steps[..n][..i] == steps[..i] && steps[..n][i] == steps[i];
  }

  lemma {:induction false} LostIff(steps: seq<Step>)
    ensures LiveResults(After(steps).lost) == [] <==> NothingLost(steps)
  {
    if steps == [] {
      assert LiveResults([]) == [];
    } else {
      hide Next, LosesLine, NothingLost;
      LostIff(steps[..|steps| - 1]);
      LostNext(After(steps[..|steps| - 1]), steps[|steps| - 1]);
      NothingLostSnoc(steps);
    }
  }

  /**
    At every instant the audit log and the results waiting for their line tell exactly the live calls, if and only
    if no step so far lost a line; between cycles nothing waits, so the audit log alone does.
  */
  lemma AuditIsExactIffNothingLost(steps: seq<Step>)
    ensures var s := After(steps);
            multiset(LiveCalls(s.books.calls)) == multiset(LiveResults(s.audit)) + multiset(LiveResults(s.books.results))
            <==> NothingLost(steps)
    ensures var s := After(steps);
            s.cycle.None? ==>
              (multiset(LiveCalls(s.books.calls)) == multiset(LiveResults(s.audit)) <==> NothingLost(steps))
  {
    hide After, NothingLost, Accounts;
    LostIff(steps);
    var s := After(steps);
    forall p ensures Accounts(s, p) {
      EveryCallAccountedFor(steps, p);
    }
    ExactIff(s);
    assert LiveResults([]) == [];
  }

  lemma ExactIff(s: State)
    requires forall p :: Accounts(s, p)
    ensures multiset(LiveCalls(s.books.calls)) == multiset(LiveResults(s.audit)) + multiset(LiveResults(s.books.results))
            <==> LiveResults(s.lost) == []
    ensures s.cycle.None? ==> s.books.results == []
  {
    var told := multiset(LiveResults(s.audit)) + multiset(LiveResults(s.books.results));
    var any: Planned :| true;
    assert Accounts(s, any);
    if LiveResults(s.lost) != [] {
      var p := LiveResults(s.lost)[0];
      assert Accounts(s, p) && p in multiset(LiveResults(s.lost));
      assert multiset(LiveCalls(s.books.calls))[p] > told[p];
    } else {
      forall p ensures multiset(LiveCalls(s.books.calls))[p] == told[p] {
        assert Accounts(s, p);
      }
    }
  }

  lemma FirstLock(t: Target, now: Time, p: Planned)
    requires p == Planned(t.id, t.provider, "lock", "", "", "policy")
    ensures After([StartCycle(now), Visit(t, [p], [], false)])
         == START.(cycle := Some(Cycle(now, [], [], [p], false)))
  {
    var s1 := [StartCycle(now)];
    assert s1 + [Visit(t, [p], [], false)] == [StartCycle(now), Visit(t, [p], [], false)] && s1[..0] == [];
    AfterSnoc(s1, Visit(t, [p], [], false));
    assert PlainOrders(t, [p]) == [p];
    assert Asks([], false) == [];
    assert Plan(t, [p], [], false) == [p];
    assert After(s1) == Next(START, StartCycle(now));
    assert AskedAll(After(s1).cycle.value, t, []) == After(s1).cycle.value;
  }

  lemma FirstOffer(p: Planned, c: Context)
    requires c.enforcement == Enforcement("enforce", ["lock"], false, [], 0) && c.hasAdapter && p.action == "lock"
    ensures Offered(START.books, p, c).calls == [Call(p, false, c.enforcement)]
  {
    DecideIsTheGate(c.enforcement, None, p.deviceID, "lock", c.decideAt);
  }

  lemma CutOff(s: State, p: Planned, c: Context)
    requires c.enforcement == Enforcement("enforce", ["lock"], false, [], 0) && c.hasAdapter && p.action == "lock"
    requires s.cycle.Some? && s.cycle.value.queue == [p] && s.books == START.books && s.audit == []
    ensures var s' := Next(Next(s, Offer(c)), Restart);
            s'.cycle.None? && LiveCalls(s'.books.calls) == [p] && s'.audit == []
  {
    FirstOffer(p, c);
    OneCall(Call(p, false, c.enforcement));
    hide LiveCalls, Offered;
  }

  /** A restart in the middle of a cycle can lose one: the device was locked and no audit line says so. */
  lemma RestartLosesAudit(t: Target, now: Time)
    ensures var p := Planned(t.id, t.provider, "lock", "", "", "policy");
            var e := Enforcement("enforce", ["lock"], false, [], 0);
            var s := After([StartCycle(now), Visit(t, [p], [], false), Offer(Context(e, now, now, true, true, true)), Restart]);
            s.cycle.None? && LiveCalls(s.books.calls) == [p] && s.audit == []
  {
    var p := Planned(t.id, t.provider, "lock", "", "", "policy");
    var e := Enforcement("enforce", ["lock"], false, [], 0);
    var c := Context(e, now, now, true, true, true);
    var s2, s3 := [StartCycle(now), Visit(t, [p], [], false)], [StartCycle(now), Visit(t, [p], [], false), Offer(c)];
    assert s2 + [Offer(c)] == s3 && s3 + [Restart] == [StartCycle(now), Visit(t, [p], [], false), Offer(c), Restart];
    FirstLock(t, now, p);
    AfterSnoc(s2, Offer(c));
    AfterSnoc(s3, Restart);
    hide Next, After;
    CutOff(After(s2), p, c);
  }

  lemma OneCall(k: Call)
    requires !k.dryRun
    ensures LiveCalls([k]) == [k.order]
  {
    assert [k][..0] == [];
  }

  lemma AuditGrowsBy(s: State, step: Step)
    ensures s.audit <= Next(s, step).audit && s.lost <= Next(s, step).lost
  {
    hide AskedAll, Plan, Asks, Offered, ByHand, Ruling, UpsertAll, OpenMarks, Upserted, Handoffs.Decide, Written, Unwritten;
  }

  /** A line of the audit log stays where it is, whatever happens next. */
  lemma {:induction false} AuditOnlyGrows(steps: seq<Step>, more: seq<Step>)
    ensures After(steps).audit <= After(steps + more).audit
  {
    if more == [] {
      assert steps + more == steps;
    } else {
      var n := |more| - 1;
      AuditOnlyGrows(steps, more[..n]);
      assert (steps + more)[..|steps + more| - 1] == steps + more[..n];
      AuditGrowsBy(After(steps + more[..n]), more[n]);
      hide Next;
    }
  }
}
