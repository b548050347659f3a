/** What the human gate guarantees over whole runs, for every interleaving. */
module HumanGateTheorems {
  import opened Base
  import opened Keys
  import opened Guardrails
  import opened Handoffs
  import opened HumanGate

  // -------- No human decision is lost --------

  lemma {:induction false} LogGrows(s: State, step: Step)
    ensures s.log <= Next(s, step).log
  {
    hide AskedAll, Offered, ByHand, Plan, Ruling, UpsertAll;
  }

  predicate SameDecision(f: Handoff, g: Handoff) {
    g.decidedAt == f.decidedAt && g.decidedBy == f.decidedBy
    && (g.status == f.status || (f.status == Approved && g.status == Status.Executed))
  }

  /** Nobody is running the request. */
  predicate Idle(s: State, id: string) {
    s.lock.Free? || s.lock.handoff.id != id
  }

  /** The step is the end of a cycle that began a day or more after the decision and puts the request back. */
  ghost predicate Reopening(s: State, step: Step, id: string, f: Handoff)
    requires f.decidedAt.Some?
  {
    && step.EndCycle? && s.cycle.Some? && s.cycle.value.now - f.decidedAt.value >= REOPEN_AFTER
    && Next(s, step).log == s.log + OpenMarks(s.cycle.value.added)
    && WasOpened(id, s.cycle.value.now) in OpenMarks(s.cycle.value.added)
    && Find(Next(s, step).inbox, id).Some? && Find(Next(s, step).inbox, id).value.status == Pending
  }

  lemma EndCycleKept(s: State, readOK: bool, writeOK: bool, id: string)
    requires Invariant(s) && Find(s.inbox, id).Some? && Find(s.inbox, id).value.decidedAt.Some?
    ensures Find(Next(s, EndCycle(readOK, writeOK)).inbox, id) == Find(s.inbox, id)
            || Reopening(s, EndCycle(readOK, writeOK), id, Find(s.inbox, id).value)
  {
    if s.cycle.Some? {
      var c := s.cycle.value;
      assert Sound(s.inbox) && Sound(c.added) && Coherent(c, s.inbox, id);
      hide StageOf, Shows, Sound, Find, UpsertAll, Coherent, OpenMarks, Invariant;
      AddedKept(c, s.inbox, id);
    }
  }

  lemma AddedKept(c: Cycle, inbox: seq<Handoff>, id: string)
    requires Sound(inbox) && Sound(c.added) && Coherent(c, inbox, id)
    requires Find(inbox, id).Some? && Find(inbox, id).value.decidedAt.Some?
    ensures var g := Find(UpsertAll(inbox, c.added), id);
            || g == Find(inbox, id)
            || (&& g.Some? && g.value.status == Pending && WasOpened(id, c.now) in OpenMarks(c.added)
                && c.now - Find(inbox, id).value.decidedAt.value >= REOPEN_AFTER)
  {
    UpsertAllIs(inbox, c.added, id);
    if Find(c.added, id).Some? {
      hide Sound, UpsertAll, OpenMarks;
      MarkOfAdded(c.added, id);
    }
  }

  lemma MarkOfAdded(added: seq<Handoff>, id: string)
    requires Find(added, id).Some?
    ensures WasOpened(id, Find(added, id).value.requestedAt) in OpenMarks(added)
  {
    FindIs(added, id);
    var i :| 0 <= i < |added| && added[i] == Find(added, id).value;
    assert OpenMarks(added)[i] == WasOpened(id, added[i].requestedAt);
  }

  /** A new ruling is about a waiting request, so it leaves every decided one in place. */
  lemma RulingSpares(s: State, k: string, to: Status, who: string, note: string, at: Time, id: string)
    requires Invariant(s) && Find(s.inbox, id).Some? && Find(s.inbox, id).value.status != Pending
    requires Ruling(s, k, to, who, note, at).Some? && to != Status.Executed
    ensures Find(Upserted(s.inbox, Ruling(s, k, to, who, note, at).value), id) == Find(s.inbox, id)
  {
    hide Coherent, Shows, StageOf;
    SoundFind(s.inbox, k);
    FindUpserted(s.inbox, Ruling(s, k, to, who, note, at).value, id);
  }

  /** Marking a request as executed keeps its seal. */
  lemma FinishSeals(h: Handoff, r: Result, who: string, at: Time)
    requires h.status == Approved
    ensures var d := Handoffs.Decide(h, Status.Executed, who, "", at);
            d.Ok? && SameDecision(h, d.handoff.(result := Some(r))) && d.handoff.id == h.id
  {
  }

  lemma FinishKept(s: State, who: string, at: Time, saved: bool, id: string)
    requires Sound(s.inbox) && LockInvariant(s) && Find(s.inbox, id).Some?
    ensures var g := Find(Next(s, Finish(who, at, saved)).inbox, id);
            && g.Some? && SameDecision(Find(s.inbox, id).value, g.value)
            && (Idle(s, id) ==> g == Find(s.inbox, id))
  {
    hide Sound, Find, StageOf, Upserted, Handoffs.Decide;
    if s.lock.Ran? && saved {
      var h := s.lock.handoff;
      SoundFind(s.inbox, h.id);
      FinishSeals(h, s.lock.result, who, at);
      FindUpserted(s.inbox, Handoffs.Decide(h, Status.Executed, who, "", at).handoff.(result := Some(s.lock.result)), id);
    }
  }

  lemma ApproveKept(s: State, k: string, who: string, note: string, at: Time, saved: bool, id: string)
    requires Invariant(s) && Find(s.inbox, id).Some? && Find(s.inbox, id).value.status != Pending
    ensures Find(Next(s, Approve(k, who, note, at, saved)).inbox, id) == Find(s.inbox, id)
  {
    hide Ruling, Upserted, Find, Invariant;
    if Ruling(s, k, Approved, who, note, at).Some? {
      RulingSpares(s, k, Approved, who, note, at, id);
    }
  }

  lemma RejectKept(s: State, k: string, who: string, note: string, at: Time, saved: bool, id: string)
    requires Invariant(s) && Find(s.inbox, id).Some? && Find(s.inbox, id).value.status != Pending
    ensures Find(Next(s, Reject(k, who, note, at, saved)).inbox, id) == Find(s.inbox, id)
  {
    hide Ruling, Upserted, Find, Invariant;
    if Ruling(s, k, Rejected, who, note, at).Some? {
      RulingSpares(s, k, Rejected, who, note, at, id);
    }
  }

  /** The other steps do not touch the inbox. */
  lemma QuietInbox(s: State, step: Step)
    requires !step.EndCycle? && !step.Finish? && !step.Approve? && !step.Reject?
    ensures Next(s, step).inbox == s.inbox
  {
    hide AskedAll, Offered, ByHand, Plan, Written, Unwritten;
  }

  /** One step keeps a decision, or it is the end of a cycle that began a day or more after the decision. */
  lemma DecisionKept(s: State, step: Step, id: string)
    requires Invariant(s) && Find(s.inbox, id).Some? && Find(s.inbox, id).value.decidedAt.Some?
    ensures var f := Find(s.inbox, id).value;
            var g := Find(Next(s, step).inbox, id);
            (g.Some? && SameDecision(f, g.value)) || Reopening(s, step, id, f)
    ensures (step.Finish? ==> Idle(s, id)) && !Reopening(s, step, id, Find(s.inbox, id).value) ==>
              Find(Next(s, step).inbox, id) == Find(s.inbox, id)
  {
    SoundFind(s.inbox, id);
    assert Sound(s.inbox) && LockInvariant(s);
    hide Next, Find, Invariant, Reopening, Sound, LockInvariant, Idle;
    match step
    case EndCycle(readOK, writeOK) => EndCycleKept(s, readOK, writeOK, id);
    case Finish(who, at, saved) => FinishKept(s, who, at, saved, id);
    case Approve(k, who, note, at, saved) => ApproveKept(s, k, who, note, at, saved, id);
    case Reject(k, who, note, at, saved) => RejectKept(s, k, who, note, at, saved, id);
    case _ => QuietInbox(s, step);
  }

  /** The id was opened again, by a cycle whose clock is a day or more after `t`, since the log had length `n`. */
  ghost predicate ReopenedSince(log: seq<Mark>, n: nat, id: string, t: Time) {
    exists k :: n <= k < |log| && log[k].WasOpened? && log[k].id == id && log[k].at - t >= REOPEN_AFTER
  }

  lemma AfterConcat(steps: seq<Step>, more: seq<Step>)
    requires more != []
    ensures After(steps + more) == Next(After(steps + more[..|more| - 1]), more[|more| - 1])
  {
    assert (steps + more)[..|steps + more| - 1] == steps + more[..|more| - 1];
  }

  lemma AfterSnoc(steps: seq<Step>, step: Step)
    ensures After(steps + [step]) == Next(After(steps), step)
  {
    assert (steps + [step])[..|steps|] == steps;
  }

  lemma AfterTwo(steps: seq<Step>, a: Step, b: Step)
    ensures After(steps + [a, b]) == Next(Next(After(steps), a), b)
  {
    hide Next, After;
    AfterSnoc(steps, a);
    AfterSnoc(steps + [a], b);
    assert steps + [a, b] == (steps + [a]) + [b];
  }

  lemma {:induction false} LogPrefix(steps: seq<Step>, more: seq<Step>)
    ensures After(steps).log <= After(steps + more).log
  {
    if more == [] {
      assert steps + more == steps;
    } else {
      hide Next;
      LogPrefix(steps, more[..|more| - 1]);
      AfterConcat(steps, more);
      LogGrows(After(steps + more[..|more| - 1]), more[|more| - 1]);
    }
  }

  /** A stored decision stays, with its decider and its instant, until a cycle a day later reopens its id. */
  lemma {:induction false} NoDecisionIsLost(steps: seq<Step>, more: seq<Step>, id: string)
    requires Find(After(steps).inbox, id).Some? && Find(After(steps).inbox, id).value.decidedAt.Some?
    ensures var f := Find(After(steps).inbox, id).value;
            var g := Find(After(steps + more).inbox, id);
            && g.Some?
            && (SameDecision(f, g.value)
                || ReopenedSince(After(steps + more).log, |After(steps).log|, id, f.decidedAt.value))
  {
    if more == [] {
      assert steps + more == steps;
    } else {
      var n := |more| - 1;
      var f := Find(After(steps).inbox, id).value;
      NoDecisionIsLost(steps, more[..n], id);
      AfterConcat(steps, more);
      LogPrefix(steps, more[..n]);
      NoDecisionIsLostStep(After(steps).log, steps + more[..n], more[n], f, id);
    }
  }

  lemma ReopeningMarks(s: State, step: Step, id: string, f: Handoff, n: nat)
    requires f.decidedAt.Some? && Reopening(s, step, id, f) && n <= |s.log|
    ensures ReopenedSince(Next(s, step).log, n, id, f.decidedAt.value)
  {
    hide Next, OpenMarks;
    var marks := OpenMarks(s.cycle.value.added);
    var i :| 0 <= i < |marks| && marks[i] == WasOpened(id, s.cycle.value.now);
    assert Next(s, step).log[|s.log| + i] == marks[i];
  }

  lemma NoDecisionIsLostStep(log0: seq<Mark>, steps: seq<Step>, step: Step, f: Handoff, id: string)
    requires f.decidedAt.Some? && log0 <= After(steps).log
    requires Find(After(steps).inbox, id).Some?
    requires SameDecision(f, Find(After(steps).inbox, id).value)
             || ReopenedSince(After(steps).log, |log0|, id, f.decidedAt.value)
    ensures var s' := Next(After(steps), step);
            && Find(s'.inbox, id).Some?
            && (SameDecision(f, Find(s'.inbox, id).value) || ReopenedSince(s'.log, |log0|, id, f.decidedAt.value))
  {
    hide After, Invariant, Next, OpenMarks;
    var s := After(steps);
    Always(steps);
    LogGrows(s, step);
    FindKept(s, step, id);
    if ReopenedSince(s.log, |log0|, id, f.decidedAt.value) {
      var k :| |log0| <= k < |s.log| && s.log[k].WasOpened? && s.log[k].id == id && s.log[k].at - f.decidedAt.value >= REOPEN_AFTER;
      assert Next(s, step).log[k] == s.log[k];
    } else {
      DecisionKept(s, step, id);
      if Reopening(s, step, id, Find(s.inbox, id).value) {
        ReopeningMarks(s, step, id, Find(s.inbox, id).value, |log0|);
      }
    }
  }

  /** No step takes a request out of the inbox. */
  lemma FindKept(s: State, step: Step, id: string)
    requires Invariant(s) && Find(s.inbox, id).Some?
    ensures Find(Next(s, step).inbox, id).Some?
  {
    NextKeeps(s, step);
    assert Shows(Find(s.inbox, id), StageOf(s.log, id));
    assert Shows(Find(Next(s, step).inbox, id), StageOf(Next(s, step).log, id));
    StageNeverNothing(s, step, id);
  }

  lemma {:induction false} StageNeverNothingAppend(log: seq<Mark>, more: seq<Mark>, id: string)
    requires StageOf(log, id) != Nothing
    ensures StageOf(log + more, id) != Nothing
  {
    if more == [] {
      assert log + more == log;
    } else {
      StageNeverNothingAppend(log, more[..|more| - 1], id);
      assert log + more == (log + more[..|more| - 1]) + [more[|more| - 1]];
      StageSnoc(log + more[..|more| - 1], more[|more| - 1], id);
    }
  }

  lemma StageNeverNothing(s: State, step: Step, id: string)
    requires StageOf(s.log, id) != Nothing
    ensures StageOf(Next(s, step).log, id) != Nothing
  {
    LogGrows(s, step);
    var more := Next(s, step).log[|s.log|..];
    StageNeverNothingAppend(s.log, more, id);
    assert s.log + more == Next(s, step).log;
  }

  /** Ids stay unique, so at most one request waits per device, playbook and action. */
  lemma OnePending(steps: seq<Step>, i: nat, j: nat)
    requires var hs := After(steps).inbox;
             && i < |hs| && j < |hs| && hs[i].status == Pending && hs[j].status == Pending
             && hs[i].deviceID == hs[j].deviceID && hs[i].playbookID == hs[j].playbookID && hs[i].action == hs[j].action
    ensures i == j
  {
    Always(steps);
    OnePendingPerTriple(After(steps).inbox, i, j);
  }

  // -------- Openings, decisions, executions --------

  datatype Kind = Opening | Approval | Rejection | Calling

  function KindOf(m: Mark): Kind {
    match m
    case WasOpened(_, _) => Opening
    case WasApproved(_, _) => Approval
    case WasRejected(_, _) => Rejection
    case WasCalled(_) => Calling
  }

  function CountOf(log: seq<Mark>, id: string, k: Kind): nat {
    if log == [] then 0
    else
      var m := log[|log| - 1];
      CountOf(log[..|log| - 1], id, k) + (if m.id == id && KindOf(m) == k then 1 else 0)
  }

  lemma {:induction false} LegalCounts(log: seq<Mark>, id: string)
    requires StageOf(log, id) != Illegal
    ensures CountOf(log, id, Opening)
         == CountOf(log, id, Approval) + CountOf(log, id, Rejection) + (if StageOf(log, id) == Waiting then 1 else 0)
    ensures CountOf(log, id, Calling) + (if StageOf(log, id) == Granted then 1 else 0) <= CountOf(log, id, Approval)
  {
    if log != [] {
      LegalCounts(log[..|log| - 1], id);
    }
  }

  /** Per request id: calls are at most approvals, and openings are conserved by decisions. */
  lemma ExecutionsBounded(steps: seq<Step>, id: string)
    ensures var log := After(steps).log;
            var h := Find(After(steps).inbox, id);
            && CountOf(log, id, Calling) <= CountOf(log, id, Approval) <= CountOf(log, id, Opening)
            && CountOf(log, id, Opening) == CountOf(log, id, Approval) + CountOf(log, id, Rejection)
                                            + (if h.Some? && h.value.status == Pending then 1 else 0)
  {
    Always(steps);
    assert Shows(Find(After(steps).inbox, id), StageOf(After(steps).log, id));
    LegalCounts(After(steps).log, id);
  }

  lemma {:induction false} WaitingOpened(log: seq<Mark>, id: string, i: nat) returns (k: nat)
    requires i < |log| && log[i].id == id && log[i].WasRejected? && StageOf(log, id) == Waiting
    ensures i < k < |log| && log[k].id == id && log[k].WasOpened?
  {
    var n := |log| - 1;
    if log[n].id == id && log[n].WasOpened? {
      k := n;
    } else {
      k := WaitingOpened(log[..n], id, i);
    }
  }

  lemma {:induction false} GrantedOpened(log: seq<Mark>, id: string, i: nat) returns (k: nat, l: nat)
    requires i < |log| && log[i].id == id && log[i].WasRejected? && StageOf(log, id) == Granted
    ensures i < k < l < |log| && log[k].id == id && log[k].WasOpened? && log[l].id == id && log[l].WasApproved?
  {
    var n := |log| - 1;
    if log[n].id == id {
      l := n;
      k := WaitingOpened(log[..n], id, i);
    } else {
      k, l := GrantedOpened(log[..n], id, i);
    }
  }

  lemma {:induction false} LegalPrefix(log: seq<Mark>, id: string, n: nat)
    requires n <= |log| && StageOf(log, id) != Illegal
    ensures StageOf(log[..n], id) != Illegal
  {
    if n < |log| {
      LegalPrefix(log[..|log| - 1], id, n);
      assert log[..|log| - 1][..n] == log[..n];
    } else {
      assert log[..n] == log;
    }
  }

  /** A rejected opening never executes: a later call has its own opening and its own approval in between. */
  lemma RejectedNeverRuns(steps: seq<Step>, id: string, i: nat, j: nat) returns (k: nat, l: nat)
    requires var log := After(steps).log;
             i < j < |log| && log[i].id == id && log[i].WasRejected? && log[j].id == id && log[j].WasCalled?
    ensures var log := After(steps).log;
            i < k < l < j && log[k].id == id && log[k].WasOpened? && log[l].id == id && log[l].WasApproved?
  {
    var log := After(steps).log;
    Always(steps);
    assert Shows(Find(After(steps).inbox, id), StageOf(log, id));
    LegalPrefix(log, id, j + 1);
    assert log[..j + 1][..j] == log[..j];
    k, l := GrantedOpened(log[..j], id, i);
  }

  // -------- Connector calls --------

  lemma OfferedCalls(b: Books, p: Planned, c: Context)
    ensures var b' := Offered(b, p, c);
            b'.calls == b.calls || (|b'.calls| == |b.calls| + 1 && b'.calls[..|b.calls|] == b.calls
                                    && b'.calls[|b.calls|].order == p && GatedCall(b'.calls[|b.calls|]))
  {
    AppliedBooks(b.(fired := b.fired + {FireKey(p)}, planned := b.planned + 1), p, c);
  }

  lemma {:induction false} SoarHarmless(t: Target, asks: seq<Ask>)
    ensures forall p :: p in SoarOrders(t, asks) ==> !Destructive(p.action)
  {
    if asks != [] {
      SoarHarmless(t, asks[..|asks| - 1]);
    }
  }

  /** A destructive order that names a playbook. */
  predicate PlaybookStrike(p: Planned) {
    Destructive(p.action) && p.playbookID != ""
  }

  lemma PlanHasNoStrike(t: Target, plain: seq<Planned>, ps: seq<Playbook>, failed: bool)
    ensures forall p :: p in Plan(t, plain, ps, failed) ==> !PlaybookStrike(p)
  {
    SoarHarmless(t, Asks(ps, failed));
  }

  lemma ByHandCalls(b: Books, p: Planned, c: Context)
    ensures var (b', r) := ByHand(b, p, c);
            && (b'.calls == b.calls || (|b'.calls| == |b.calls| + 1 && b'.calls[..|b.calls|] == b.calls
                                        && b'.calls[|b.calls|].order == p && GatedCall(b'.calls[|b.calls|])))
            && (r.None? ==> b'.calls == b.calls)
  {
    AppliedBooks(b, p, c);
  }

  /** Every new call is gated, and a destructive one with a playbook comes from a stored, approved request. */
  lemma NewCalls(s: State, step: Step, i: nat)
    requires Invariant(s) && StrikableState(s) && |s.books.calls| <= i < |Next(s, step).books.calls|
    ensures s.books.calls <= Next(s, step).books.calls
    ensures var k := Next(s, step).books.calls[i];
            && GatedCall(k)
            && (PlaybookStrike(k.order) ==>
                  && step.Execute? && s.lock.Held?
                  && var h := s.lock.handoff;
                     && Find(s.inbox, h.id) == Some(h) && h.status == Approved && h.decidedAt.Some?
                     && h.id == HandoffID(k.order.deviceID, k.order.playbookID, k.order.action)
                     && Next(s, step).log == s.log + [WasCalled(h.id)])
  {
    hide AskedAll, Ruling, UpsertAll, Asks, Plan, Written, Unwritten, OpenMarks, Offered, ByHand, GatedCall, Upserted,
         Coherent, Shows, StageOf, Find;
    match step
    case Offer(c) =>
      if s.cycle.Some? && s.cycle.value.queue != [] {
        OfferedCalls(s.books, s.cycle.value.queue[0], c);
      }
    case Execute(found, c, _) =>
      if s.lock.Held? && found.Some? {
        SoundFind(s.inbox, s.lock.handoff.id);
        ByHandCalls(s.books, HandoffOrder(s.lock.handoff, found.value), c);
      }
    case Manual(order, c, _) =>
      ByHandCalls(s.books, order.(playbookID := ""), c);
    case _ =>
  }

  lemma CallsGrow(s: State, step: Step)
    requires Invariant(s)
    ensures s.books.calls <= Next(s, step).books.calls
  {
    hide AskedAll, Ruling, UpsertAll, Asks, Plan, Written, Unwritten, OpenMarks, Offered, ByHand, GatedCall, Upserted,
         Coherent, Shows, StageOf, Find;
    match step
    case Offer(c) =>
      if s.cycle.Some? && s.cycle.value.queue != [] {
        OfferedCalls(s.books, s.cycle.value.queue[0], c);
      }
    case Execute(found, c, _) =>
      if s.lock.Held? && found.Some? {
        ByHandCalls(s.books, HandoffOrder(s.lock.handoff, found.value), c);
      }
    case Manual(order, c, _) =>
      ByHandCalls(s.books, order.(playbookID := ""), c);
    case _ =>
  }

  lemma {:induction false} AlwaysStrikable(steps: seq<Step>)
    ensures StrikableState(After(steps))
  {
    if steps != [] {
      hide Next, Invariant, StrikableState;
      AlwaysStrikable(steps[..|steps| - 1]);
      Always(steps[..|steps| - 1]);
      StrikableNext(After(steps[..|steps| - 1]), steps[|steps| - 1]);
    }
  }

  /** On all three entry paths, over every run: a live call had enforce mode, a listed action and the wipe keys. */
  lemma {:induction false} EveryLiveCallPermitted(steps: seq<Step>)
    ensures forall k :: k in After(steps).books.calls ==> GatedCall(k)
  {
    if steps != [] {
      hide Next, GatedCall, Invariant, StrikableState;
      var n := |steps| - 1;
      EveryLiveCallPermitted(steps[..n]);
      AlwaysStrikable(steps[..n]);
      Always(steps[..n]);
      var s, s' := After(steps[..n]), After(steps);
      CallsGrow(s, steps[n]);
      forall k | k in s'.books.calls ensures GatedCall(k) {
        var i :| 0 <= i < |s'.books.calls| && s'.books.calls[i] == k;
        if i < |s.books.calls| {
          assert s.books.calls[i] == k;
        } else {
          NewCalls(s, steps[n], i);
        }
      }
    }
  }

  /** The ids of the destructive playbook calls, in call order. */
  function Strikes(calls: seq<Call>): seq<string> {
    if calls == [] then []
    else
      var p := calls[|calls| - 1].order;
      Strikes(calls[..|calls| - 1])
      + (if PlaybookStrike(p) then [HandoffID(p.deviceID, p.playbookID, p.action)] else [])
  }

  function CalledIDs(log: seq<Mark>): seq<string> {
    if log == [] then []
    else CalledIDs(log[..|log| - 1]) + (if log[|log| - 1].WasCalled? then [log[|log| - 1].id] else [])
  }

  /** Requests are only for destructive actions of named playbooks. */
  predicate Strikable(hs: seq<Handoff>) {
    forall i :: 0 <= i < |hs| ==> Destructive(hs[i].action) && hs[i].playbookID != ""
  }

  lemma StrikableUpsert(hs: seq<Handoff>, h: Handoff)
    requires Strikable(hs) && Destructive(h.action) && h.playbookID != ""
    ensures Strikable(Upserted(hs, h))
  {
    UpsertedAt(hs, h);
    ReplacedAt(hs, h);
  }

  lemma {:induction false} AsksNamed(ps: seq<Playbook>)
    ensures forall a :: a in MatchAll(ps) ==> a.playbookID != ""
  {
    if ps != [] {
      AsksNamed(ps[..|ps| - 1]);
    }
  }

  lemma {:induction false} StrikableAsked(c: Cycle, t: Target, asks: seq<Ask>)
    requires Strikable(c.added) && forall a :: a in asks ==> a.playbookID != ""
    ensures Strikable(AskedAll(c, t, asks).added)
  {
    if asks != [] {
      StrikableAsked(c, t, asks[..|asks| - 1]);
    }
  }

  lemma {:induction false} StrikableAll(hs: seq<Handoff>, added: seq<Handoff>)
    requires Strikable(hs) && Strikable(added)
    ensures Strikable(UpsertAll(hs, added))
  {
    if added != [] {
      StrikableAll(hs, added[..|added| - 1]);
      StrikableUpsert(UpsertAll(hs, added[..|added| - 1]), added[|added| - 1]);
    }
  }

  /** Requests are strikable, and no order the cycle will apply on its own is a strike. */
  ghost predicate StrikableState(s: State) {
    && Strikable(s.inbox)
    && (s.cycle.Some? ==>
          && Strikable(s.cycle.value.added)
          && forall i :: 0 <= i < |s.cycle.value.queue| ==> !PlaybookStrike(s.cycle.value.queue[i]))
  }

  lemma StrikableVisit(s: State, t: Target, plain: seq<Planned>, ps: seq<Playbook>, failed: bool)
    requires StrikableState(s)
    ensures StrikableState(Next(s, Visit(t, plain, ps, failed)))
  {
    hide Plan, MatchAll, AskedAll, PlaybookStrike, Strikable;
    if s.cycle.Some? {
      PlanHasNoStrike(t, plain, ps, failed);
      AsksNamed(ps);
      StrikableAsked(s.cycle.value, t, Asks(ps, failed));
    }
  }

  lemma StrikableOffer(s: State, c: Context)
    requires StrikableState(s)
    ensures StrikableState(Next(s, Offer(c)))
  {
    hide Offered, PlaybookStrike, Strikable;
  }

  lemma StrikableEnd(s: State, readOK: bool, writeOK: bool)
    requires StrikableState(s)
    ensures StrikableState(Next(s, EndCycle(readOK, writeOK)))
  {
    hide Strikable, UpsertAll, OpenMarks;
    if s.cycle.Some? {
      StrikableAll(s.inbox, s.cycle.value.added);
    }
  }

  lemma StrikableFound(hs: seq<Handoff>, id: string)
    requires Strikable(hs) && Find(hs, id).Some?
    ensures Destructive(Find(hs, id).value.action) && Find(hs, id).value.playbookID != ""
  {
    FindIs(hs, id);
  }

  lemma StrikableRuling(s: State, id: string, to: Status, who: string, note: string, at: Time)
    requires Strikable(s.inbox) && Ruling(s, id, to, who, note, at).Some?
    ensures Strikable(Upserted(s.inbox, Ruling(s, id, to, who, note, at).value))
  {
    hide Strikable, Destructive, Find, Upserted;
    StrikableFound(s.inbox, id);
    StrikableUpsert(s.inbox, Ruling(s, id, to, who, note, at).value);
  }

  lemma StrikableFinish(s: State, who: string, at: Time, saved: bool)
    requires LockInvariant(s) && StrikableState(s)
    ensures StrikableState(Next(s, Finish(who, at, saved)))
  {
    hide Strikable, Destructive, Find, Upserted, StageOf, PlaybookStrike;
    if s.lock.Ran? && saved {
      var h := s.lock.handoff;
      StrikableFound(s.inbox, h.id);
      StrikableUpsert(s.inbox, Handoffs.Decide(h, Status.Executed, who, "", at).handoff.(result := Some(s.lock.result)));
    }
  }

  lemma StrikableNext(s: State, step: Step)
    requires Invariant(s) && StrikableState(s)
    ensures StrikableState(Next(s, step))
  {
    match step
    case Visit(t, plain, ps, failed) => StrikableVisit(s, t, plain, ps, failed);
    case Offer(c) => StrikableOffer(s, c);
    case EndCycle(readOK, writeOK) => StrikableEnd(s, readOK, writeOK);
    case Finish(who, at, saved) => StrikableFinish(s, who, at, saved);
    case Approve(id, who, note, at, _) => StrikableRulings(s, step, id, Approved, who, note, at);
    case Reject(id, who, note, at, _) => StrikableRulings(s, step, id, Rejected, who, note, at);
    case _ => StrikableQuiet(s, step);
  }

  lemma StrikableRulings(s: State, step: Step, id: string, to: Status, who: string, note: string, at: Time)
    requires StrikableState(s)
    requires (step.Approve? && step == Approve(id, who, note, at, step.saved) && to == Approved)
             || (step.Reject? && step == Reject(id, who, note, at, step.saved) && to == Rejected)
    ensures StrikableState(Next(s, step))
  {
    hide Strikable, Ruling, Upserted, PlaybookStrike;
    if Ruling(s, id, to, who, note, at).Some? {
      StrikableRuling(s, id, to, who, note, at);
    }
  }

  /** The other steps bring no request and no order. */
  lemma StrikableQuiet(s: State, step: Step)
    requires StrikableState(s)
    requires step.StartCycle? || step.Flush? || step.Execute? || step.Manual? || step.Restart?
    ensures StrikableState(Next(s, step))
  {
    hide Strikable, ByHand, PlaybookStrike, Written, Unwritten, HandoffOrder;
    assert Strikable([]) by {
      StrikableEmpty();
    }
  }

  lemma StrikableEmpty()
    ensures Strikable([])
  {
  }

  lemma {:induction false} StrikesNone(calls: seq<Call>, n: nat)
    requires n <= |calls| && forall i :: n <= i < |calls| ==> !PlaybookStrike(calls[i].order)
    ensures Strikes(calls) == Strikes(calls[..n])
  {
    if n == |calls| {
      assert calls[..n] == calls;
    } else {
      StrikesNone(calls[..|calls| - 1], n);
      assert calls[..|calls| - 1][..n] == calls[..n];
    }
  }

  lemma CalledConcat(log: seq<Mark>, m: Mark)
    ensures CalledIDs(log + [m]) == CalledIDs(log) + (if m.WasCalled? then [m.id] else [])
  {
    assert (log + [m])[..|log|] == log;
  }

  lemma {:induction false} CalledOpen(log: seq<Mark>, added: seq<Handoff>)
    ensures CalledIDs(log + OpenMarks(added)) == CalledIDs(log)
  {
    if added == [] {
      assert log + OpenMarks(added) == log;
    } else {
      var n := |added| - 1;
      CalledOpen(log, added[..n]);
      assert log + OpenMarks(added) == (log + OpenMarks(added[..n])) + [WasOpened(added[n].id, added[n].requestedAt)];
      CalledConcat(log + OpenMarks(added[..n]), WasOpened(added[n].id, added[n].requestedAt));
    }
  }

  lemma StrikesNext(s: State, step: Step)
    requires Invariant(s) && StrikableState(s) && Strikes(s.books.calls) == CalledIDs(s.log)
    ensures Strikes(Next(s, step).books.calls) == CalledIDs(Next(s, step).log)
  {
    var s' := Next(s, step);
    CallsGrow(s, step);
    if step.Execute? {
      StrikesExecute(s, step);
    } else {
      forall i | |s.books.calls| <= i < |s'.books.calls| ensures !PlaybookStrike(s'.books.calls[i].order) {
        NewCalls(s, step, i);
      }
      StrikesNone(s'.books.calls, |s.books.calls|);
      assert s'.books.calls[..|s.books.calls|] == s.books.calls;
      QuietLog(s, step);
    }
  }

  lemma QuietLog(s: State, step: Step)
    requires !step.Execute?
    ensures CalledIDs(Next(s, step).log) == CalledIDs(s.log)
  {
    hide AskedAll, Offered, ByHand, Plan, Ruling, UpsertAll;
    match step
    case EndCycle(_, _) =>
      if s.cycle.Some? {
        CalledOpen(s.log, s.cycle.value.added);
      }
    case Approve(id, _, _, at, _) => CalledConcat(s.log, WasApproved(id, at));
    case Reject(id, _, _, at, _) => CalledConcat(s.log, WasRejected(id, at));
    case _ =>
  }

  lemma StrikesExecute(s: State, step: Step)
    requires Invariant(s) && StrikableState(s) && step.Execute? && Strikes(s.books.calls) == CalledIDs(s.log)
    ensures Strikes(Next(s, step).books.calls) == CalledIDs(Next(s, step).log)
  {
    if s.lock.Held? && step.found.Some? {
      var h := s.lock.handoff;
      var p := HandoffOrder(h, step.found.value);
      SoundFind(s.inbox, h.id);
      FindIs(s.inbox, h.id);
      ByHandCalls(s.books, p, step.context);
      CalledConcat(s.log, WasCalled(h.id));
    }
  }

  /** Call for call, the destructive orders of playbooks that reached a connector are the approved requests' own. */
  lemma {:induction false} StrikesAreApprovedCalls(steps: seq<Step>)
    ensures Strikes(After(steps).books.calls) == CalledIDs(After(steps).log)
  {
    if steps != [] {
      hide Next, Invariant, Strikes, CalledIDs, StrikableState;
      var n := |steps| - 1;
      StrikesAreApprovedCalls(steps[..n]);
      Always(steps[..n]);
      AlwaysStrikable(steps[..n]);
      StrikesNext(After(steps[..n]), steps[n]);
    }
  }
}
