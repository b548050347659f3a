/** The engine's handoff methods, step by step, against the state machine of the human gate (internal/engine). */
module GateEngine {
  import opened Base
  import opened Keys
  import opened Guardrails
  import opened Handoffs
  import opened HumanGate

  /** What a starting cycle changes, field by field. */
  lemma StartsAs(s: State, s': State, now: Time)
    requires s.cycle.None? && s'.cycle == Some(Cycle(now, s.inbox, [], [], false))
    requires s'.inbox == s.inbox && s'.lock == s.lock && s'.audit == s.audit && s'.lost == s.lost && s'.log == s.log
    requires s'.books == Books(s.books.marks, [], s.books.calls, {}, 0, 0, 0, 0)
    ensures s' == Next(s, Step.StartCycle(now))
  {
  }

  /** The three steps of one approval under one lock. */
  function Approval(s: State, id: string, who: string, note: string, at: Time, saved: bool,
                    found: Option<Target>, c: Context, logged: bool, doneAt: Time, doneSaved: bool): State {
    Next(Next(Next(s, Approve(id, who, note, at, saved)), Execute(found, c, logged)), Finish(who, doneAt, doneSaved))
  }

  lemma ApprovalRefused(s: State, id: string, who: string, note: string, at: Time, saved: bool,
                        found: Option<Target>, c: Context, logged: bool, doneAt: Time, doneSaved: bool)
    requires s.lock.Free? && (Ruling(s, id, Approved, who, note, at).None? || !saved)
    ensures Approval(s, id, who, note, at, saved, found, c, logged, doneAt, doneSaved) == s
  {
    hide Ruling;
  }

  /** The inbox after the last step of an approval: the result is kept with the request unless the write fails. */
  function Finished(hs: seq<Handoff>, h: Handoff, r: Result, who: string, at: Time, saved: bool): seq<Handoff> {
    var done := Handoffs.Decide(h, Status.Executed, who, "", at);
    if done.Ok? && saved then Upserted(hs, done.handoff.(result := Some(r))) else hs
  }

  lemma ApprovalRuns(s: State, id: string, who: string, note: string, at: Time,
                     found: Option<Target>, c: Context, logged: bool, doneAt: Time, doneSaved: bool)
    requires s.lock.Free? && Ruling(s, id, Approved, who, note, at).Some?
    ensures var d := Ruling(s, id, Approved, who, note, at).value;
            var s1 := s.(inbox := Upserted(s.inbox, d), log := s.log + [WasApproved(id, at)]);
            Approval(s, id, who, note, at, true, found, c, logged, doneAt, doneSaved) ==
              if found.None? || ByHand(s.books, HandoffOrder(d, found.value), c).1.None? then s1
              else
                var (b, r) := ByHand(s.books, HandoffOrder(d, found.value), c);
                s1.(books := b, audit := if logged then s.audit + [r.value] else s.audit,
                    lost := if logged then s.lost else s.lost + [r.value],
                    log := if b.calls != s.books.calls then s1.log + [WasCalled(d.id)] else s1.log,
                    inbox := Finished(s1.inbox, d, r.value, who, doneAt, doneSaved))
  {
    hide Ruling, ByHand, Upserted, Handoffs.Decide;
  }

  /** `playbook.MatchAll`: in file order, past the playbooks that are disabled, invalid or do not match. */
  method MatchPlaybooks(ps: seq<Playbook>) returns (asks: seq<Ask>)
    ensures asks == MatchAll(ps)
    ensures forall a :: a in asks ==>
              exists i :: 0 <= i < |ps| && ps[i].enabled && ps[i].matches && ps[i].id == a.playbookID && a.action in ps[i].actions
  {
    hide Valid;
    asks := [];
    for i := 0 to |ps|
      invariant asks == MatchAll(ps[..i])
      invariant forall a :: a in asks ==>
                  exists k :: 0 <= k < i && ps[k].enabled && ps[k].matches
                              && ps[k].id == a.playbookID && a.action in ps[k].actions
    {
      assert ps[..i + 1][..i] == ps[..i];
      if !ps[i].enabled || !Valid(ps[i]) || !ps[i].matches {
        continue;
      }
      asks := asks + AsksOf(ps[i].id, ps[i].actions);
    }
    assert ps[..|ps|] == ps;
  }

  class Gate {
    var inbox: seq<Handoff>       // handoffs.json
    var audit: seq<Result>        // actions.jsonl
    var executor: Executor
    var stats: CycleStats
    var running: bool
    var now: Time
    var handoffs: seq<Handoff>    // the running cycle's view of the inbox
    var added: seq<Handoff>     // the requests it opened
    var queue: seq<Planned>
    var closing: bool
    ghost var lost: seq<Result>
    ghost var log: seq<Mark>

    ghost function Contents(): State
      reads this, executor, stats
    {
      State(inbox, if running then Some(Cycle(now, handoffs, added, queue, closing)) else None, Lock.Free,
            executor.Contents(stats), audit, lost, log)
    }

    constructor ()
      ensures Contents() == START && fresh(executor) && fresh(stats)
    {
      inbox, audit, lost, log := [], [], [], [];
      running, now, handoffs, added, queue, closing := false, ZERO_TIME, [], [], [], false;
      executor := new Executor(map[]);
      stats := new CycleStats();
    }

    // -------- The cycle's side --------

    method StartCycle(at: Time)
      requires !running
      modifies this, executor
      ensures executor == old(executor) && fresh(stats)
      ensures Contents() == Next(old(Contents()), Step.StartCycle(at))
    {
      hide Next;
      ghost var s := Contents();
      var st := new CycleStats();
      executor.Reset();
      running, now, closing, queue := true, at, false, [];
      handoffs, added := inbox, [];
      stats := st;
      StartsAs(s, Contents(), at);
    }

    method FindPendingIn(deviceID: string, playbookID: string, action: string) returns (found: bool)
      ensures found == FindPending(handoffs, deviceID, playbookID, action)
    {
      for i := 0 to |handoffs|
        invariant forall k :: 0 <= k < i ==>
          !(handoffs[k].status == Pending && handoffs[k].deviceID == deviceID
            && handoffs[k].playbookID == playbookID && handoffs[k].action == action)
      {
        var h := handoffs[i];
        if h.status == Pending && h.deviceID == deviceID && h.playbookID == playbookID && h.action == action {
          return true;
        }
      }
      return false;
    }

    method MayReopen(deviceID: string, playbookID: string, action: string) returns (ok: bool)
      ensures ok == Reopens(handoffs, deviceID, playbookID, action, now)
    {
      var pending := FindPendingIn(deviceID, playbookID, action);
      if pending {
        return false;
      }
      var id := HandoffID(deviceID, playbookID, action);
      for i := 0 to |handoffs|
        invariant DecisionTime(handoffs, id) == DecisionTime(handoffs[i..], id)
      {
        if handoffs[i].id == id && handoffs[i].decidedAt.Some? {
          return now - handoffs[i].decidedAt.value >= REOPEN_AFTER;
        }
        assert handoffs[i..][1..] == handoffs[i + 1..];
      }
      return true;
    }

    /** `openHandoff`: nothing is opened while a request waits or its decision is less than a day old. */
    method OpenHandoff(t: Target, a: Ask)
      requires Destructive(a.action)
      modifies `handoffs, `added
      ensures Cycle(now, handoffs, added, queue, closing)
           == Asked(old(Cycle(now, handoffs, added, queue, closing)), t, a)
    {
      var ok := MayReopen(t.id, a.playbookID, a.action);
      if ok {
        var h := Request(t, a, now);
        handoffs := Upsert(handoffs, h);
        added := added + [h];
      }
    }

    /** `evaluatePlaybooks`: harmless actions become orders, destructive ones only ever become requests. */
    method EvaluatePlaybooks(t: Target, ps: seq<Playbook>, evalFailed: bool) returns (planned: seq<Planned>)
      modifies `handoffs, `added
      ensures planned == SoarOrders(t, Asks(ps, evalFailed))
      ensures Cycle(now, handoffs, added, queue, closing)
           == AskedAll(old(Cycle(now, handoffs, added, queue, closing)), t, Asks(ps, evalFailed))
    {
      hide MatchAll, Reopens, Upserted, HandoffID;
      planned := [];
      if evalFailed {
        return;
      }
      var asks := MatchPlaybooks(ps);
      ghost var c0 := Cycle(now, handoffs, added, queue, closing);
      for i := 0 to |asks|
        invariant planned == SoarOrders(t, asks[..i])
        invariant Cycle(now, handoffs, added, queue, closing) == AskedAll(c0, t, asks[..i])
      {
        assert asks[..i + 1][..i] == asks[..i];
        var a := asks[i];
        if !Destructive(a.action) {
          planned := planned + [Planned(t.id, t.provider, a.action, t.inside, a.playbookID, "playbook")];
        } else {
          OpenHandoff(t, a);
        }
      }
      assert asks[..|asks|] == asks;
    }

    method ProcessDevice(t: Target, plain: seq<Planned>, ps: seq<Playbook>, evalFailed: bool)
      requires running && !closing && queue == []
      modifies this
      ensures executor == old(executor) && stats == old(stats)
      ensures Contents() == Next(old(Contents()), Visit(t, plain, ps, evalFailed))
    {
      AskedAllFlags(Cycle(now, handoffs, added, queue, closing), t, Asks(ps, evalFailed));
      var planned := EvaluatePlaybooks(t, ps, evalFailed);
      queue := PlainOrders(t, plain) + planned;
    }

    method ApplyNext(c: Context)
      requires running && queue != []
      modifies `queue, executor, stats
      ensures Contents() == Next(old(Contents()), Offer(c))
    {
      executor.Offer(queue[0], c, stats);
      queue := queue[1..];
    }

    /** The end of `runCycle` up to the inbox: line by line to the audit log, past the lines that fail. */
    method FlushResults(failed: set<nat>)
      requires running && queue == [] && !closing
      modifies `audit, `lost, `closing, executor`results
      ensures Contents() == Next(old(Contents()), Flush(failed))
    {
      var rs := executor.results;
      for i := 0 to |rs|
        invariant audit == old(audit) + Written(rs[..i], failed)
        invariant lost == old(lost) + Unwritten(rs[..i], failed)
      {
        assert rs[..i + 1][..i] == rs[..i];
        if i !in failed {
          audit := audit + [rs[i]];
        } else {
          lost := lost + [rs[i]];
        }
      }
      assert rs[..|rs|] == rs;
      executor.results := [];
      closing := true;
    }

    /** `persistHandoffs`: the inbox is read again, and only the requests this cycle opened are put into it. */
    method PersistHandoffs(readOK: bool, writeOK: bool)
      requires running && closing
      modifies `inbox, `running, `log
      ensures Contents() == Next(old(Contents()), EndCycle(readOK, writeOK))
    {
      hide AskedAll, Offered, ByHand, Plan, Ruling, Upserted;
      running := false;
      if added == [] || !readOK {
        return;
      }
      var hs := inbox;
      for i := 0 to |added|
        invariant inbox == old(inbox) && log == old(log) && !running
        invariant hs == UpsertAll(inbox, added[..i])
      {
        assert added[..i + 1][..i] == added[..i];
        hs := Upsert(hs, added[i]);
      }
      assert added[..|added|] == added;
      if writeOK {
        inbox := hs;
        log := log + OpenMarks(added);
      }
    }

    // -------- The human side --------

    method IndexOfHandoff(id: string) returns (i: int)
      ensures i == -1 <==> Find(inbox, id).None?
      ensures i != -1 ==> 0 <= i < |inbox| && Find(inbox, id) == Some(inbox[i])
    {
      for k := 0 to |inbox|
        invariant Find(inbox, id) == Find(inbox[k..], id)
      {
        if inbox[k].id == id {
          return k;
        }
        assert inbox[k..][1..] == inbox[k + 1..];
      }
      return -1;
    }

    /** `decideHandoff`: one locked read, change and write of the inbox. */
    method DecideHandoff(id: string, to: Status, who: string, note: string, at: Time, saved: bool)
      returns (h: Option<Handoff>)
      requires UniqueIDs(inbox) && (to == Approved || to == Rejected)
      modifies `inbox, `log
      ensures h == if saved then old(Ruling(Contents(), id, to, who, note, at)) else None
      ensures inbox == if h.Some? then Upserted(old(inbox), h.value) else old(inbox)
      ensures log == if h.None? then old(log)
                     else old(log) + [if to == Approved then WasApproved(id, at) else WasRejected(id, at)]
    {
      var i := IndexOfHandoff(id);
      if i < 0 {
        return None;
      }
      FindIs(inbox, id);
      match Handoffs.Decide(inbox[i], to, who, note, at)
      case Refused(_) => return None;
      case Ok(d) =>
        if !saved {
          return None;
        }
        UpsertedAt(inbox, d);
        ReplacedAt(inbox, d);
        assert inbox[i := d] == Upserted(inbox, d);
        inbox := inbox[i := d];
        log := log + [if to == Approved then WasApproved(id, at) else WasRejected(id, at)];
        return Some(d);
    }

    /** `runManual`: counters of its own, the same guardrails, one audit line unless suppressed or not written. */
    method RunManual(p: Planned, c: Context, logged: bool) returns (r: Option<Result>)
      modifies `audit, `lost, executor`marks, executor`calls
      ensures executor.marks == ByHand(old(executor.Contents(stats)), p, c).0.marks
      ensures executor.calls == ByHand(old(executor.Contents(stats)), p, c).0.calls
      ensures r == ByHand(old(executor.Contents(stats)), p, c).1
      ensures audit == if r.Some? && logged then old(audit) + [r.value] else old(audit)
      ensures lost == if r.Some? && !logged then old(lost) + [r.value] else old(lost)
    {
      var own := new CycleStats();
      r := executor.Apply(p, c, own);
      if r.Some? {
        if logged {
          audit := audit + [r.value];
        } else {
          lost := lost + [r.value];
        }
      }
    }

    /** The request moves on to executed and takes its result with it. */
    method FinishHandoff(h: Handoff, r: Result, who: string, at: Time, saved: bool)
      modifies `inbox
      ensures inbox == Finished(old(inbox), h, r, who, at, saved)
    {
      match Handoffs.Decide(h, Status.Executed, who, "", at)
      case Refused(_) =>
      case Ok(done) =>
        if saved {
          inbox := Upsert(inbox, done.(result := Some(r)));
        }
    }

    /** `ApproveHandoff`: the decision is stored first, then the order goes through the guardrails. */
    method ApproveHandoff(id: string, who: string, note: string, at: Time, saved: bool,
                          found: Option<Target>, c: Context, logged: bool, doneAt: Time, doneSaved: bool)
      requires UniqueIDs(inbox)
      modifies `inbox, `audit, `lost, `log, executor`marks, executor`calls
      ensures Contents() == Approval(old(Contents()), id, who, note, at, saved, found, c, logged, doneAt, doneSaved)
    {
      hide Approval, Next, ByHand, Upserted, Finished, HandoffOrder;
      ghost var s := Contents();
      if Ruling(s, id, Approved, who, note, at).None? || !saved {
        ApprovalRefused(s, id, who, note, at, saved, found, c, logged, doneAt, doneSaved);
      } else {
        ApprovalRuns(s, id, who, note, at, found, c, logged, doneAt, doneSaved);
      }
      hide Ruling;
      var h := DecideHandoff(id, Approved, who, note, at, saved);
      if h.None? || found.None? {
        return;
      }
      ghost var before := executor.calls;
      var r := RunManual(HandoffOrder(h.value, found.value), c, logged);
      ByHandFrame(s.books, HandoffOrder(h.value, found.value), c);
      if r.None? {
        return;
      }
      log := if executor.calls != before then log + [WasCalled(h.value.id)] else log;
      FinishHandoff(h.value, r.value, who, doneAt, doneSaved);
    }

    method RejectHandoff(id: string, who: string, note: string, at: Time, saved: bool)
      requires UniqueIDs(inbox)
      modifies `inbox, `log
      ensures Contents() == Next(old(Contents()), Reject(id, who, note, at, saved))
    {
      var _ := DecideHandoff(id, Rejected, who, note, at, saved);
    }

    method ExecuteManual(order: Planned, c: Context, logged: bool)
      modifies `audit, `lost, executor`marks, executor`calls
      ensures Contents() == Next(old(Contents()), Manual(order, c, logged))
    {
      var _ := RunManual(order.(playbookID := ""), c, logged);
    }
  }
}
