/** Which playbooks may ask for what, from the file to whole runs (internal/engine/soar.go, internal/domain/playbook). */
module PlaybookGate {
  import opened Base
  import opened Keys
  import opened Guardrails
  import opened Handoffs
  import opened HumanGate
  import opened HumanGateTheorems

  // -------- One device --------

  /** The playbook is switched on, valid, and its conditions hold for the device; and this is one of its actions. */
  predicate Calls(p: Playbook, action: string) {
    && p.enabled && p.matches
    && Slug(p.id) && p.conditionsValid && (forall i :: 0 <= i < |p.actions| ==> p.actions[i] in ACTIONS)
    && action in p.actions
  }

  predicate Raises(ps: seq<Playbook>, a: Ask) {
    exists i :: 0 <= i < |ps| && ps[i].id == a.playbookID && Calls(ps[i], a.action)
  }

  lemma AsksOfAre(p: Playbook, a: Ask)
    ensures a in AsksOf(p.id, p.actions) <==> a.playbookID == p.id && a.action in p.actions
  {
    if a.playbookID == p.id && a.action in p.actions {
      var i :| 0 <= i < |p.actions| && p.actions[i] == a.action;
      assert AsksOf(p.id, p.actions)[i] == a;
    }
  }

  lemma CallsIs(p: Playbook, action: string)
    ensures Calls(p, action) <==> p.enabled && Valid(p) && p.matches && action in p.actions
  {
    hide Slug;
    if p.enabled && Valid(p) && p.matches && action in p.actions {
      assert forall i :: 0 <= i < |p.actions| ==> p.actions[i] in p.actions;
    }
  }

  lemma RaisesSnoc(ps: seq<Playbook>, a: Ask)
    requires ps != []
    ensures Raises(ps, a)
            <==> Raises(ps[..|ps| - 1], a) || (ps[|ps| - 1].id == a.playbookID && Calls(ps[|ps| - 1], a.action))
  {
    hide Calls;
    var n := |ps| - 1;
    assert forall i :: 0 <= i < n ==> ps[..n][i] == ps[i];
    if i :| 0 <= i < |ps| && ps[i].id == a.playbookID && Calls(ps[i], a.action) {
      assert i < n ==> ps[..n][i].id == a.playbookID && Calls(ps[..n][i], a.action);
    }
  }

  lemma MatchAllSnoc(ps: seq<Playbook>, a: Ask)
    requires ps != []
    ensures a in MatchAll(ps)
            <==> a in MatchAll(ps[..|ps| - 1]) || (ps[|ps| - 1].id == a.playbookID && Calls(ps[|ps| - 1], a.action))
  {
    hide Valid, Calls, AsksOf;
    AsksOfAre(ps[|ps| - 1], a);
    CallsIs(ps[|ps| - 1], a.action);
  }

  /** Something is asked for a device exactly when a playbook calls for it. */
  lemma {:induction false} RaisedIff(ps: seq<Playbook>, a: Ask)
    ensures a in MatchAll(ps) <==> Raises(ps, a)
  {
    if ps != [] {
      hide Calls, MatchAll, Raises;
      RaisedIff(ps[..|ps| - 1], a);
      RaisesSnoc(ps, a);
      MatchAllSnoc(ps, a);
    }
  }

  /** Playbook by playbook in file order. */
  lemma {:induction false} MatchAllConcat(a: seq<Playbook>, b: seq<Playbook>)
    ensures MatchAll(a + b) == MatchAll(a) + MatchAll(b)
  {
    if b == [] {
      assert a + b == a;
    } else {
      hide Valid, AsksOf;
      assert (a + b)[..|a + b| - 1] == a + b[..|b| - 1];
      MatchAllConcat(a, b[..|b| - 1]);
    }
  }

  /** And action by action, in the order of the playbook. */
  lemma OwnAsks(p: Playbook)
    ensures |MatchAll([p])| == (if p.enabled && Valid(p) && p.matches then |p.actions| else 0)
    ensures forall i :: 0 <= i < |MatchAll([p])| ==> MatchAll([p])[i] == Ask(p.id, p.actions[i])
  {
    hide Valid;
    assert [p][..0] == [];
  }

  lemma {:induction false} SoarOrdersConcat(t: Target, a: seq<Ask>, b: seq<Ask>)
    ensures SoarOrders(t, a + b) == SoarOrders(t, a) + SoarOrders(t, b)
  {
    if b == [] {
      assert a + b == a;
    } else {
      SoarOrdersConcat(t, a, b[..|b| - 1]);
      assert (a + b)[..|a + b| - 1] == a + b[..|b| - 1];
    }
  }

  /** What is asked first is opened first. */
  lemma {:induction false} AskedAllConcat(c: Cycle, t: Target, a: seq<Ask>, b: seq<Ask>)
    ensures AskedAll(c, t, a + b) == AskedAll(AskedAll(c, t, a), t, b)
  {
    if b == [] {
      assert a + b == a;
    } else {
      hide Asked;
      AskedAllConcat(c, t, a, b[..|b| - 1]);
      assert (a + b)[..|a + b| - 1] == a + b[..|b| - 1];
    }
  }

  /** On its own a playbook orders exactly the harmless actions it calls for. */
  lemma {:induction false} SoarOrdersAre(t: Target, asks: seq<Ask>, o: Planned)
    ensures o in SoarOrders(t, asks)
            <==> exists i :: 0 <= i < |asks| && asks[i].action !in {"lock", "wipe", "clear_passcode", "reboot"}
                             && o == Planned(t.id, t.provider, asks[i].action, t.inside, asks[i].playbookID, "playbook")
  {
    if asks != [] {
      var n := |asks| - 1;
      SoarOrdersAre(t, asks[..n], o);
      assert forall i :: 0 <= i < n ==> asks[..n][i] == asks[i];
    }
  }

  /** The orders of one visit: the given ones first, without a playbook; then the harmless calls of the playbooks. */
  lemma PlanIs(t: Target, plain: seq<Planned>, ps: seq<Playbook>, failed: bool)
    ensures var plan := Plan(t, plain, ps, failed);
            && |plain| <= |plan|
            && (forall i :: 0 <= i < |plain| ==> plan[i] == plain[i].(deviceID := t.id, playbookID := ""))
            && (forall i :: |plain| <= i < |plan| ==>
                  && !failed && plan[i].trigger == "playbook" && plan[i].deviceID == t.id
                  && plan[i].action !in {"lock", "wipe", "clear_passcode", "reboot"}
                  && Raises(ps, Ask(plan[i].playbookID, plan[i].action)))
    ensures forall a :: !failed && Raises(ps, a) && a.action !in {"lock", "wipe", "clear_passcode", "reboot"} ==>
              Planned(t.id, t.provider, a.action, t.inside, a.playbookID, "playbook") in Plan(t, plain, ps, failed)
  {
    hide Raises, MatchAll, SoarOrders;
    var plan, soar, asks := Plan(t, plain, ps, failed), SoarOrders(t, Asks(ps, failed)), Asks(ps, failed);
    forall i | |plain| <= i < |plan|
      ensures !failed && plan[i].trigger == "playbook" && plan[i].deviceID == t.id
              && plan[i].action !in {"lock", "wipe", "clear_passcode", "reboot"}
              && Raises(ps, Ask(plan[i].playbookID, plan[i].action))
    {
      assert plan[i] == soar[i - |plain|] && plan[i] in soar;
      SoarOrdersAre(t, asks, plan[i]);
      var k :| 0 <= k < |asks| && asks[k].action !in {"lock", "wipe", "clear_passcode", "reboot"}
               && plan[i] == Planned(t.id, t.provider, asks[k].action, t.inside, asks[k].playbookID, "playbook");
      RaisedIff(ps, asks[k]);
    }
    forall a | !failed && Raises(ps, a) && a.action !in {"lock", "wipe", "clear_passcode", "reboot"}
      ensures Planned(t.id, t.provider, a.action, t.inside, a.playbookID, "playbook") in plan
    {
      RaisedIff(ps, a);
      SoarOrdersAre(t, asks, Planned(t.id, t.provider, a.action, t.inside, a.playbookID, "playbook"));
      var k :| 0 <= k < |asks| && asks[k] == a;
    }
  }

  // -------- What a visit opens --------

  /** The snapshot lets the request be opened: it is not there, or was decided a day or more ago. */
  predicate Openable(snapshot: seq<Handoff>, id: string, now: Time) {
    var h := Find(snapshot, id);
    h.None? || (h.value.status != Pending && h.value.decidedAt.Some? && now - h.value.decidedAt.value >= 86_400 * SECOND)
  }

  /** Some destructive ask of the list has this identity. */
  predicate AskedFor(t: Target, asks: seq<Ask>, id: string) {
    exists i :: 0 <= i < |asks| && asks[i].action in {"lock", "wipe", "clear_passcode", "reboot"}
                && HandoffID(t.id, asks[i].playbookID, asks[i].action) == id
  }

  lemma AskedForSnoc(t: Target, asks: seq<Ask>, a: Ask, id: string)
    ensures AskedFor(t, asks + [a], id)
            <==> AskedFor(t, asks, id)
                 || (a.action in {"lock", "wipe", "clear_passcode", "reboot"} && HandoffID(t.id, a.playbookID, a.action) == id)
  {
    hide HandoffID;
    var all := asks + [a];
    assert all[|asks|] == a;
    assert forall i :: 0 <= i < |asks| ==> all[i] == asks[i];
  }

  /** Asking once opens at most the request of its own identity, and that only when the snapshot lets it. */
  lemma AskedOpens(c: Cycle, inbox: seq<Handoff>, t: Target, a: Ask, id: string)
    requires Sound(c.snapshot) && Sound(c.added) && forall k :: Coherent(c, inbox, k)
    ensures var c' := Asked(c, t, a);
            var own := a.action in {"lock", "wipe", "clear_passcode", "reboot"} && HandoffID(t.id, a.playbookID, a.action) == id;
            && (Find(c'.added, id).Some? <==> Find(c.added, id).Some? || (own && Openable(c.snapshot, id, c.now)))
            && (!Openable(c.snapshot, id, c.now) ==> !Openable(c'.snapshot, id, c.now))
            && (Find(c'.added, id).None? ==> Find(c'.snapshot, id) == Find(c.snapshot, id))
            && (Find(c'.added, id).Some? ==> !Openable(c'.snapshot, id, c.now))
  {
    var h := Request(t, a, c.now);
    assert Coherent(c, inbox, id) && Coherent(c, inbox, h.id);
    if Destructive(a.action) {
      ReopensWhen(c.snapshot, t.id, a.playbookID, a.action, c.now);
      FindUpserted(c.snapshot, h, id);
      if Find(c.added, h.id).None? {
        FindSnoc(c.added, h, id);
      }
      hide Find, Sound, Reopens, Upserted;
    }
  }

  /**
    The requests a visit opens: those its destructive asks identify and the snapshot lets through, each of them, and no
    others.
  */
  lemma {:induction false} AskedAllOpens(c: Cycle, inbox: seq<Handoff>, t: Target, asks: seq<Ask>, id: string)
    requires Sound(c.snapshot) && Sound(c.added) && forall k :: Coherent(c, inbox, k)
    ensures var c' := AskedAll(c, t, asks);
            && (Find(c'.added, id).Some? <==>
                  Find(c.added, id).Some? || (AskedFor(t, asks, id) && Openable(c.snapshot, id, c.now)))
            && (Find(c'.added, id).None? ==> Find(c'.snapshot, id) == Find(c.snapshot, id))
            && (Find(c'.added, id).Some? ==> !Openable(c'.snapshot, id, c.now))
  {
    assert Coherent(c, inbox, id);
    if asks == [] {
      assert Find(c.added, id).Some? ==> !Openable(c.snapshot, id, c.now);
    } else {
      var n := |asks| - 1;
      AskedAllOpens(c, inbox, t, asks[..n], id);
      AskedAllKeeps(c, inbox, t, asks[..n]);
      AskedOpens(AskedAll(c, t, asks[..n]), inbox, t, asks[n], id);
      assert asks == asks[..n] + [asks[n]];
      AskedForSnoc(t, asks[..n], asks[n], id);
      hide Find, Sound, Coherent, Openable, AskedFor, Asked, HandoffID;
    }
  }

  // -------- Whole runs --------

  /** Some visit of the run saw a playbook that called for this destructive action on this device. */
  ghost predicate Raised(steps: seq<Step>, id: string) {
    exists j, a :: 0 <= j < |steps| && RaisedAt(steps[j], a, id)
  }

  predicate RaisedAt(step: Step, a: Ask, id: string) {
    && step.Visit? && !step.evalFailed && Raises(step.playbooks, a)
    && a.action in {"lock", "wipe", "clear_passcode", "reboot"}
    && id == HandoffID(step.target.id, a.playbookID, a.action)
  }

  /** Some visit of the run saw a playbook that called for this harmless order. */
  ghost predicate Called(steps: seq<Step>, o: Planned) {
    exists j :: 0 <= j < |steps| && CalledAt(steps[j], o)
  }

  predicate CalledAt(step: Step, o: Planned) {
    && step.Visit? && !step.evalFailed && o.deviceID == step.target.id && o.trigger == "playbook"
    && o.action !in {"lock", "wipe", "clear_passcode", "reboot"}
    && Raises(step.playbooks, Ask(o.playbookID, o.action))
  }

  /** Every request opened so far, every opening logged and every playbook order waiting was called for. */
  ghost predicate Justified(steps: seq<Step>, s: State) {
    && (forall i :: 0 <= i < |s.log| && s.log[i].WasOpened? ==> Raised(steps, s.log[i].id))
    && (s.cycle.Some? ==>
          && (forall i :: 0 <= i < |s.cycle.value.added| ==> Raised(steps, s.cycle.value.added[i].id))
          && (forall i :: 0 <= i < |s.cycle.value.queue| && s.cycle.value.queue[i].playbookID != "" ==>
                Called(steps, s.cycle.value.queue[i])))
  }

  lemma RaisedStays(steps: seq<Step>, step: Step)
    ensures forall id :: Raised(steps, id) ==> Raised(steps + [step], id)
    ensures forall o :: Called(steps, o) ==> Called(steps + [step], o)
  {
    hide RaisedAt, CalledAt;
    assert forall j :: 0 <= j < |steps| ==> (steps + [step])[j] == steps[j];
  }

  lemma JustifiedStays(steps: seq<Step>, step: Step, s: State)
    requires Justified(steps, s)
    ensures Justified(steps + [step], s)
  {
    RaisedStays(steps, step);
    hide Raised, Called;
  }

  lemma AddedByVisit(c: Cycle, t: Target, asks: seq<Ask>, h: Handoff)
    requires h in AskedAll(c, t, asks).added
    ensures h in c.added || AskedFor(t, asks, h.id)
  {
    if asks != [] {
      hide Reopens, Upserted, HandoffID;
      var n := |asks| - 1;
      if h in AskedAll(c, t, asks[..n]).added {
        AddedByVisit(c, t, asks[..n], h);
      }
      assert asks == asks[..n] + [asks[n]];
      AskedForSnoc(t, asks[..n], asks[n], h.id);
    }
  }

  lemma JustifiedVisit(steps: seq<Step>, s: State, t: Target, plain: seq<Planned>, ps: seq<Playbook>, failed: bool)
    requires Justified(steps, s)
    ensures Justified(steps + [Visit(t, plain, ps, failed)], Next(s, Visit(t, plain, ps, failed)))
  {
    var step := Visit(t, plain, ps, failed);
    var all := steps + [step];
    JustifiedStays(steps, step, s);
    assert all[|steps|] == step;
    if s.cycle.Some? && s.cycle.value.queue == [] && !s.cycle.value.closing {
      var c := AskedAll(s.cycle.value, t, Asks(ps, failed));
      var queue := Plan(t, plain, ps, failed);
      forall i | 0 <= i < |c.added| ensures Raised(all, c.added[i].id) {
        AddedByVisit(s.cycle.value, t, Asks(ps, failed), c.added[i]);
        if c.added[i] in s.cycle.value.added {
          var k :| 0 <= k < |s.cycle.value.added| && s.cycle.value.added[k] == c.added[i];
        } else {
          AskRaised(all, |steps|, c.added[i].id);
        }
      }
      PlanIs(t, plain, ps, failed);
      forall i | 0 <= i < |queue| && queue[i].playbookID != "" ensures Called(all, queue[i]) {
        assert CalledAt(all[|steps|], queue[i]);
      }
      hide Raised, Called, AskedAll, Plan;
    }
  }

  lemma AskRaised(steps: seq<Step>, j: nat, id: string)
    requires j < |steps| && steps[j].Visit?
    requires AskedFor(steps[j].target, Asks(steps[j].playbooks, steps[j].evalFailed), id)
    ensures Raised(steps, id)
  {
    hide HandoffID, Raises, MatchAll;
    var asks := Asks(steps[j].playbooks, steps[j].evalFailed);
    var i :| 0 <= i < |asks| && asks[i].action in {"lock", "wipe", "clear_passcode", "reboot"}
             && HandoffID(steps[j].target.id, asks[i].playbookID, asks[i].action) == id;
    RaisedIff(steps[j].playbooks, asks[i]);
    assert RaisedAt(steps[j], asks[i], id);
  }

  lemma JustifiedEnd(steps: seq<Step>, s: State, readOK: bool, writeOK: bool)
    requires Justified(steps, s)
    ensures Justified(steps, Next(s, EndCycle(readOK, writeOK)))
  {
    hide Raised, Called, UpsertAll;
    var s' := Next(s, EndCycle(readOK, writeOK));
    if s'.log != s.log {
      var added := s.cycle.value.added;
      forall i | |s.log| <= i < |s'.log| ensures Raised(steps, s'.log[i].id) {
        assert s'.log[i] == OpenMarks(added)[i - |s.log|];
      }
    }
  }

  lemma JustifiedQuiet(steps: seq<Step>, s: State, step: Step)
    requires Justified(steps, s) && !step.Visit? && !step.EndCycle?
    ensures Justified(steps, Next(s, step))
  {
    hide Raised, Called, Offered, ByHand, Ruling, Upserted, Written, Unwritten, HandoffOrder, Handoffs.Decide;
  }

  /**
    Over every run: a request is only opened, and a playbook order only queued, because some visit of a device saw an
    enabled, valid playbook whose conditions held for that device and which asks for that action.
  */
  lemma {:induction false} OnlyCalledFor(steps: seq<Step>)
    ensures Justified(steps, After(steps))
  {
    if steps != [] {
      hide Next, Justified;
      var n := |steps| - 1;
      var s, step := After(steps[..n]), steps[n];
      OnlyCalledFor(steps[..n]);
      assert steps == steps[..n] + [step];
      match step
      case Visit(t, plain, ps, failed) => JustifiedVisit(steps[..n], s, t, plain, ps, failed);
      case EndCycle(readOK, writeOK) =>
        JustifiedEnd(steps[..n], s, readOK, writeOK);
        JustifiedStays(steps[..n], step, Next(s, step));
      case _ =>
        JustifiedQuiet(steps[..n], s, step);
        JustifiedStays(steps[..n], step, Next(s, step));
    } else {
      assert START.log == [] && START.cycle.None?;
    }
  }

  // -------- The queue of a visit --------

  function Offers(cs: seq<Context>): seq<Step> {
    seq(|cs|, i requires 0 <= i < |cs| => Offer(cs[i]))
  }

  /** Between a visit and the next the queue is applied from the front, order by order, each with its own context. */
  lemma {:induction false} QueueApplied(steps: seq<Step>, cs: seq<Context>)
    requires var s := After(steps); s.cycle.Some? && |cs| <= |s.cycle.value.queue|
    ensures var s, s' := After(steps), After(steps + Offers(cs));
            && s'.books == OfferedAll(s.books, s.cycle.value.queue[..|cs|], cs)
            && s'.cycle == Some(s.cycle.value.(queue := s.cycle.value.queue[|cs|..]))
  {
    var s := After(steps);
    var q := s.cycle.value.queue;
    if cs == [] {
      assert steps + Offers(cs) == steps && q[..0] == [] && q[0..] == q;
    } else {
      var n := |cs| - 1;
      QueueApplied(steps, cs[..n]);
      OffersSnoc(cs, n);
      assert steps + Offers(cs) == (steps + Offers(cs[..n])) + [Offer(cs[n])];
      AfterSnoc(steps + Offers(cs[..n]), Offer(cs[n]));
      OneOffered(After(steps + Offers(cs[..n])), q[n..], cs[n]);
      hide After, Offered, Next, Offers;
      assert q[n..][0] == q[n] && q[n..][1..] == q[n + 1..];
      assert q[..n + 1][..n] == q[..n];
    }
  }

  lemma OffersSnoc(cs: seq<Context>, n: nat)
    requires n == |cs| - 1
    ensures Offers(cs) == Offers(cs[..n]) + [Offer(cs[n])]
  {
  }

  lemma OneOffered(s: State, q: seq<Planned>, c: Context)
    requires s.cycle.Some? && s.cycle.value.queue == q && q != []
    ensures var s' := Next(s, Offer(c));
            s'.books == Offered(s.books, q[0], c) && s'.cycle == Some(s.cycle.value.(queue := q[1..]))
  {
    hide Offered;
  }

  // -------- What is written --------

  /** A request is filed as waiting, from now, for this device, playbook and action, with nothing else filled in. */
  lemma OpenedIs(c: Cycle, t: Target, a: Ask)
    ensures var c' := Asked(c, t, a);
            && (c'.added == c.added
                || c'.added == c.added + [Handoff(HandoffID(t.id, a.playbookID, a.action), t.id, a.playbookID, a.action, Pending,
                                                  c.now, None, "", "", None)])
            && (a.action !in {"lock", "wipe", "clear_passcode", "reboot"} ==> c' == c)
  {
    hide Reopens, Upserted, HandoffID;
  }

  /** At the end of a cycle the opened requests reach the inbox, and the log, when it can be read and written. */
  lemma EndTells(s: State, readOK: bool, writeOK: bool)
    requires s.cycle.Some? && s.cycle.value.closing && s.lock.Free?
    ensures var c, s' := s.cycle.value, Next(s, EndCycle(readOK, writeOK));
            && s'.cycle.None?
            && (c.added == [] || !readOK || !writeOK ==> s'.inbox == s.inbox && s'.log == s.log)
            && (c.added != [] && readOK && writeOK ==>
                  && |s'.log| == |s.log| + |c.added|
                  && (forall i :: 0 <= i < |c.added| ==>
                        s'.log[|s.log| + i] == WasOpened(c.added[i].id, c.added[i].requestedAt))
                  && (|c.added| == 1 ==> s'.inbox == Upserted(s.inbox, c.added[0])))
  {
    hide Upserted;
    if |s.cycle.value.added| == 1 {
      FiledOne(s.inbox, s.cycle.value.added);
    }
    hide UpsertAll;
  }

  lemma FiledOne(hs: seq<Handoff>, added: seq<Handoff>)
    requires |added| == 1
    ensures UpsertAll(hs, added) == Upserted(hs, added[0])
  {
    assert added[..0] == [];
  }

  /** Requests are filed one after the other. */
  lemma {:induction false} FiledInOrder(hs: seq<Handoff>, a: seq<Handoff>, b: seq<Handoff>)
    ensures UpsertAll(hs, a + b) == UpsertAll(UpsertAll(hs, a), b)
  {
    if b == [] {
      assert a + b == a;
    } else {
      hide Upserted;
      FiledInOrder(hs, a, b[..|b| - 1]);
      assert (a + b)[..|a + b| - 1] == a + b[..|b| - 1];
    }
  }

  /** Result by result, in order: a line is in the audit log or is lost by whether its place is among the failed ones. */
  lemma LineByLine(rs: seq<Result>, r: Result, failed: set<nat>)
    ensures Written([], failed) == [] && Unwritten([], failed) == []
    ensures |rs| in failed ==> Written(rs + [r], failed) == Written(rs, failed)
                               && Unwritten(rs + [r], failed) == Unwritten(rs, failed) + [r]
    ensures |rs| !in failed ==> Written(rs + [r], failed) == Written(rs, failed) + [r]
                                && Unwritten(rs + [r], failed) == Unwritten(rs, failed)
  {
    assert (rs + [r])[..|rs|] == rs;
  }

  /**
    An order a person approved goes to the device of the request, with its action, its playbook and the fence the
    device is in; the call, the audit line and the result kept for the request are those of this order.
  */
  lemma ApprovedOrderIs(s: State, t: Target, c: Context)
    requires s.lock.Held?
    ensures var h, s' := s.lock.handoff, Next(s, Execute(Some(t), c, true));
            var order := Planned(h.deviceID, t.provider, h.action, t.inside, h.playbookID, "handoff");
            && (s'.lock.Ran? ==> s'.lock.handoff == h && s'.lock.result.order == order && s'.audit == s.audit + [s'.lock.result])
            && (forall i :: |s.books.calls| <= i < |s'.books.calls| ==> s'.books.calls[i].order == order)
  {
    hide DecisionOf, Recorded;
  }
}
