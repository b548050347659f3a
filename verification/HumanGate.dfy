/**
  The human gate as a state machine: a cycle that works on a snapshot of the inbox and merges at its end, and
  human decisions, under a lock, that may fall anywhere in between (internal/engine/soar.go, handoffs.go).
*/
module HumanGate {
  import opened Base
  import opened Keys
  import opened Guardrails
  import opened Handoffs

  /** A playbook as the cycle sees it for one device: whether it validates and whether its conditions hold. */
  datatype Playbook = Playbook(id: string, enabled: bool, conditionsValid: bool, matches: bool, actions: seq<string>)

  /** One action asked for by a playbook that matched. */
  datatype Ask = Ask(playbookID: string, action: string)

  /** A running cycle: its clock, its view of the inbox, the requests it opened, the orders still to apply. */
  datatype Cycle = Cycle(now: Time, snapshot: seq<Handoff>, added: seq<Handoff>, queue: seq<Planned>, closing: bool)

  /** Who holds the manual lock: nobody, an approval about to run its action, or one that ran it. */
  datatype Lock = Free | Held(handoff: Handoff) | Ran(handoff: Handoff, result: Result)

  /** What happened to the requests, as persisted or called, in order. */
  datatype Mark = WasOpened(id: string, at: Time) | WasApproved(id: string, at: Time)
                | WasRejected(id: string, at: Time) | WasCalled(id: string)

  /** `audit` is actions.jsonl; `lost` are the results whose line never got there. */
  datatype State = State(inbox: seq<Handoff>, cycle: Option<Cycle>, lock: Lock, books: Books,
                         audit: seq<Result>, lost: seq<Result>, log: seq<Mark>)

  /** The device as an order needs it. */
  datatype Target = Target(id: string, provider: string, inside: string)

  /**
    Writes that may fail are flags of their step; `failed` are the positions of lines that were not appended. A process
    that stops inside an order is that order with nothing written after the connector's answer, and then `Restart`.
  */
  datatype Step =
    | StartCycle(now: Time)
    | Visit(target: Target, plain: seq<Planned>, playbooks: seq<Playbook>, evalFailed: bool)
    | Offer(context: Context)
    | Flush(failed: set<nat>)
    | EndCycle(readOK: bool, writeOK: bool)
    | Approve(id: string, who: string, note: string, at: Time, saved: bool)
    | Execute(found: Option<Target>, context: Context, logged: bool)
    | Finish(who: string, at: Time, saved: bool)
    | Reject(id: string, who: string, note: string, at: Time, saved: bool)
    | Manual(order: Planned, context: Context, logged: bool)
    | Restart

  // -------- The cycle's side --------

  predicate Valid(p: Playbook) {
    Slug(p.id) && p.conditionsValid && p.actions != [] && forall a :: a in p.actions ==> a in ACTIONS
  }

  function AsksOf(id: string, actions: seq<string>): seq<Ask> {
    seq(|actions|, i requires 0 <= i < |actions| => Ask(id, actions[i]))
  }

  /** Enabled, valid, matching playbooks in file order, action by action. */
  function MatchAll(ps: seq<Playbook>): seq<Ask> {
    if ps == [] then []
    else
      var p := ps[|ps| - 1];
      MatchAll(ps[..|ps| - 1]) + (if p.enabled && Valid(p) && p.matches then AsksOf(p.id, p.actions) else [])
  }

  function Request(t: Target, a: Ask, now: Time): Handoff {
    Handoff(HandoffID(t.id, a.playbookID, a.action), t.id, a.playbookID, a.action, Pending, now, None, "", "", None)
  }

  function Asked(c: Cycle, t: Target, a: Ask): Cycle {
    if Destructive(a.action) && Reopens(c.snapshot, t.id, a.playbookID, a.action, c.now) then
      var h := Request(t, a, c.now);
      c.(snapshot := Upserted(c.snapshot, h), added := c.added + [h])
    else c
  }

  function AskedAll(c: Cycle, t: Target, asks: seq<Ask>): Cycle {
    if asks == [] then c else Asked(AskedAll(c, t, asks[..|asks| - 1]), t, asks[|asks| - 1])
  }

  /** The orders a playbook may give on its own. */
  function SoarOrders(t: Target, asks: seq<Ask>): seq<Planned> {
    if asks == [] then []
    else
      var a := asks[|asks| - 1];
      SoarOrders(t, asks[..|asks| - 1])
      + (if Destructive(a.action) then [] else [Planned(t.id, t.provider, a.action, t.inside, a.playbookID, "playbook")])
  }

  /** Orders of policies, routes and fences carry no playbook. */
  function PlainOrders(t: Target, ps: seq<Planned>): seq<Planned> {
    seq(|ps|, i requires 0 <= i < |ps| => ps[i].(deviceID := t.id, playbookID := ""))
  }

  function Asks(ps: seq<Playbook>, evalFailed: bool): seq<Ask> {
    if evalFailed then [] else MatchAll(ps)
  }

  function Plan(t: Target, plain: seq<Planned>, ps: seq<Playbook>, evalFailed: bool): seq<Planned> {
    PlainOrders(t, plain) + SoarOrders(t, Asks(ps, evalFailed))
  }

  function UpsertAll(hs: seq<Handoff>, added: seq<Handoff>): seq<Handoff> {
    if added == [] then hs else Upserted(UpsertAll(hs, added[..|added| - 1]), added[|added| - 1])
  }

  function OpenMarks(added: seq<Handoff>): seq<Mark> {
    seq(|added|, i requires 0 <= i < |added| => WasOpened(added[i].id, added[i].requestedAt))
  }

  /** The results whose line was appended. */
  function Written(rs: seq<Result>, failed: set<nat>): seq<Result> {
    if rs == [] then []
    else
      var n := |rs| - 1;
      if n in failed then Written(rs[..n], failed) else Written(rs[..n], failed) + [rs[n]]
  }

  /** The results whose line was not. */
  function Unwritten(rs: seq<Result>, failed: set<nat>): seq<Result> {
    if rs == [] then []
    else
      var n := |rs| - 1;
      if n in failed then Unwritten(rs[..n], failed) + [rs[n]] else Unwritten(rs[..n], failed)
  }

  // -------- The human side --------

  /** An order given outside the cycle leaves its cooldown mark and its call, not the cycle's counters. */
  function ByHand(b: Books, p: Planned, c: Context): (Books, Option<Result>) {
    var (b', r) := Applied(b, p, c);
    (b.(marks := b'.marks, calls := b'.calls), r)
  }

  lemma ByHandFrame(b: Books, p: Planned, c: Context)
    ensures var (b', r) := ByHand(b, p, c);
            b' == b.(marks := b'.marks, calls := b'.calls) && (r.None? ==> b' == b)
  {
  }

  function HandoffOrder(h: Handoff, t: Target): Planned {
    Planned(h.deviceID, t.provider, h.action, t.inside, h.playbookID, "handoff")
  }

  function Ruling(s: State, id: string, to: Status, who: string, note: string, at: Time): Option<Handoff> {
    var h := Find(s.inbox, id);
    if h.None? then None
    else
      var d := Handoffs.Decide(h.value, to, who, note, at);
      if d.Ok? then Some(d.handoff) else None
  }

  function Next(s: State, step: Step): State {
    match step
    case StartCycle(now) =>
      if s.cycle.Some? then s
      else s.(cycle := Some(Cycle(now, s.inbox, [], [], false)),
              books := FreshCycle(s.books.marks).(calls := s.books.calls))
    case Visit(t, plain, ps, failed) =>
      if s.cycle.None? || s.cycle.value.queue != [] || s.cycle.value.closing then s
      else s.(cycle := Some(AskedAll(s.cycle.value, t, Asks(ps, failed)).(queue := Plan(t, plain, ps, failed))))
    case Offer(c) =>
      if s.cycle.None? || s.cycle.value.queue == [] then s
      else
        var q := s.cycle.value.queue;
        s.(cycle := Some(s.cycle.value.(queue := q[1..])), books := Offered(s.books, q[0], c))
    case Flush(failed) =>
      if s.cycle.None? || s.cycle.value.queue != [] || s.cycle.value.closing then s
      else s.(cycle := Some(s.cycle.value.(closing := true)),
              audit := s.audit + Written(s.books.results, failed),
              lost := s.lost + Unwritten(s.books.results, failed), books := s.books.(results := []))
    case EndCycle(readOK, writeOK) =>
      if s.cycle.None? || !s.cycle.value.closing || (s.cycle.value.added != [] && !s.lock.Free?) then s
      else
        var added := s.cycle.value.added;
        if added != [] && readOK && writeOK
        then s.(cycle := None, inbox := UpsertAll(s.inbox, added), log := s.log + OpenMarks(added))
        else s.(cycle := None)
    case Approve(id, who, note, at, saved) =>
      var h := Ruling(s, id, Approved, who, note, at);
      if !s.lock.Free? || h.None? || !saved then s
      else s.(inbox := Upserted(s.inbox, h.value), lock := Held(h.value), log := s.log + [WasApproved(id, at)])
    case Execute(found, c, logged) =>
      if !s.lock.Held? then s
      else if found.None? then s.(lock := Free)
      else
        var h := s.lock.handoff;
        var (b, r) := ByHand(s.books, HandoffOrder(h, found.value), c);
        if r.None? then s.(lock := Free)
        else s.(books := b, audit := if logged then s.audit + [r.value] else s.audit,
                lost := if logged then s.lost else s.lost + [r.value], lock := Ran(h, r.value),
                log := if b.calls != s.books.calls then s.log + [WasCalled(h.id)] else s.log)
    case Finish(who, at, saved) =>
      if !s.lock.Ran? then s
      else
        var done := Handoffs.Decide(s.lock.handoff, Status.Executed, who, "", at);
        if done.Ok? && saved
        then s.(lock := Free, inbox := Upserted(s.inbox, done.handoff.(result := Some(s.lock.result))))
        else s.(lock := Free)
    case Reject(id, who, note, at, saved) =>
      var h := Ruling(s, id, Rejected, who, note, at);
      if !s.lock.Free? || h.None? || !saved then s
      else s.(inbox := Upserted(s.inbox, h.value), log := s.log + [WasRejected(id, at)])
    case Manual(order, c, logged) =>
      if !s.lock.Free? then s
      else
        var (b, r) := ByHand(s.books, order.(playbookID := ""), c);
        s.(books := b, audit := if r.Some? && logged then s.audit + [r.value] else s.audit,
           lost := if r.Some? && !logged then s.lost + [r.value] else s.lost)
    case Restart =>
      s.(cycle := None, lock := Free, lost := s.lost + s.books.results, books := s.books.(results := []))
  }

  const START := State([], None, Free, FreshCycle(map[]), [], [], [])

  function After(steps: seq<Step>): State {
    if steps == [] then START else Next(After(steps[..|steps| - 1]), steps[|steps| - 1])
  }

  // -------- The invariant --------

  datatype Stage = Nothing | Waiting | Declined | Granted | Called | Illegal

  /** The life of one request: opened, then declined or granted, and after a grant called at most once. */
  function Advance(st: Stage, m: Mark): Stage {
    match m
    case WasOpened(_, _) => if st == Waiting || st == Illegal then Illegal else Waiting
    case WasApproved(_, _) => if st == Waiting then Granted else Illegal
    case WasRejected(_, _) => if st == Waiting then Declined else Illegal
    case WasCalled(_) => if st == Granted then Called else Illegal
  }

  function StageOf(log: seq<Mark>, id: string): Stage {
    if log == [] then Nothing
    else
      var m := log[|log| - 1];
      var before := StageOf(log[..|log| - 1], id);
      if m.id == id then Advance(before, m) else before
  }

  /** The inbox shows the stage the log has reached. */
  predicate Shows(h: Option<Handoff>, st: Stage) {
    match st
    case Nothing => h.None?
    case Waiting => h.Some? && h.value.status == Pending
    case Declined => h.Some? && h.value.status == Rejected
    case Granted => h.Some? && (h.value.status == Approved || h.value.status == Status.Executed)
    case Called => h.Some? && (h.value.status == Approved || h.value.status == Status.Executed)
    case Illegal => false
  }

  /** How the cycle's view of one request relates to the inbox that humans may have changed meanwhile. */
  predicate Coherent(c: Cycle, inbox: seq<Handoff>, id: string) {
    var o, f, n := Find(c.added, id), Find(inbox, id), Find(c.snapshot, id);
    if o.Some? then
      && n == o && o.value.status == Pending && o.value.requestedAt == c.now
      && (f.Some? ==> f.value.status != Pending && f.value.decidedAt.Some?
                      && c.now - f.value.decidedAt.value >= REOPEN_AFTER)
    else
      && (n.None? ==> f.None?)
      && (n.Some? && n.value.status != Pending ==>
            f.Some? && f.value.status != Pending && f.value.decidedAt == n.value.decidedAt)
  }

  ghost predicate CycleInvariant(s: State) {
    s.cycle.Some? ==>
      && Sound(s.cycle.value.snapshot)
      && Sound(s.cycle.value.added)
      && forall id :: Coherent(s.cycle.value, s.inbox, id)
  }

  predicate LockInvariant(s: State) {
    !s.lock.Free? ==>
      var h := s.lock.handoff;
      && Find(s.inbox, h.id) == Some(h) && h.status == Approved
      && (s.lock.Held? ==> StageOf(s.log, h.id) == Granted)
  }

  ghost predicate Invariant(s: State) {
    && Sound(s.inbox)
    && CycleInvariant(s)
    && LockInvariant(s)
    && forall id :: Shows(Find(s.inbox, id), StageOf(s.log, id))
  }

  lemma StageSnoc(log: seq<Mark>, m: Mark, id: string)
    ensures StageOf(log + [m], id) == if m.id == id then Advance(StageOf(log, id), m) else StageOf(log, id)
  {
    assert (log + [m])[..|log|] == log;
  }

  lemma SoundUpsert(hs: seq<Handoff>, h: Handoff)
    requires Sound(hs) && h.id == IDOf(h) && !h.status.Unrecognised? && (h.status == Pending <==> h.decidedAt.None?)
    ensures Sound(Upserted(hs, h))
  {
    hide Upserted, Replaced, HasID, IDOf;
    UpsertedUnique(hs, h);
    UpsertedAt(hs, h);
    ReplacedAt(hs, h);
  }

  lemma SoundFind(hs: seq<Handoff>, id: string)
    requires Sound(hs) && Find(hs, id).Some?
    ensures var h := Find(hs, id).value;
            h.id == id == IDOf(h) && !h.status.Unrecognised? && (h.status == Pending <==> h.decidedAt.None?)
  {
    FindIs(hs, id);
  }

  // -------- The cycle's steps --------

  lemma FindSnoc(hs: seq<Handoff>, h: Handoff, id: string)
    requires Find(hs, h.id).None?
    ensures Find(hs + [h], id) == if id == h.id then Some(h) else Find(hs, id)
    ensures Upserted(hs, h) == hs + [h]
  {
    FindIs(hs, h.id);
    UpsertedAt(hs, h);
    FindUpserted(hs, h, id);
  }

  lemma AskedKeeps(c: Cycle, inbox: seq<Handoff>, t: Target, a: Ask)
    requires Sound(c.snapshot) && Sound(c.added) && forall id :: Coherent(c, inbox, id)
    ensures var c' := Asked(c, t, a);
            && c'.now == c.now && Sound(c'.snapshot) && Sound(c'.added) && forall id :: Coherent(c', inbox, id)
  {
    var id0 := HandoffID(t.id, a.playbookID, a.action);
    if Destructive(a.action) && Reopens(c.snapshot, t.id, a.playbookID, a.action, c.now) {
      var h := Request(t, a, c.now);
      ReopensWhen(c.snapshot, t.id, a.playbookID, a.action, c.now);
      assert Coherent(c, inbox, id0);
      SoundUpsert(c.snapshot, h);
      SoundUpsert(c.added, h);
      forall id ensures Coherent(Asked(c, t, a), inbox, id) {
        assert Coherent(c, inbox, id);
        FindSnoc(c.added, h, id);
        FindUpserted(c.snapshot, h, id);
      }
      FindSnoc(c.added, h, id0);
    }
  }

  lemma {:induction false} AskedAllKeeps(c: Cycle, inbox: seq<Handoff>, t: Target, asks: seq<Ask>)
    requires Sound(c.snapshot) && Sound(c.added) && forall id :: Coherent(c, inbox, id)
    ensures var c' := AskedAll(c, t, asks);
            && c'.now == c.now && Sound(c'.snapshot) && Sound(c'.added) && forall id :: Coherent(c', inbox, id)
  {
    hide Coherent, Sound, Asked;
    if asks != [] {
      AskedAllKeeps(c, inbox, t, asks[..|asks| - 1]);
      AskedKeeps(AskedAll(c, t, asks[..|asks| - 1]), inbox, t, asks[|asks| - 1]);
    }
  }

  lemma {:induction false} AskedAllFlags(c: Cycle, t: Target, asks: seq<Ask>)
    ensures AskedAll(c, t, asks).closing == c.closing && AskedAll(c, t, asks).queue == c.queue
  {
    if asks != [] {
      AskedAllFlags(c, t, asks[..|asks| - 1]);
    }
  }

  lemma UniqueLast(added: seq<Handoff>)
    requires added != [] && UniqueIDs(added)
    ensures var n := |added| - 1;
            UniqueIDs(added[..n]) && Find(added[..n], added[n].id).None? && added == added[..n] + [added[n]]
  {
    FindIs(added[..|added| - 1], added[|added| - 1].id);
  }

  lemma {:induction false} UpsertAllIs(hs: seq<Handoff>, added: seq<Handoff>, id: string)
    requires Sound(hs) && Sound(added)
    ensures Sound(UpsertAll(hs, added))
    ensures Find(UpsertAll(hs, added), id) == if Find(added, id).Some? then Find(added, id) else Find(hs, id)
  {
    if added != [] {
      var n := |added| - 1;
      UniqueLast(added);
      hide UniqueIDs, Find, Upserted, IDOf;
      UpsertAllIs(hs, added[..n], id);
      SoundUpsert(UpsertAll(hs, added[..n]), added[n]);
      FindUpserted(UpsertAll(hs, added[..n]), added[n], id);
      FindSnoc(added[..n], added[n], id);
    }
  }

  lemma {:induction false} StageAfterOpening(log: seq<Mark>, added: seq<Handoff>, id: string)
    requires UniqueIDs(added)
    requires Find(added, id).Some? ==> StageOf(log, id) != Waiting && StageOf(log, id) != Illegal
    ensures StageOf(log + OpenMarks(added), id) == if Find(added, id).Some? then Waiting else StageOf(log, id)
  {
    if added == [] {
      assert log + OpenMarks(added) == log;
    } else {
      var n := |added| - 1;
      UniqueLast(added);
      FindSnoc(added[..n], added[n], id);
      hide UniqueIDs, Find, StageOf;
      StageAfterOpening(log, added[..n], id);
      var m := WasOpened(added[n].id, added[n].requestedAt);
      assert log + OpenMarks(added) == (log + OpenMarks(added[..n])) + [m];
      StageSnoc(log + OpenMarks(added[..n]), m, id);
    }
  }

  lemma EndCycleKeeps(s: State, readOK: bool, writeOK: bool)
    requires Invariant(s)
    ensures Invariant(Next(s, EndCycle(readOK, writeOK)))
  {
    var s' := Next(s, EndCycle(readOK, writeOK));
    if s'.inbox != s.inbox || s'.log != s.log {
      var c := s.cycle.value;
      forall id ensures Shows(Find(s'.inbox, id), StageOf(s'.log, id)) {
        assert Coherent(c, s.inbox, id);
        assert Shows(Find(s.inbox, id), StageOf(s.log, id));
        UpsertAllIs(s.inbox, c.added, id);
        StageAfterOpening(s.log, c.added, id);
      }
      UpsertAllIs(s.inbox, c.added, "");
    }
  }

  // -------- The human steps --------

  /** Replacing one request by a decided form of itself keeps the cycle's view coherent. */
  lemma CoherentAfterDecision(s: State, h: Handoff, h': Handoff)
    requires CycleInvariant(s) && Find(s.inbox, h.id) == Some(h) && h'.id == h.id
    requires h'.status != Pending && h'.decidedAt.Some?
    requires h.status == Pending || h'.decidedAt == h.decidedAt
    ensures s.cycle.Some? ==> forall id :: Coherent(s.cycle.value, Upserted(s.inbox, h'), id)
  {
    if s.cycle.Some? {
      forall id ensures Coherent(s.cycle.value, Upserted(s.inbox, h'), id) {
        assert Coherent(s.cycle.value, s.inbox, id);
        FindUpserted(s.inbox, h', id);
      }
    }
  }

  lemma DecisionIs(s: State, id: string, to: Status, who: string, note: string, at: Time)
    requires Sound(s.inbox) && Ruling(s, id, to, who, note, at).Some? && (to == Approved || to == Rejected)
    ensures var h := Find(s.inbox, id);
            var d := Ruling(s, id, to, who, note, at).value;
            && h.Some? && h.value.status == Pending && h.value.id == id
            && d.id == id == IDOf(d) && d.status == to && d.decidedAt == Some(at) && d.decidedBy == who
            && d.deviceID == h.value.deviceID && d.playbookID == h.value.playbookID && d.action == h.value.action
  {
    SoundFind(s.inbox, id);
  }

  lemma DecideKeeps(s: State, id: string, to: Status, who: string, note: string, at: Time)
    requires Invariant(s) && s.lock.Free? && Ruling(s, id, to, who, note, at).Some?
    requires to == Approved || to == Rejected
    ensures var d := Ruling(s, id, to, who, note, at).value;
            var m := if to == Approved then WasApproved(id, at) else WasRejected(id, at);
            var s' := s.(inbox := Upserted(s.inbox, d), log := s.log + [m]);
            && Invariant(s') && Find(s'.inbox, id) == Some(d)
            && StageOf(s'.log, id) == if to == Approved then Granted else Declined
  {
    DecisionIs(s, id, to, who, note, at);
    var h := Find(s.inbox, id).value;
    var d := Ruling(s, id, to, who, note, at).value;
    var m := if to == Approved then WasApproved(id, at) else WasRejected(id, at);
    SoundUpsert(s.inbox, d);
    CoherentAfterDecision(s, h, d);
    FindUpserted(s.inbox, d, id);
    StageSnoc(s.log, m, id);
    assert Shows(Find(s.inbox, id), StageOf(s.log, id));
    forall k ensures Shows(Find(Upserted(s.inbox, d), k), StageOf(s.log + [m], k)) {
      assert Shows(Find(s.inbox, k), StageOf(s.log, k));
      FindUpserted(s.inbox, d, k);
      StageSnoc(s.log, m, k);
    }
  }

  lemma ExecuteKeeps(s: State, found: Option<Target>, c: Context, logged: bool)
    requires Invariant(s)
    ensures Invariant(Next(s, Execute(found, c, logged)))
  {
    hide ByHand, HandoffOrder, Coherent, Sound, Find, StageOf;
    var s' := Next(s, Execute(found, c, logged));
    if s'.log != s.log {
      var m := WasCalled(s.lock.handoff.id);
      forall k ensures Shows(Find(s'.inbox, k), StageOf(s'.log, k)) {
        assert Shows(Find(s.inbox, k), StageOf(s.log, k));
        StageSnoc(s.log, m, k);
      }
    }
  }

  lemma FinishKeeps(s: State, who: string, at: Time, saved: bool)
    requires Invariant(s)
    ensures Invariant(Next(s, Finish(who, at, saved)))
  {
    if s.lock.Ran? && saved {
      var h := s.lock.handoff;
      SoundFind(s.inbox, h.id);
      var d := Handoffs.Decide(h, Status.Executed, who, "", at).handoff.(result := Some(s.lock.result));
      SoundUpsert(s.inbox, d);
      CoherentAfterDecision(s, h, d);
      forall k ensures Shows(Find(Upserted(s.inbox, d), k), StageOf(s.log, k)) {
        assert Shows(Find(s.inbox, k), StageOf(s.log, k));
        FindUpserted(s.inbox, d, k);
      }
    }
  }

  lemma StartCycleKeeps(s: State, now: Time)
    requires Invariant(s)
    ensures Invariant(Next(s, StartCycle(now)))
  {
    var s' := Next(s, StartCycle(now));
    if s.cycle.None? {
      forall id ensures Coherent(s'.cycle.value, s'.inbox, id) {
        if Find(s.inbox, id).Some? {
          SoundFind(s.inbox, id);
        }
      }
    }
  }

  lemma VisitKeeps(s: State, t: Target, plain: seq<Planned>, ps: seq<Playbook>, failed: bool)
    requires Invariant(s)
    ensures Invariant(Next(s, Visit(t, plain, ps, failed)))
  {
    if s.cycle.Some? {
      var c := AskedAll(s.cycle.value, t, Asks(ps, failed));
      var c' := c.(queue := Plan(t, plain, ps, failed));
      AskedAllKeeps(s.cycle.value, s.inbox, t, Asks(ps, failed));
      hide AskedAll, Plan, Asks, Sound;
      assert forall id :: Coherent(c, s.inbox, id) ==> Coherent(c', s.inbox, id);
    }
  }

  lemma OfferKeeps(s: State, x: Context)
    requires Invariant(s)
    ensures Invariant(Next(s, Offer(x)))
  {
    if s.cycle.Some? && s.cycle.value.queue != [] {
      hide Sound, Offered;
      var c := s.cycle.value;
      assert forall id :: Coherent(c, s.inbox, id) ==> Coherent(c.(queue := c.queue[1..]), s.inbox, id);
    }
  }

  lemma FlushKeeps(s: State, failed: set<nat>)
    requires Invariant(s)
    ensures Invariant(Next(s, Flush(failed)))
  {
    if s.cycle.Some? {
      hide Sound, Written, Unwritten;
      var c := s.cycle.value;
      assert forall id :: Coherent(c, s.inbox, id) ==> Coherent(c.(closing := true), s.inbox, id);
    }
  }

  lemma NextKeeps(s: State, step: Step)
    requires Invariant(s)
    ensures Invariant(Next(s, step))
  {
    hide Coherent, Shows, Sound, AskedAll, Offered, ByHand, Plan, Written, Unwritten;
    match step
    case StartCycle(now) => StartCycleKeeps(s, now);
    case Visit(t, plain, ps, failed) => VisitKeeps(s, t, plain, ps, failed);
    case Offer(c) => OfferKeeps(s, c);
    case Flush(failed) => FlushKeeps(s, failed);
    case EndCycle(readOK, writeOK) => EndCycleKeeps(s, readOK, writeOK);
    case Approve(id, who, note, at, saved) =>
      if s.lock.Free? && saved && Ruling(s, id, Approved, who, note, at).Some? {
        DecisionIs(s, id, Approved, who, note, at);
        DecideKeeps(s, id, Approved, who, note, at);
      }
    case Execute(found, c, logged) => ExecuteKeeps(s, found, c, logged);
    case Finish(who, at, saved) => FinishKeeps(s, who, at, saved);
    case Reject(id, who, note, at, saved) =>
      if s.lock.Free? && saved && Ruling(s, id, Rejected, who, note, at).Some? {
        DecideKeeps(s, id, Rejected, who, note, at);
      }
    case Manual(_, _, _) =>
    case Restart =>
  }

  lemma {:induction false} Always(steps: seq<Step>)
    ensures Invariant(After(steps))
  {
    if steps != [] {
      hide Next, Invariant;
      Always(steps[..|steps| - 1]);
      NextKeeps(After(steps[..|steps| - 1]), steps[|steps| - 1]);
    }
  }
}
