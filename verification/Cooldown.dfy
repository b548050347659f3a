/**
  The cooldown over runs of orders that do not overlap: exact suppression, spacing of the effective executions,
  and pruning that changes no decision.
*/
module Cooldown {
  import opened Base
  import opened Keys
  import opened Guardrails

  /** One order decided and recorded, or one pruning of marks older than `before`. */
  datatype Op = Apply(order: Planned, context: Context) | Prune(at: Time, before: Time)

  /** An effective execution of a destructive action: when it was decided and when its mark was written. */
  datatype Done = Done(deviceID: string, action: string, decideAt: Time, recordAt: Time)

  function Pruned(marks: map<string, Time>, before: Time): map<string, Time> {
    map k | k in marks && marks[k] >= before :: marks[k]
  }

  /** PruneCooldowns in place: old marks are deleted one by one. */
  method PruneCooldowns(marks: map<string, Time>, before: Time) returns (kept: map<string, Time>)
    ensures kept == Pruned(marks, before)
    ensures forall k :: k in kept <==> k in marks && marks[k] >= before
    ensures forall k :: k in kept ==> kept[k] == marks[k]
  {
    kept := marks;
    var todo := marks.Keys;
    while todo != {}
      invariant todo <= marks.Keys && todo <= kept.Keys <= marks.Keys
      invariant forall k :: k in kept ==> kept[k] == marks[k]
      invariant forall k :: k in marks && k !in todo ==> (k in kept <==> marks[k] >= before)
      decreases |todo|
    {
      var k :| k in todo;
      todo := todo - {k};
      if kept[k] < before {
        kept := kept - {k};
      }
    }
  }

  function Step(b: Books, op: Op): Books {
    match op
    case Apply(p, c) => Applied(b, p, c).0
    case Prune(_, before) => b.(marks := Pruned(b.marks, before))
  }

  function Run(ops: seq<Op>): Books {
    if ops == [] then FreshCycle(map[]) else Step(Run(ops[..|ops| - 1]), ops[|ops| - 1])
  }

  function Outcome(ops: seq<Op>, p: Planned, c: Context): Option<Result> {
    Applied(Run(ops), p, c).1
  }

  /** The order was carried out, live or dry, and armed the cooldown. */
  predicate TookEffect(r: Option<Result>) {
    r.Some? && !r.value.blocked && Effective(r.value) && Destructive(r.value.order.action)
  }

  function History(ops: seq<Op>): seq<Done> {
    if ops == [] then []
    else
      var n := |ops| - 1;
      var rest := History(ops[..n]);
      if ops[n].Apply? && TookEffect(Outcome(ops[..n], ops[n].order, ops[n].context)) then
        var o, c := ops[n].order, ops[n].context;
        rest + [Done(o.deviceID, o.action, c.decideAt, c.recordAt)]
      else rest
  }

  function LastDone(h: seq<Done>, deviceID: string, action: string): Option<Done> {
    if h == [] then None
    else
      var d := h[|h| - 1];
      if d.deviceID == deviceID && d.action == action then Some(d) else LastDone(h[..|h| - 1], deviceID, action)
  }

  function Clock(ops: seq<Op>): Time {
    if ops == [] then ZERO_TIME
    else match ops[|ops| - 1]
      case Apply(_, c) => c.recordAt
      case Prune(at, _) => at
  }

  /** One window throughout, a clock that never runs backwards, prunings only of marks older than the window. */
  predicate Serial(ops: seq<Op>, w: nat) {
    ops != [] ==>
      var n := |ops| - 1;
      && Serial(ops[..n], w)
      && match ops[n]
         case Apply(p, c) =>
           && Clock(ops[..n]) <= c.decideAt <= c.recordAt && c.enforcement.cooldownSeconds * 1_000_000_000 == w
           && p.action in ACTIONS
         case Prune(at, before) => Clock(ops[..n]) <= at && before <= at - w
  }

  /** No write of cooldowns.json failed. */
  predicate Saved(ops: seq<Op>) {
    forall i :: 0 <= i < |ops| && ops[i].Apply? ==> ops[i].context.markSaved
  }

  /** Suppressed exactly while the last effective execution, cut to the second, is less than a window away. */
  predicate Within(h: seq<Done>, w: nat, deviceID: string, action: string, now: Time) {
    var d := LastDone(h, deviceID, action);
    d.Some? && now - WholeSecond(d.value.recordAt) < w
  }

  lemma ActionsFree()
    ensures forall a :: a in ACTIONS ==> Free(a, '|')
  {
  }

  lemma LastDoneStep(h: seq<Done>, d: Done, deviceID: string, action: string)
    ensures LastDone(h + [d], deviceID, action)
         == if d.deviceID == deviceID && d.action == action then Some(d) else LastDone(h, deviceID, action)
  {
    assert (h + [d])[..|h|] == h;
  }

  /** The mark is the last effective execution cut to the second, or was pruned when it no longer mattered. */
  ghost predicate Remembers(marks: map<string, Time>, h: seq<Done>, w: nat, clock: Time) {
    forall d, a :: Free(a, '|') ==>
      var mark := LastActionAt(marks, d, a);
      var last := LastDone(h, d, a);
      && (last.Some? ==> last.value.recordAt <= clock)
      && (mark.Some? ==> last.Some? && mark.value == WholeSecond(last.value.recordAt))
      && (mark.None? && last.Some? ==> clock - WholeSecond(last.value.recordAt) >= w)
  }

  lemma MarkedOnly(marks: map<string, Time>, d: string, a: string, at: Time, d': string, a': string)
    requires Free(a, '|') && Free(a', '|')
    ensures LastActionAt(marks[CooldownKey(d, a) := at], d', a')
         == if d == d' && a == a' then Some(at) else LastActionAt(marks, d', a')
  {
    if CooldownKey(d, a) == CooldownKey(d', a') {
      MarkKeyInjective(d, a, d', a');
    }
  }

  lemma {:induction false} MemoryHolds(ops: seq<Op>, w: nat)
    requires Serial(ops, w) && Saved(ops) && w > 0
    ensures Remembers(Run(ops).marks, History(ops), w, Clock(ops))
  {
    if ops != [] {
      var n := |ops| - 1;
      MemoryHolds(ops[..n], w);
      MemoryHoldsStep(ops, w);
    }
  }

  lemma MemoryHoldsStep(ops: seq<Op>, w: nat)
    requires ops != [] && Serial(ops, w) && Saved(ops) && w > 0
    requires Remembers(Run(ops[..|ops| - 1]).marks, History(ops[..|ops| - 1]), w, Clock(ops[..|ops| - 1]))
    ensures Remembers(Run(ops).marks, History(ops), w, Clock(ops))
  {
    var n := |ops| - 1;
    ActionsFree();
    var b, h := Run(ops[..n]), History(ops[..n]);
    match ops[n] {
      case Prune(at, before) =>
      case Apply(p, c) =>
        MarksOfApplied(b, p, c);
        var d := Done(p.deviceID, p.action, c.decideAt, c.recordAt);
        hide Applied, LastActionAt, Free;
        forall id, a | Free(a, '|')
          ensures LastDone(h + [d], id, a) == if p.deviceID == id && p.action == a then Some(d) else LastDone(h, id, a)
          ensures LastActionAt(b.marks[CooldownKey(p.deviceID, p.action) := WholeSecond(c.recordAt)], id, a)
               == if p.deviceID == id && p.action == a then Some(WholeSecond(c.recordAt)) else LastActionAt(b.marks, id, a)
        {
          LastDoneStep(h, d, id, a);
          MarkedOnly(b.marks, p.deviceID, p.action, WholeSecond(c.recordAt), id, a);
        }
    }
  }

  lemma MarksOfApplied(b: Books, p: Planned, c: Context)
    requires Window(c.enforcement) > 0 && c.markSaved
    ensures var (b', r) := Applied(b, p, c);
            b'.marks == if TookEffect(r) then b.marks[CooldownKey(p.deviceID, p.action) := WholeSecond(c.recordAt)]
                        else b.marks
  {
  }

  /** An order is suppressed exactly while its last effective execution is less than the configured seconds away. */
  lemma SuppressedExactlyWithin(ops: seq<Op>, w: nat, p: Planned, c: Context)
    requires Serial(ops + [Apply(p, c)], w) && Saved(ops) && w > 0 && Destructive(p.action)
    ensures Outcome(ops, p, c).None? <==> Within(History(ops), w, p.deviceID, p.action, c.decideAt)
    ensures var last := LastDone(History(ops), p.deviceID, p.action);
            Outcome(ops, p, c).None? <==>
              last.Some? && c.decideAt - WholeSecond(last.value.recordAt) < c.enforcement.cooldownSeconds * 1_000_000_000
  {
    var all := ops + [Apply(p, c)];
    assert all[..|all| - 1] == ops && all[|all| - 1] == Apply(p, c);
    ActionsFree();
    MemoryHolds(ops, w);
    hide Free;
    DecideIsTheGate(c.enforcement, LastActionAt(Run(ops).marks, p.deviceID, p.action), p.deviceID, p.action, c.decideAt);
  }

  /** Once the window has passed since the last effective execution, nothing is suppressed any more. */
  lemma FreeAfterWindow(ops: seq<Op>, w: nat, p: Planned, c: Context)
    requires Serial(ops + [Apply(p, c)], w) && Saved(ops) && w > 0 && Destructive(p.action)
    requires var last := LastDone(History(ops), p.deviceID, p.action);
             last.Some? ==> c.decideAt - last.value.recordAt >= c.enforcement.cooldownSeconds * 1_000_000_000
    ensures Outcome(ops, p, c).Some?
  {
    SuppressedExactlyWithin(ops, w, p, c);
  }

  predicate Spaced(h: seq<Done>, w: nat) {
    forall i, j :: 0 <= i < j < |h| && h[i].deviceID == h[j].deviceID && h[i].action == h[j].action ==>
      h[j].decideAt - h[i].recordAt > w - SECOND
  }

  predicate Ordered(h: seq<Done>) {
    && (forall i :: 0 <= i < |h| ==> h[i].decideAt <= h[i].recordAt)
    && (forall i, j :: 0 <= i < j < |h| ==> h[i].recordAt <= h[j].decideAt)
  }

  lemma {:induction false} LastDoneLatest(h: seq<Done>, i: nat)
    requires i < |h| && Ordered(h)
    ensures var last := LastDone(h, h[i].deviceID, h[i].action);
            last.Some? && h[i].recordAt <= last.value.recordAt
  {
    if i < |h| - 1 && !(h[|h| - 1].deviceID == h[i].deviceID && h[|h| - 1].action == h[i].action) {
      LastDoneLatest(h[..|h| - 1], i);
    }
  }

  lemma SpacedSnoc(h: seq<Done>, d: Done, w: nat)
    requires Spaced(h, w) && Ordered(h) && d.decideAt <= d.recordAt
    requires forall i :: 0 <= i < |h| ==> h[i].recordAt <= d.decideAt
    requires !Within(h, w, d.deviceID, d.action, d.decideAt)
    ensures Spaced(h + [d], w) && Ordered(h + [d])
  {
    forall i | 0 <= i < |h| && h[i].deviceID == d.deviceID && h[i].action == d.action
      ensures d.decideAt - h[i].recordAt > w - SECOND
    {
      LastDoneLatest(h, i);
    }
  }

  /** What takes effect is not within the window, and comes after what was before. */
  lemma EffectIsFree(ops: seq<Op>, w: nat, p: Planned, c: Context)
    requires Serial(ops + [Apply(p, c)], w) && Saved(ops) && w > 0 && TookEffect(Outcome(ops, p, c))
    ensures !Within(History(ops), w, p.deviceID, p.action, c.decideAt)
    ensures Clock(ops) <= c.decideAt <= c.recordAt
  {
    var all := ops + [Apply(p, c)];
    assert all[..|all| - 1] == ops && all[|all| - 1] == Apply(p, c);
    assert p.action == Outcome(ops, p, c).value.order.action by {
      hide Serial, DecisionOf, Recorded, Run, Saved;
    }
    hide Within, Applied, Run, History, Clock, Saved;
    SuppressedExactlyWithin(ops, w, p, c);
  }

  lemma HistorySnoc(ops: seq<Op>, p: Planned, c: Context)
    ensures History(ops + [Apply(p, c)])
         == History(ops) + (if TookEffect(Outcome(ops, p, c)) then [Done(p.deviceID, p.action, c.decideAt, c.recordAt)] else [])
    ensures Clock(ops + [Apply(p, c)]) == c.recordAt
  {
    var all := ops + [Apply(p, c)];
    assert all[..|all| - 1] == ops && all[|all| - 1] == Apply(p, c);
    hide Outcome, TookEffect;
  }

  predicate Before(h: seq<Done>, clock: Time) {
    forall i :: 0 <= i < |h| ==> h[i].recordAt <= clock
  }

  /** Any two effective executions of one destructive action on one device are more than w - 1 s apart. */
  lemma {:induction false} ExecutionsSpaced(ops: seq<Op>, w: nat)
    requires Serial(ops, w) && Saved(ops) && w > 0
    ensures Spaced(History(ops), w) && Ordered(History(ops)) && Before(History(ops), Clock(ops))
  {
    hide Serial, Spaced, Ordered, Within, Outcome, TookEffect, Clock, Run, Applied;
    if ops != [] {
      var n := |ops| - 1;
      SerialFront(ops, w);
      ExecutionsSpaced(ops[..n], w);
      match ops[n]
      case Prune(_, _) =>
      case Apply(p, c) =>
        assert ops == ops[..n] + [Apply(p, c)];
        HistorySnoc(ops[..n], p, c);
        hide History, Saved;
        if TookEffect(Outcome(ops[..n], p, c)) {
          EffectIsFree(ops[..n], w, p, c);
          SpacedSnoc(History(ops[..n]), Done(p.deviceID, p.action, c.decideAt, c.recordAt), w);
        }
    } else {
      NoHistory(w);
    }
  }

  lemma SerialFront(ops: seq<Op>, w: nat)
    requires Serial(ops, w) && ops != []
    ensures Serial(ops[..|ops| - 1], w) && Clock(ops[..|ops| - 1]) <= Clock(ops)
  {
  }

  lemma NoHistory(w: nat)
    ensures Spaced([], w) && Ordered([])
  {
  }

  /** The bound is tight: one nanosecond more than w - 1 s can be enough. */
  lemma SpacingIsTight(w: nat, p: Planned, e: Enforcement)
    requires w == e.cooldownSeconds * 1_000_000_000 && w > 0
    requires p.action in {"lock", "reboot", "clear_passcode"} && e.mode != "enforce"
    ensures var first := Context(e, SECOND - 1, SECOND - 1, true, true, true);
            var second := Context(e, w, w, true, true, true);
            && Serial([Apply(p, first), Apply(p, second)], w) && Saved([Apply(p, first), Apply(p, second)])
            && |History([Apply(p, first), Apply(p, second)])| == 2
            && second.decideAt - first.recordAt == w - SECOND + 1
  {
    var first, second := Context(e, SECOND - 1, SECOND - 1, true, true, true), Context(e, w, w, true, true, true);
    var ops := [Apply(p, first), Apply(p, second)];
    assert ops[..1] == [Apply(p, first)] && [Apply(p, first)][..0] == [];
    assert Serial([], w) && Run([]) == FreshCycle(map[]);
    assert Serial([Apply(p, first)], w);
    assert History([Apply(p, first)]) == [Done(p.deviceID, p.action, SECOND - 1, SECOND - 1)];
  }

  // -------- Pruning --------

  function WithoutPrunes(ops: seq<Op>): seq<Op> {
    if ops == [] then []
    else
      var n := |ops| - 1;
      WithoutPrunes(ops[..n]) + (if ops[n].Prune? then [] else [ops[n]])
  }

  lemma {:induction false} WithoutPrunesSerial(ops: seq<Op>, w: nat)
    requires Serial(ops, w)
    ensures Serial(WithoutPrunes(ops), w) && Clock(WithoutPrunes(ops)) <= Clock(ops)
    ensures Saved(ops) ==> Saved(WithoutPrunes(ops))
  {
    if ops != [] {
      var n := |ops| - 1;
      WithoutPrunesSerial(ops[..n], w);
      var rest := WithoutPrunes(ops[..n]);
      if ops[n].Apply? {
        assert WithoutPrunes(ops) == rest + [ops[n]] && (rest + [ops[n]])[..|rest|] == rest;
      } else {
        assert WithoutPrunes(ops) == rest;
      }
    }
  }

  lemma GateSame(b: Books, b': Books, p: Planned, c: Context)
    requires Applied(b, p, c).1.None? <==> Applied(b', p, c).1.None?
    requires Destructive(p.action)
    ensures Applied(b, p, c).1 == Applied(b', p, c).1
  {
    DecideIsTheGate(c.enforcement, LastActionAt(b.marks, p.deviceID, p.action), p.deviceID, p.action, c.decideAt);
    DecideIsTheGate(c.enforcement, LastActionAt(b'.marks, p.deviceID, p.action), p.deviceID, p.action, c.decideAt);
  }

  lemma SerialSnoc(ops: seq<Op>, w: nat, p: Planned, c: Context)
    requires Serial(ops, w)
    ensures Serial(ops + [Apply(p, c)], w) <==>
              && Clock(ops) <= c.decideAt <= c.recordAt && c.enforcement.cooldownSeconds * 1_000_000_000 == w
              && p.action in ACTIONS
  {
    var all := ops + [Apply(p, c)];
    assert all[..|all| - 1] == ops && all[|all| - 1] == Apply(p, c);
  }

  lemma SerialPrefix(ops: seq<Op>, w: nat, p: Planned, c: Context)
    requires Serial(ops + [Apply(p, c)], w)
    ensures Serial(ops, w)
  {
    var all := ops + [Apply(p, c)];
    assert all[..|all| - 1] == ops;
  }

  lemma SameDecision(ops: seq<Op>, w: nat, p: Planned, c: Context)
    requires w > 0 && Serial(ops + [Apply(p, c)], w) && Saved(ops) && Destructive(p.action)
    requires History(WithoutPrunes(ops)) == History(ops)
    ensures Outcome(WithoutPrunes(ops), p, c) == Outcome(ops, p, c)
  {
    hide Serial, Saved, History, WithoutPrunes, Applied, Run, Within;
    SerialPrefix(ops, w, p, c);
    WithoutPrunesSerial(ops, w);
    SerialSnoc(ops, w, p, c);
    SerialSnoc(WithoutPrunes(ops), w, p, c);
    SuppressedExactlyWithin(ops, w, p, c);
    SuppressedExactlyWithin(WithoutPrunes(ops), w, p, c);
    GateSame(Run(WithoutPrunes(ops)), Run(ops), p, c);
  }

  lemma {:induction false} PruningKeepsHistory(ops: seq<Op>, w: nat)
    requires Serial(ops, w) && Saved(ops) && w > 0
    ensures History(WithoutPrunes(ops)) == History(ops)
  {
    if ops != [] {
      var n := |ops| - 1;
      PruningKeepsHistory(ops[..n], w);
      var before := WithoutPrunes(ops[..n]);
      assert ops == ops[..n] + [ops[n]];
      if ops[n].Apply? {
        var p, c := ops[n].order, ops[n].context;
        assert WithoutPrunes(ops) == before + [Apply(p, c)];
        hide Run, Applied, Serial;
        HistorySnoc(ops[..n], p, c);
        HistorySnoc(before, p, c);
        if Destructive(p.action) {
          SameDecision(ops[..n], w, p, c);
        } else {
          OrderOf(Run(before), p, c);
          OrderOf(Run(ops[..n]), p, c);
        }
      } else {
        assert WithoutPrunes(ops) == before;
      }
    }
  }

  /** Deleting every pruning from a run leaves every decision and every effective execution as it was. */
  lemma PruningChangesNothing(ops: seq<Op>, w: nat)
    requires Serial(ops, w) && Saved(ops) && w > 0
    ensures History(WithoutPrunes(ops)) == History(ops)
    ensures forall p, c :: Serial(ops + [Apply(p, c)], w) && Destructive(p.action) ==>
              Outcome(WithoutPrunes(ops), p, c) == Outcome(ops, p, c)
  {
    PruningKeepsHistory(ops, w);
    forall p, c | Serial(ops + [Apply(p, c)], w) && Destructive(p.action)
      ensures Outcome(WithoutPrunes(ops), p, c) == Outcome(ops, p, c)
    {
      SameDecision(ops, w, p, c);
    }
  }

  lemma OrderOf(b: Books, p: Planned, c: Context)
    ensures var r := Applied(b, p, c).1; r.Some? ==> r.value.order == p
  {
  }
}
