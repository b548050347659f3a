/**
  The guardrails: the one place that decides whether an order goes out live, the cooldown memory, the dedupe of
  a cycle, and the accounting of every order (internal/engine/guardrails*.go, internal/store/cooldown.go).
*/
module Guardrails {
  import opened Base
  import opened Keys

  datatype Enforcement = Enforcement(mode: string, liveActions: seq<string>, allowWipe: bool,
                                     wipeAllowlist: seq<string>, cooldownSeconds: int)

  datatype Decision = Decision(allow: bool, dryRun: bool, blocked: bool, code: string)

  datatype Planned = Planned(deviceID: string, provider: string, action: string, fenceID: string,
                             playbookID: string, trigger: string)

  datatype Result = Result(order: Planned, ok: bool, dryRun: bool, blocked: bool, code: string)

  /** One call of a connector. */
  datatype Call = Call(order: Planned, dryRun: bool, enforcement: Enforcement)

  /** What surrounds one order: settings, its two readings of the clock, the connector, the write of its mark. */
  datatype Context = Context(enforcement: Enforcement, decideAt: Time, recordAt: Time,
                             hasAdapter: bool, adapterOK: bool, markSaved: bool)

  // -------- The decision --------

  function Mode(e: Enforcement): string {
    if e.mode == "enforce" then "enforce" else "observe"
  }

  /** The cooldown window; zero switches it off. */
  function Window(e: Enforcement): (w: nat)
    ensures w % SECOND == 0
  {
    if e.cooldownSeconds <= 0 then 0 else e.cooldownSeconds * SECOND
  }

  predicate Cooled(e: Enforcement, last: Option<Time>, action: string, now: Time) {
    Window(e) != 0 && Destructive(action) && last.Some? && now - last.value < Window(e)
  }

  function WipeKey(e: Enforcement, deviceID: string): Option<Decision> {
    if !e.allowWipe then Some(Decision(false, false, true, "wipe_not_allowed"))
    else if e.wipeAllowlist == [] || deviceID in e.wipeAllowlist then None
    else Some(Decision(false, false, true, "wipe_not_in_allowlist"))
  }

  function Decide(e: Enforcement, last: Option<Time>, deviceID: string, action: string, now: Time): Decision {
    if Cooled(e, last, action, now) then Decision(false, false, false, "cooldown")
    else
      var dryRun := Mode(e) != "enforce" || action !in e.liveActions;
      if !dryRun && action == "wipe" && WipeKey(e, deviceID).Some? then WipeKey(e, deviceID).value
      else Decision(true, dryRun, false, "")
  }

  /** What the settings must say for an order to touch a device. */
  predicate Permits(e: Enforcement, deviceID: string, action: string) {
    && e.mode == "enforce"
    && action in e.liveActions
    && (action == "wipe" ==> e.allowWipe && (e.wipeAllowlist == [] || deviceID in e.wipeAllowlist))
  }

  /** Live, blocked and suppressed, each told apart exactly by the settings and the clock. */
  lemma DecideIsTheGate(e: Enforcement, last: Option<Time>, deviceID: string, action: string, now: Time)
    ensures var d := Decide(e, last, deviceID, action, now);
            && (d.allow && !d.dryRun <==> !Cooled(e, last, action, now) && Permits(e, deviceID, action))
            && (d.blocked <==> !Cooled(e, last, action, now) && e.mode == "enforce" && action in e.liveActions
                               && !Permits(e, deviceID, action))
            && (d.blocked ==> action == "wipe")
            && (!d.allow && !d.blocked <==> Cooled(e, last, action, now))
  {
  }

  /** What an operator reads in the settings: a window of so many seconds, for these four actions and no other. */
  lemma SuppressedIff(e: Enforcement, last: Option<Time>, deviceID: string, action: string, now: Time)
    ensures var d := Decide(e, last, deviceID, action, now);
            var suppressed := && e.cooldownSeconds > 0 && action in {"lock", "wipe", "clear_passcode", "reboot"}
                              && last.Some? && now - last.value < e.cooldownSeconds * 1_000_000_000;
            && (!d.allow && !d.blocked <==> suppressed)
            && (suppressed ==> d.code == "cooldown" && !d.dryRun)
  {
  }

  /** Outside the window: live, dry or blocked by mode, list and the two keys of a wipe. */
  lemma AllowedIff(e: Enforcement, last: Option<Time>, deviceID: string, action: string, now: Time)
    requires !Cooled(e, last, action, now)
    ensures var d := Decide(e, last, deviceID, action, now);
            var listed := e.mode == "enforce" && action in e.liveActions;
            && (d.allow && d.dryRun <==> !listed)
            && (d.blocked && d.code == "wipe_not_allowed" <==> listed && action == "wipe" && !e.allowWipe)
            && (d.blocked && d.code == "wipe_not_in_allowlist" <==>
                  listed && action == "wipe" && e.allowWipe && e.wipeAllowlist != [] && deviceID !in e.wipeAllowlist)
            && (d.blocked ==> !d.allow && (d.code == "wipe_not_allowed" || d.code == "wipe_not_in_allowlist"))
            && (d.allow <==> !d.blocked)
  {
    assert |"wipe_not_allowed"| == 16 && |"wipe_not_in_allowlist"| == 21;
  }

  // -------- The books --------

  /** cooldowns.json, the cycle's results, the connector calls, the dedupe set and the cycle's counters. */
  datatype Books = Books(marks: map<string, Time>, results: seq<Result>, calls: seq<Call>, fired: set<string>,
                         planned: nat, executed: nat, blocked: nat, suppressed: nat)

  function CooldownKey(deviceID: string, action: string): string {
    MarkKey(deviceID, action)
  }

  function LastActionAt(marks: map<string, Time>, deviceID: string, action: string): Option<Time> {
    var k := CooldownKey(deviceID, action);
    if k in marks then Some(marks[k]) else None
  }

  /** A mark is written as RFC 3339 text, which drops the fraction of the second. */
  function WholeSecond(at: Time): Time {
    at - at % SECOND
  }

  /** The only whole second that an instant falls in. */
  lemma WholeSecondIs(at: Time, mark: Time)
    ensures mark == WholeSecond(at) <==> mark % SECOND == 0 && mark <= at < mark + SECOND
  {
    if mark % SECOND == 0 && mark <= at < mark + SECOND {
      assert mark == SECOND * (mark / SECOND);
      assert at == SECOND * (at / SECOND) + at % SECOND;
      assert SECOND * (at / SECOND - mark / SECOND) < SECOND;
      assert -SECOND < SECOND * (at / SECOND - mark / SECOND);
    }
  }

  /** A dry run counts as done, and so does a call the connector accepted. */
  predicate Effective(r: Result) {
    r.dryRun || r.ok
  }

  /** What `execute` returns; without a connector nothing is called and the result is sealed as a dry run. */
  function Executed(p: Planned, dryRun: bool, c: Context): Result {
    if c.hasAdapter then Result(p, c.adapterOK, dryRun, false, "")
    else Result(p, false, true, false, "no_adapter")
  }

  function Recorded(b: Books, r: Result, c: Context): map<string, Time> {
    if Window(c.enforcement) != 0 && Destructive(r.order.action) && Effective(r) && c.markSaved
    then b.marks[CooldownKey(r.order.deviceID, r.order.action) := WholeSecond(c.recordAt)]
    else b.marks
  }

  function DecisionOf(b: Books, p: Planned, c: Context): Decision {
    Decide(c.enforcement, LastActionAt(b.marks, p.deviceID, p.action), p.deviceID, p.action, c.decideAt)
  }

  /** One order through the guardrails; the result is None when it was suppressed and leaves no trace. */
  function Applied(b: Books, p: Planned, c: Context): (Books, Option<Result>) {
    var d := DecisionOf(b, p, c);
    if d.blocked then
      (b.(blocked := b.blocked + 1), Some(Result(p, false, false, true, d.code)))
    else if !d.allow then
      (b.(suppressed := b.suppressed + 1), None)
    else
      var r := Executed(p, d.dryRun, c);
      (b.(executed := b.executed + 1, marks := Recorded(b, r, c),
          calls := if c.hasAdapter then b.calls + [Call(p, d.dryRun, c.enforcement)] else b.calls),
       Some(r))
  }

  function FireKey(p: Planned): string {
    p.deviceID + "|" + p.action + "|" + p.fenceID
  }

  /** One candidate of a cycle: duplicates are counted and dropped, the others applied and their results kept. */
  function Offered(b: Books, p: Planned, c: Context): Books {
    if FireKey(p) in b.fired then b.(suppressed := b.suppressed + 1)
    else
      var (b', r) := Applied(b.(fired := b.fired + {FireKey(p)}, planned := b.planned + 1), p, c);
      if r.Some? then b'.(results := b'.results + [r.value]) else b'
  }

  function OfferedAll(b: Books, ps: seq<Planned>, cs: seq<Context>): Books
    requires |ps| == |cs|
  {
    if ps == [] then b
    else Offered(OfferedAll(b, ps[..|ps| - 1], cs[..|cs| - 1]), ps[|ps| - 1], cs[|cs| - 1])
  }

  function FreshCycle(marks: map<string, Time>): Books {
    Books(marks, [], [], {}, 0, 0, 0, 0)
  }

  /** The counters of one cycle. */
  class CycleStats {
    var planned: nat
    var executed: nat
    var blocked: nat
    var suppressed: nat

    constructor ()
      ensures planned == executed == blocked == suppressed == 0
    {
      planned, executed, blocked, suppressed := 0, 0, 0, 0;
    }
  }

  class Executor {
    var marks: map<string, Time>
    var results: seq<Result>
    var calls: seq<Call>
    var fired: set<string>

    function Contents(st: CycleStats): Books
      reads this, st
    {
      Books(marks, results, calls, fired, st.planned, st.executed, st.blocked, st.suppressed)
    }

    constructor (stored: map<string, Time>)
      ensures marks == stored && results == [] && calls == [] && fired == {}
    {
      marks, results, calls, fired := stored, [], [], {};
    }

    /** A new cycle starts with no memory of what the last one ordered. */
    method Reset()
      modifies `fired, `results
      ensures fired == {} && results == []
    {
      fired, results := {}, [];
    }

    method AlreadyFired(p: Planned) returns (dup: bool)
      modifies `fired
      ensures dup == (FireKey(p) in old(fired))
      ensures fired == old(fired) + {FireKey(p)}
    {
      dup := FireKey(p) in fired;
      if !dup {
        fired := fired + {FireKey(p)};
      }
    }

    /** The mark is the whole second the instant falls in; a failed write leaves the stored marks as they were. */
    method RecordActionAt(deviceID: string, action: string, at: Time, saved: bool)
      modifies `marks
      ensures !saved ==> marks == old(marks)
      ensures saved ==>
                var k := CooldownKey(deviceID, action);
                && k in marks && marks[k] % SECOND == 0 && marks[k] <= at < marks[k] + SECOND
                && marks == old(marks)[k := marks[k]]
    {
      if saved {
        WholeSecondIs(at, WholeSecond(at));
        marks := marks[CooldownKey(deviceID, action) := WholeSecond(at)];
      }
    }

    method Apply(p: Planned, c: Context, st: CycleStats) returns (r: Option<Result>)
      modifies `marks, `calls, st
      ensures (Contents(st), r) == Applied(old(Contents(st)), p, c)
    {
      var d := DecisionOf(Contents(st), p, c);
      if d.blocked {
        st.blocked := st.blocked + 1;
        return Some(Result(p, false, false, true, d.code));
      } else if !d.allow {
        st.suppressed := st.suppressed + 1;
        return None;
      }
      var res;
      if c.hasAdapter {
        calls := calls + [Call(p, d.dryRun, c.enforcement)];
        res := Result(p, c.adapterOK, d.dryRun, false, "");
      } else {
        res := Result(p, false, true, false, "no_adapter");
      }
      st.executed := st.executed + 1;
      if Window(c.enforcement) != 0 && Destructive(p.action) && Effective(res) {
        RecordActionAt(p.deviceID, p.action, c.recordAt, c.markSaved);
        if c.markSaved {
          WholeSecondIs(c.recordAt, marks[CooldownKey(p.deviceID, p.action)]);
        }
      }
      return Some(res);
    }

    /** One candidate of the cycle, as the loop of `processDevice` handles it. */
    method Offer(p: Planned, c: Context, st: CycleStats)
      modifies this, st
      ensures Contents(st) == Offered(old(Contents(st)), p, c)
    {
      var dup := AlreadyFired(p);
      if dup {
        st.suppressed := st.suppressed + 1;
      } else {
        st.planned := st.planned + 1;
        var r := Apply(p, c, st);
        if r.Some? {
          results := results + [r.value];
        }
      }
    }

    method OfferPlan(ps: seq<Planned>, cs: seq<Context>, st: CycleStats)
      requires |ps| == |cs|
      modifies this, st
      ensures Contents(st) == OfferedAll(old(Contents(st)), ps, cs)
    {
      for i := 0 to |ps|
        invariant Contents(st) == OfferedAll(old(Contents(st)), ps[..i], cs[..i])
      {
        assert ps[..i + 1][..i] == ps[..i] && cs[..i + 1][..i] == cs[..i];
        Offer(ps[i], cs[i], st);
      }
      assert ps[..|ps|] == ps && cs[..|cs|] == cs;
    }
  }

  // -------- What the books prove --------

  predicate GatedCall(k: Call) {
    !k.dryRun ==> Permits(k.enforcement, k.order.deviceID, k.order.action)
  }

  /** A result that is neither blocked nor a dry run stands for a live call, and the other way round. */
  function LiveResults(rs: seq<Result>): seq<Planned> {
    if rs == [] then []
    else
      var r := rs[|rs| - 1];
      LiveResults(rs[..|rs| - 1]) + (if !r.blocked && !r.dryRun then [r.order] else [])
  }

  function LiveCalls(ks: seq<Call>): seq<Planned> {
    if ks == [] then []
    else
      var k := ks[|ks| - 1];
      LiveCalls(ks[..|ks| - 1]) + (if !k.dryRun then [k.order] else [])
  }

  lemma ConcatOne<T>(s: seq<T>, x: T)
    ensures (s + [x])[..|s + [x]| - 1] == s
  {
  }

  /** Applying one order calls a connector at most once, live only when permitted, and its result says so. */
  lemma AppliedBooks(b: Books, p: Planned, c: Context)
    ensures var (b', r) := Applied(b, p, c);
            && b'.results == b.results && b'.fired == b.fired && b'.planned == b.planned
            && b'.executed + b'.blocked + b'.suppressed == b.executed + b.blocked + b.suppressed + 1
            && (b'.calls == b.calls || (|b'.calls| == |b.calls| + 1 && b'.calls[..|b.calls|] == b.calls
                                        && b'.calls[|b.calls|].order == p && GatedCall(b'.calls[|b.calls|])))
            && LiveCalls(b'.calls) == LiveCalls(b.calls) + LiveResults(if r.Some? then [r.value] else [])
  {
    DecideIsTheGate(c.enforcement, LastActionAt(b.marks, p.deviceID, p.action), p.deviceID, p.action, c.decideAt);
    var d := DecisionOf(b, p, c);
    var (b', r) := Applied(b, p, c);
    if r.Some? {
      assert [r.value][..0] == [];
    }
    if b'.calls != b.calls {
      ConcatOne(b.calls, Call(p, d.dryRun, c.enforcement));
    }
  }

  /** What one order leaves behind: its result, its call, its place in exactly one counter. */
  lemma AppliedTells(b: Books, p: Planned, c: Context)
    ensures var d := Decide(c.enforcement, LastActionAt(b.marks, p.deviceID, p.action), p.deviceID, p.action, c.decideAt);
            var (b', r) := Applied(b, p, c);
            && b'.executed == b.executed + (if d.allow then 1 else 0)
            && b'.blocked == b.blocked + (if d.blocked then 1 else 0)
            && b'.suppressed == b.suppressed + (if !d.allow && !d.blocked then 1 else 0)
            && b'.calls == (if d.allow && c.hasAdapter then b.calls + [Call(p, d.dryRun, c.enforcement)] else b.calls)
            && (r.None? <==> !d.allow && !d.blocked)
            && (r.Some? ==>
                  && r.value.order == p && (r.value.blocked <==> d.blocked)
                  && (r.value.ok <==> d.allow && c.hasAdapter && c.adapterOK)
                  && (r.value.dryRun <==> d.allow && (d.dryRun || !c.hasAdapter))
                  && (d.blocked ==> r.value.code == d.code)
                  && (d.allow ==> r.value.code == if c.hasAdapter then "" else "no_adapter"))
  {
    DecideIsTheGate(c.enforcement, LastActionAt(b.marks, p.deviceID, p.action), p.deviceID, p.action, c.decideAt);
  }

  /**
    An order arms the cooldown exactly when there is one, the action is destructive, and it was carried out: dry, without
    a connector, or accepted by it. A refusal of the connector leaves it unarmed.
  */
  lemma ArmsIff(b: Books, p: Planned, c: Context)
    ensures var (b', r) := Applied(b, p, c);
            var arms := && c.enforcement.cooldownSeconds > 0 && p.action in {"lock", "wipe", "clear_passcode", "reboot"}
                        && r.Some? && !r.value.blocked && (r.value.dryRun || r.value.ok) && c.markSaved;
            var key := p.deviceID + "|" + p.action;
            && (!arms ==> b'.marks == b.marks)
            && (arms ==> key in b'.marks && b'.marks == b.marks[key := b'.marks[key]]
                         && b'.marks[key] % SECOND == 0 && b'.marks[key] <= c.recordAt < b'.marks[key] + SECOND)
  {
    WholeSecondIs(c.recordAt, WholeSecond(c.recordAt));
  }

  /** Every candidate is executed, blocked or suppressed; live calls are exactly the live results. */
  lemma {:induction false} EveryOrderAccountedFor(marks: map<string, Time>, ps: seq<Planned>, cs: seq<Context>)
    requires |ps| == |cs|
    ensures var b := OfferedAll(FreshCycle(marks), ps, cs);
            && |ps| == b.executed + b.blocked + b.suppressed
            && LiveResults(b.results) == LiveCalls(b.calls)
            && forall k :: k in b.calls ==> GatedCall(k) && k.order in ps
  {
    if ps != [] {
      var n := |ps| - 1;
      EveryOrderAccountedFor(marks, ps[..n], cs[..n]);
      var b := OfferedAll(FreshCycle(marks), ps[..n], cs[..n]);
      var p, c := ps[n], cs[n];
      assert ps == ps[..n] + [p];
      if FireKey(p) !in b.fired {
        var b0 := b.(fired := b.fired + {FireKey(p)}, planned := b.planned + 1);
        AppliedBooks(b0, p, c);
        var (b', r) := Applied(b0, p, c);
        if r.Some? {
          ConcatOne(b'.results, r.value);
          assert [r.value][..0] == [];
        }
      }
    }
  }

  /** Orders leave their results and calls in the order in which they are given. */
  lemma {:induction false} EarlierFirst(b: Books, ps: seq<Planned>, cs: seq<Context>, n: nat)
    requires |ps| == |cs| && n <= |ps|
    ensures OfferedAll(b, ps[..n], cs[..n]).results <= OfferedAll(b, ps, cs).results
    ensures OfferedAll(b, ps[..n], cs[..n]).calls <= OfferedAll(b, ps, cs).calls
  {
    if n == |ps| {
      assert ps[..n] == ps && cs[..n] == cs;
    } else {
      var m := |ps| - 1;
      EarlierFirst(b, ps[..m], cs[..m], n);
      assert ps[..m][..n] == ps[..n] && cs[..m][..n] == cs[..n];
      OfferedGrows(OfferedAll(b, ps[..m], cs[..m]), ps[m], cs[m]);
      hide Offered;
    }
  }

  lemma OfferedGrows(b: Books, p: Planned, c: Context)
    ensures b.results <= Offered(b, p, c).results && b.calls <= Offered(b, p, c).calls
  {
    AppliedBooks(b.(fired := b.fired + {FireKey(p)}, planned := b.planned + 1), p, c);
  }

  /** A candidate already ordered in this cycle only counts as suppressed; a new one is applied and its result kept. */
  lemma OfferedTells(b: Books, p: Planned, c: Context)
    ensures var key := p.deviceID + "|" + p.action + "|" + p.fenceID;
            var b' := Offered(b, p, c);
            if key in b.fired then b' == b.(suppressed := b.suppressed + 1)
            else
              var (a, r) := Applied(b.(fired := b.fired + {key}, planned := b.planned + 1), p, c);
              && b' == a.(results := b'.results)
              && b'.results == (if r.Some? then b.results + [r.value] else b.results)
  {
    AppliedBooks(b.(fired := b.fired + {FireKey(p)}, planned := b.planned + 1), p, c);
  }

  // -------- Dedupe --------

  predicate SameBucket(p: Planned, q: Planned) {
    p.deviceID == q.deviceID && p.action == q.action && p.fenceID == q.fenceID
  }

  predicate Repeated(ps: seq<Planned>, p: Planned) {
    exists i :: 0 <= i < |ps| && SameBucket(ps[i], p)
  }

  /** First occurrences by (device, action, fence). */
  function Firsts(ps: seq<Planned>): seq<Planned> {
    if ps == [] then []
    else
      var n := |ps| - 1;
      Firsts(ps[..n]) + (if Repeated(ps[..n], ps[n]) then [] else [ps[n]])
  }

  /** The candidates that reach the guardrails, with their contexts, in order. */
  function Reached(b: Books, ps: seq<Planned>, cs: seq<Context>): seq<Planned>
    requires |ps| == |cs|
  {
    if ps == [] then []
    else
      var n := |ps| - 1;
      Reached(b, ps[..n], cs[..n])
      + (if FireKey(ps[n]) in OfferedAll(b, ps[..n], cs[..n]).fired then [] else [ps[n]])
  }

  predicate CleanOrder(p: Planned) {
    Free(p.action, '|') && Free(p.fenceID, '|')
  }

  lemma FireKeyIsBucket(p: Planned, q: Planned)
    requires CleanOrder(p) && CleanOrder(q)
    ensures FireKey(p) == FireKey(q) <==> SameBucket(p, q)
  {
    var a, b := p.deviceID + "|" + p.action, q.deviceID + "|" + q.action;
    assert FireKey(p) == MarkKey(a, p.fenceID) && FireKey(q) == MarkKey(b, q.fenceID);
    if FireKey(p) == FireKey(q) {
      MarkKeyInjective(a, p.fenceID, b, q.fenceID);
      MarkKeyInjective(p.deviceID, p.action, q.deviceID, q.action);
    }
  }

  lemma OfferedFired(b: Books, p: Planned, c: Context)
    ensures Offered(b, p, c).fired == b.fired + {FireKey(p)}
    ensures Offered(b, p, c).planned == b.planned + (if FireKey(p) in b.fired then 0 else 1)
  {
    AppliedBooks(b.(fired := b.fired + {FireKey(p)}, planned := b.planned + 1), p, c);
  }

  lemma RepeatedSnoc(ps: seq<Planned>, p: Planned, q: Planned)
    ensures Repeated(ps + [p], q) <==> Repeated(ps, q) || SameBucket(p, q)
  {
    var all := ps + [p];
    assert all[|ps|] == p;
    if i :| 0 <= i < |ps| && SameBucket(ps[i], q) {
      assert all[i] == ps[i];
    }
  }

  /** The orders applied in a cycle are the first occurrences of the plan by (device, action, fence). */
  lemma {:induction false} DedupeKeepsFirsts(marks: map<string, Time>, ps: seq<Planned>, cs: seq<Context>)
    requires |ps| == |cs|
    requires forall i :: 0 <= i < |ps| ==> CleanOrder(ps[i])
    ensures Reached(FreshCycle(marks), ps, cs) == Firsts(ps)
    ensures OfferedAll(FreshCycle(marks), ps, cs).planned == |Firsts(ps)|
    ensures forall q :: CleanOrder(q) ==>
              (FireKey(q) in OfferedAll(FreshCycle(marks), ps, cs).fired <==> Repeated(ps, q))
  {
    if ps != [] {
      hide Applied, Offered, FireKey, SameBucket, Repeated;
      var n := |ps| - 1;
      DedupeKeepsFirsts(marks, ps[..n], cs[..n]);
      var b := OfferedAll(FreshCycle(marks), ps[..n], cs[..n]);
      OfferedFired(b, ps[n], cs[n]);
      assert ps == ps[..n] + [ps[n]];
      forall q | CleanOrder(q)
        ensures FireKey(q) in OfferedAll(FreshCycle(marks), ps, cs).fired <==> Repeated(ps, q)
      {
        FireKeyIsBucket(ps[n], q);
        RepeatedSnoc(ps[..n], ps[n], q);
      }
    } else {
      assert forall q :: !Repeated([], q);
    }
  }
}
