/** The human gate's records: ids, the state machine of a request, the inbox (internal/domain/playbook). */
module Handoffs {
  import opened Base
  import opened Numerals
  import opened Transition
  import opened Guardrails

  datatype Status = Pending | Approved | Rejected | Executed | Unrecognised(text: string)

  datatype Handoff = Handoff(id: string, deviceID: string, playbookID: string, action: string, status: Status,
                             requestedAt: Time, decidedAt: Option<Time>, decidedBy: string, note: string,
                             result: Option<Result>)

  datatype Decided = Ok(handoff: Handoff) | Refused(handoff: Handoff)

  const REOPEN_AFTER := 24 * HOUR

  // -------- Identity --------

  /** One part of the sealed text: its length, then itself. */
  function Measured(s: string): string {
    Itoa(|s|) + ":" + s
  }

  /** The text whose digest is the identity of a request; the digest is taken as injective. */
  function HandoffID(deviceID: string, playbookID: string, action: string): string {
    Measured(deviceID) + ("|" + (Measured(playbookID) + ("|" + Measured(action))))
  }

  function IDOf(h: Handoff): string {
    HandoffID(h.deviceID, h.playbookID, h.action)
  }

  lemma MeasuredCut(s: string, rest: string)
    ensures IndexOf(Measured(s) + rest, ':') == |Itoa(|s|)|
  {
    DigitsOfRender(|s|, 10);
    ParseKeyCut(Itoa(|s|), s + rest);
    assert Itoa(|s|) + ":" + (s + rest) == Measured(s) + rest;
  }

  lemma MeasuredPrefix(s: string, rest: string, s': string, rest': string)
    requires Measured(s) + rest == Measured(s') + rest'
    ensures s == s' && rest == rest'
  {
    var all := Measured(s) + rest;
    MeasuredCut(s, rest);
    MeasuredCut(s', rest');
    var n := |Itoa(|s|)|;
    assert Itoa(|s|) == all[..n] && Itoa(|s'|) == all[..n];
    ItoaInjective(|s|, |s'|);
    assert s == all[n + 1..][..|s|] && s' == all[n + 1..][..|s|];
    assert rest == all[n + 1 + |s|..] && rest' == all[n + 1 + |s|..];
  }

  /** Device, playbook and action are all told apart, whatever text they hold. */
  lemma HandoffIDInjective(d: string, p: string, a: string, d': string, p': string, a': string)
    requires HandoffID(d, p, a) == HandoffID(d', p', a')
    ensures d == d' && p == p' && a == a'
  {
    MeasuredPrefix(d, "|" + (Measured(p) + ("|" + Measured(a))), d', "|" + (Measured(p') + ("|" + Measured(a'))));
    var r, r' := Measured(p) + ("|" + Measured(a)), Measured(p') + ("|" + Measured(a'));
    assert r == ("|" + r)[1..] && r' == ("|" + r')[1..];
    MeasuredPrefix(p, "|" + Measured(a), p', "|" + Measured(a'));
    assert Measured(a) == ("|" + Measured(a))[1..] && Measured(a') == ("|" + Measured(a'))[1..];
    assert Measured(a) + [] == Measured(a) && Measured(a') + [] == Measured(a');
    MeasuredPrefix(a, [], a', []);
  }

  // -------- One request --------

  predicate Allowed(from: Status, to: Status) {
    (from == Pending && (to == Approved || to == Rejected)) || (from == Approved && to == Executed)
  }

  /** A decision seals who and when; marking a request as executed leaves that seal alone. */
  function Decide(h: Handoff, to: Status, who: string, note: string, at: Time): Decided {
    if !Allowed(h.status, to) then Refused(h)
    else
      var out := h.(status := to, note := if note != "" then note else h.note);
      Ok(if to == Approved || to == Rejected then out.(decidedAt := Some(at), decidedBy := who) else out)
  }

  /** Which moves there are. */
  lemma DecideIff(h: Handoff, to: Status, who: string, note: string, at: Time)
    ensures Decide(h, to, who, note, at).Ok?
            <==> || (h.status == Pending && (to == Approved || to == Rejected))
                 || (h.status == Approved && to == Executed)
    ensures Decide(h, to, who, note, at).Refused? ==> Decide(h, to, who, note, at).handoff == h
  {
  }

  /** A move changes the state, the note if one is given, and for a ruling who gave it and when. */
  lemma DecideTells(h: Handoff, to: Status, who: string, note: string, at: Time)
    requires Decide(h, to, who, note, at).Ok?
    ensures var g := Decide(h, to, who, note, at).handoff;
            && g.id == h.id && g.deviceID == h.deviceID && g.playbookID == h.playbookID && g.action == h.action
            && g.requestedAt == h.requestedAt && g.result == h.result
            && g.status == to
            && (note != "" ==> g.note == note) && (note == "" ==> g.note == h.note)
            && (h.status == Pending ==> g.decidedBy == who && g.decidedAt == Some(at))
            && (h.status == Approved ==> g.decidedBy == h.decidedBy && g.decidedAt == h.decidedAt)
  {
  }

  // -------- The inbox --------

  function Upserted(hs: seq<Handoff>, h: Handoff): seq<Handoff> {
    if hs == [] then [h]
    else if hs[0].id == h.id then [h] + Replaced(hs[1..], h)
    else [hs[0]] + Upserted(hs[1..], h)
  }

  function Replaced(hs: seq<Handoff>, h: Handoff): (r: seq<Handoff>)
    ensures |r| == |hs|
  {
    if hs == [] then []
    else [if hs[0].id == h.id then h else hs[0]] + Replaced(hs[1..], h)
  }

  predicate HasID(hs: seq<Handoff>, id: string) {
    exists i :: 0 <= i < |hs| && hs[i].id == id
  }

  lemma {:induction false} ReplacedAt(hs: seq<Handoff>, h: Handoff)
    ensures forall i :: 0 <= i < |hs| ==> Replaced(hs, h)[i] == if hs[i].id == h.id then h else hs[i]
  {
    if hs != [] {
      ReplacedAt(hs[1..], h);
      assert forall i :: 1 <= i < |hs| ==> hs[i] == hs[1..][i - 1] && Replaced(hs, h)[i] == Replaced(hs[1..], h)[i - 1];
    }
  }

  lemma HasIDTail(hs: seq<Handoff>, id: string)
    requires hs != []
    ensures HasID(hs, id) <==> hs[0].id == id || HasID(hs[1..], id)
  {
    if hs[0].id != id && HasID(hs, id) {
      var i :| 0 <= i < |hs| && hs[i].id == id;
      assert hs[1..][i - 1] == hs[i];
    }
    if HasID(hs[1..], id) {
      var i :| 0 <= i < |hs| - 1 && hs[1..][i].id == id;
      assert hs[i + 1] == hs[1..][i];
    }
  }

  /** The request replaces the one with its id in its place, or goes to the end; nothing else moves. */
  lemma {:induction false} UpsertedAt(hs: seq<Handoff>, h: Handoff)
    ensures HasID(hs, h.id) ==> Upserted(hs, h) == Replaced(hs, h)
    ensures !HasID(hs, h.id) ==> Upserted(hs, h) == hs + [h]
  {
    if hs == [] {
      assert hs + [h] == [h];
    } else {
      UpsertedAt(hs[1..], h);
      HasIDTail(hs, h.id);
      assert hs == [hs[0]] + hs[1..];
    }
  }

  /** `Upsert` as the source builds it. */
  method Upsert(hs: seq<Handoff>, h: Handoff) returns (out: seq<Handoff>)
    ensures out == Upserted(hs, h)
  {
    out := [];
    var found := false;
    for i := 0 to |hs|
      invariant |out| == i
      invariant found <==> exists k :: 0 <= k < i && hs[k].id == h.id
      invariant forall k :: 0 <= k < i ==> out[k] == if hs[k].id == h.id then h else hs[k]
    {
      if hs[i].id == h.id {
        out := out + [h];
        found := true;
      } else {
        out := out + [hs[i]];
      }
    }
    UpsertedAt(hs, h);
    ReplacedAt(hs, h);
    if !found {
      assert out == hs;
      out := out + [h];
    }
  }

  predicate UniqueIDs(hs: seq<Handoff>) {
    forall i, j :: 0 <= i < j < |hs| ==> hs[i].id != hs[j].id
  }

  /** The request with an id, if the inbox holds one. */
  function Find(hs: seq<Handoff>, id: string): Option<Handoff> {
    if hs == [] then None
    else if hs[0].id == id then Some(hs[0])
    else Find(hs[1..], id)
  }

  lemma {:induction false} FindIs(hs: seq<Handoff>, id: string)
    ensures Find(hs, id).Some? <==> HasID(hs, id)
    ensures Find(hs, id).Some? ==> Find(hs, id).value in hs && Find(hs, id).value.id == id
    ensures UniqueIDs(hs) ==> forall i :: 0 <= i < |hs| && hs[i].id == id ==> Find(hs, id) == Some(hs[i])
  {
    if hs != [] {
      FindIs(hs[1..], id);
      HasIDTail(hs, id);
      assert forall i :: 1 <= i < |hs| ==> hs[i] == hs[1..][i - 1];
    }
  }

  lemma {:induction false} FindUpserted(hs: seq<Handoff>, h: Handoff, id: string)
    ensures Find(Upserted(hs, h), id) == if id == h.id then Some(h) else Find(hs, id)
  {
    if hs != [] {
      FindUpserted(hs[1..], h, id);
      if hs[0].id == h.id && id != h.id {
        FindReplaced(hs[1..], h, id);
      }
    }
  }

  lemma {:induction false} FindReplaced(hs: seq<Handoff>, h: Handoff, id: string)
    requires id != h.id
    ensures Find(Replaced(hs, h), id) == Find(hs, id)
  {
    if hs != [] {
      FindReplaced(hs[1..], h, id);
    }
  }

  lemma UpsertedUnique(hs: seq<Handoff>, h: Handoff)
    requires UniqueIDs(hs)
    ensures UniqueIDs(Upserted(hs, h))
  {
    UpsertedAt(hs, h);
    ReplacedAt(hs, h);
  }

  /** A request of this device, playbook and action is waiting. */
  function FindPending(hs: seq<Handoff>, deviceID: string, playbookID: string, action: string): bool {
    exists i :: 0 <= i < |hs| && hs[i].status == Pending && hs[i].deviceID == deviceID
                && hs[i].playbookID == playbookID && hs[i].action == action
  }

  /** When the first decided request with the id was decided. */
  function DecisionTime(hs: seq<Handoff>, id: string): Option<Time> {
    if hs == [] then None
    else if hs[0].id == id && hs[0].decidedAt.Some? then hs[0].decidedAt
    else DecisionTime(hs[1..], id)
  }

  /** May the cycle open the request? A waiting one blocks it, a decided one for 24 hours. */
  predicate Reopens(hs: seq<Handoff>, deviceID: string, playbookID: string, action: string, now: Time) {
    var t := DecisionTime(hs, HandoffID(deviceID, playbookID, action));
    !FindPending(hs, deviceID, playbookID, action) && (t.Some? ==> now - t.value >= REOPEN_AFTER)
  }

  /** Every request is filed under the id of its own device, playbook and action, and sealed iff decided. */
  predicate Sound(hs: seq<Handoff>) {
    && UniqueIDs(hs)
    && forall i :: 0 <= i < |hs| ==>
         hs[i].id == IDOf(hs[i]) && !hs[i].status.Unrecognised? && (hs[i].status == Pending <==> hs[i].decidedAt.None?)
  }

  lemma {:induction false} DecisionTimeIs(hs: seq<Handoff>, id: string)
    requires UniqueIDs(hs)
    ensures DecisionTime(hs, id) == if Find(hs, id).Some? then Find(hs, id).value.decidedAt else None
  {
    if hs != [] {
      DecisionTimeIs(hs[1..], id);
      FindIs(hs[1..], id);
      assert forall i :: 0 <= i < |hs| - 1 ==> hs[1..][i] == hs[i + 1];
      assert !HasID(hs[1..], hs[0].id);
    }
  }

  /** In a sound inbox at most one request waits per device, playbook and action. */
  lemma OnePendingPerTriple(hs: seq<Handoff>, i: nat, j: nat)
    requires Sound(hs) && i < |hs| && j < |hs|
    requires hs[i].deviceID == hs[j].deviceID && hs[i].playbookID == hs[j].playbookID && hs[i].action == hs[j].action
    ensures i == j
  {
    assert hs[i].id == hs[j].id;
  }

  lemma PendingIsFound(hs: seq<Handoff>, d: string, p: string, a: string)
    requires Sound(hs)
    ensures var h := Find(hs, HandoffID(d, p, a));
            FindPending(hs, d, p, a) <==> h.Some? && h.value.status == Pending
    ensures Find(hs, HandoffID(d, p, a)).Some? ==>
              var h := Find(hs, HandoffID(d, p, a)).value;
              h.deviceID == d && h.playbookID == p && h.action == a
  {
    var id := HandoffID(d, p, a);
    FindIs(hs, id);
    if FindPending(hs, d, p, a) {
      var i :| 0 <= i < |hs| && hs[i].status == Pending && hs[i].deviceID == d && hs[i].playbookID == p && hs[i].action == a;
      assert hs[i].id == id;
    }
    if Find(hs, id).Some? {
      var h := Find(hs, id).value;
      HandoffIDInjective(d, p, a, h.deviceID, h.playbookID, h.action);
    }
  }

  /** The cycle may open a request exactly when its id is absent or was decided at least 24 hours ago. */
  lemma ReopensWhen(hs: seq<Handoff>, d: string, p: string, a: string, now: Time)
    requires Sound(hs)
    ensures var h := Find(hs, HandoffID(d, p, a));
            Reopens(hs, d, p, a, now) <==>
            h.None? || (h.value.status != Pending && h.value.decidedAt.Some?
                        && now - h.value.decidedAt.value >= 24 * 60 * 60 * 1_000_000_000)
  {
    PendingIsFound(hs, d, p, a);
    DecisionTimeIs(hs, HandoffID(d, p, a));
    FindIs(hs, HandoffID(d, p, a));
  }
}
