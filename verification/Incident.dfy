/**
  An incident: the facts a cycle derives and, on top of them, the human layer of state, assignment and audit
  (internal/domain/incident/incident.go).
*/
module Incidents {
  import opened Base

  const OPEN := "open"
  const ACK := "ack"
  const CLOSED := "closed"
  const SYSTEM := "sistema"

  datatype Entry = Entry(at: Time, actor: string, from: string, to: string, note: string)

  /** What the cycle derives and refreshes. */
  datatype Facts = Facts(deviceID: string, deviceName: string, kind: string, severity: string, title: string,
                         recommendation: string, fenceID: string, riskScore: Option<real>, evidence: seq<string>)

  datatype Incident = Incident(id: string, facts: Facts, assignee: string, status: string, count: int,
                               openedAt: Time, updatedAt: Time, ackedAt: Option<Time>, closedAt: Option<Time>,
                               timeline: seq<Entry>)

  datatype Moved = Ok(incident: Incident) | InvalidStatus | SameStatus

  // -------- Text --------

  predicate IsSpace(c: char) {
    || '\t' <= c <= '\r' || c == ' ' || c == '\U{85}' || c == '\U{A0}' || c == '\U{1680}'
    || '\U{2000}' <= c <= '\U{200A}' || c == '\U{2028}' || c == '\U{2029}' || c == '\U{202F}' || c == '\U{205F}'
    || c == '\U{3000}'
  }

  function TrimLeft(s: string): (r: string)
    ensures r != [] ==> !IsSpace(r[0])
  {
    if s != [] && IsSpace(s[0]) then TrimLeft(s[1..]) else s
  }

  function TrimRight(s: string): (r: string)
    ensures r <= s
    ensures r != [] ==> !IsSpace(r[|r| - 1])
  {
    if s != [] && IsSpace(s[|s| - 1]) then TrimRight(s[..|s| - 1]) else s
  }

  function TrimSpace(s: string): string {
    TrimRight(TrimLeft(s))
  }

  // -------- Human moves --------

  predicate ValidStatus(s: string) {
    s == OPEN || s == ACK || s == CLOSED
  }

  /** The state an entry says the incident comes from; an empty one reads as open. */
  function FromText(status: string): string {
    if status == "" then OPEN else status
  }

  function Transition(i: Incident, to: string, actor: string, assignee: string, note: string, at: Time): Moved {
    if !ValidStatus(to) then InvalidStatus
    else if i.status == to then SameStatus
    else
      var who := TrimSpace(assignee);
      Ok(i.(status := to,
            updatedAt := at,
            assignee := if who != "" then who else i.assignee,
            ackedAt := if to == OPEN then None else if to == ACK then Some(at) else i.ackedAt,
            closedAt := if to == CLOSED then Some(at) else None,
            timeline := i.timeline + [Entry(at, TrimSpace(actor), FromText(i.status), to, TrimSpace(note))]))
  }

  // -------- The cycle's moves --------

  function Opened(d: Incident, at: Time): Incident {
    d.(status := OPEN, ackedAt := None, closedAt := None, updatedAt := at,
       openedAt := if d.openedAt == ZERO_TIME then at else d.openedAt,
       count := if d.count < 1 then 1 else d.count)
  }

  function Refreshed(p: Incident, d: Incident, at: Time): Incident {
    p.(facts := d.facts, count := p.count + 1, updatedAt := at)
  }

  predicate ClosedBySystem(i: Incident) {
    && i.status == CLOSED
    && i.timeline != []
    && i.timeline[|i.timeline| - 1].actor == SYSTEM
    && i.timeline[|i.timeline| - 1].to == CLOSED
  }

  function Reopened(p: Incident, d: Incident, at: Time): Incident {
    Refreshed(p, d, at).(status := OPEN, ackedAt := None, closedAt := None, openedAt := at,
                         timeline := p.timeline + [Entry(at, SYSTEM, CLOSED, OPEN, "la condición volvió a observarse en el ciclo")])
  }

  function AutoClosed(i: Incident, at: Time): Incident {
    i.(status := CLOSED, closedAt := Some(at), updatedAt := at,
       timeline := i.timeline + [Entry(at, SYSTEM, FromText(i.status), CLOSED, "la condición dejó de observarse en el ciclo")])
  }

  /** What a cycle makes of a stored incident, given what it derived under the same id. */
  function Outcome(p: Incident, d: Option<Incident>, at: Time): Incident {
    if d.Some? then (if ClosedBySystem(p) then Reopened(p, d.value, at) else Refreshed(p, d.value, at))
    else if p.status != CLOSED then AutoClosed(p, at)
    else p
  }

  // -------- Lists --------

  /** The first incident with an id. */
  function Find(xs: seq<Incident>, id: string): Option<Incident> {
    if xs == [] then None else if xs[0].id == id then Some(xs[0]) else Find(xs[1..], id)
  }

  predicate HasID(xs: seq<Incident>, id: string) {
    exists i :: 0 <= i < |xs| && xs[i].id == id
  }

  predicate UniqueIDs(xs: seq<Incident>) {
    forall i, j :: 0 <= i < j < |xs| ==> xs[i].id != xs[j].id
  }

  /** No incident without an id, no id twice. */
  predicate WellFormed(xs: seq<Incident>) {
    UniqueIDs(xs) && forall i :: 0 <= i < |xs| ==> xs[i].id != ""
  }

  lemma {:induction false} FindIs(xs: seq<Incident>, id: string)
    ensures Find(xs, id).Some? <==> HasID(xs, id)
    ensures Find(xs, id).Some? ==> Find(xs, id).value in xs && Find(xs, id).value.id == id
    ensures UniqueIDs(xs) ==> forall i :: 0 <= i < |xs| && xs[i].id == id ==> Find(xs, id) == Some(xs[i])
  {
    if xs != [] {
      FindIs(xs[1..], id);
      assert forall i :: 1 <= i < |xs| ==> xs[i] == xs[1..][i - 1];
      if HasID(xs[1..], id) {
        var i :| 0 <= i < |xs| - 1 && xs[1..][i].id == id;
        assert xs[i + 1].id == id;
      }
    }
  }

  lemma {:induction false} FindConcat(a: seq<Incident>, b: seq<Incident>, id: string)
    ensures Find(a + b, id) == if Find(a, id).Some? then Find(a, id) else Find(b, id)
  {
    if a == [] {
      assert a + b == b;
    } else {
      assert (a + b)[1..] == a[1..] + b;
      FindConcat(a[1..], b, id);
    }
  }

  /** With unique ids, the order of a list does not matter to a search. */
  lemma FindPermuted(xs: seq<Incident>, ys: seq<Incident>, id: string)
    requires UniqueIDs(xs) && UniqueIDs(ys) && multiset(xs) == multiset(ys)
    ensures Find(xs, id) == Find(ys, id)
  {
    FindIs(xs, id);
    FindIs(ys, id);
    assert forall x :: x in xs <==> x in multiset(xs);
    assert forall x :: x in ys <==> x in multiset(ys);
    if Find(xs, id).Some? {
      var x := Find(xs, id).value;
      assert x in ys;
      var j :| 0 <= j < |ys| && ys[j] == x;
    }
    if Find(ys, id).Some? {
      var x := Find(ys, id).value;
      assert x in xs;
      var j :| 0 <= j < |xs| && xs[j] == x;
    }
  }

  lemma Once(xs: seq<Incident>, k: nat)
    requires UniqueIDs(xs) && k < |xs|
    ensures multiset(xs)[xs[k]] == 1
  {
    assert xs == xs[..k] + [xs[k]] + xs[k + 1..];
    assert xs[k] !in xs[..k] && xs[k] !in xs[k + 1..];
  }

  lemma Twice<T>(xs: seq<T>, i: nat, j: nat)
    requires i < j < |xs| && xs[i] == xs[j]
    ensures multiset(xs)[xs[i]] >= 2
  {
    assert xs == xs[..i] + [xs[i]] + xs[i + 1..j] + [xs[j]] + xs[j + 1..];
  }

  /** Unique ids are a matter of contents, not of order. */
  lemma UniquePermuted(xs: seq<Incident>, ys: seq<Incident>)
    requires UniqueIDs(xs) && multiset(xs) == multiset(ys)
    ensures UniqueIDs(ys)
  {
    forall i, j | 0 <= i < j < |ys| ensures ys[i].id != ys[j].id {
      assert ys[i] in multiset(ys) && ys[j] in multiset(ys);
      var k :| 0 <= k < |xs| && xs[k] == ys[i];
      var l :| 0 <= l < |xs| && xs[l] == ys[j];
      Once(xs, k);
      if ys[i] == ys[j] {
        Twice(ys, i, j);
      }
    }
  }
}
