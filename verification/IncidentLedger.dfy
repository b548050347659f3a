/** The incident ledger over whole runs of cycles and human moves: the audit trail replays to the state. */
module IncidentLedger {
  import opened Base
  import opened Incidents
  import opened IncidentMerge
  import opened IncidentMergeTheorems

  datatype Step = Cycle(derived: seq<Incident>, at: Time)
                | Patch(id: string, to: string, actor: string, assignee: string, note: string, at: Time)

  /** `incidentPatch`: the first incident with the id, moved; nothing changes when the move is refused. */
  function Patched(xs: seq<Incident>, id: string, to: string, actor: string, assignee: string, note: string, at: Time): seq<Incident> {
    if xs == [] then []
    else if xs[0].id == id then
      var m := Transition(xs[0], to, actor, assignee, note, at);
      if m.Ok? then [m.incident] + xs[1..] else xs
    else [xs[0]] + Patched(xs[1..], id, to, actor, assignee, note, at)
  }

  lemma {:induction false} PatchedInPlace(xs: seq<Incident>, k: nat, id: string, to: string, actor: string,
                                          assignee: string, note: string, at: Time)
    requires k <= |xs| && (forall i :: 0 <= i < k ==> xs[i].id != id) && (k < |xs| ==> xs[k].id == id)
    ensures Patched(xs, id, to, actor, assignee, note, at)
         == if k < |xs| && Transition(xs[k], to, actor, assignee, note, at).Ok?
            then xs[k := Transition(xs[k], to, actor, assignee, note, at).incident] else xs
  {
    hide Transition;
    if 0 < k {
      PatchedInPlace(xs[1..], k - 1, id, to, actor, assignee, note, at);
    }
  }

  method IndexOfIncident(xs: seq<Incident>, id: string) returns (k: nat)
    ensures k <= |xs| && (forall i :: 0 <= i < k ==> xs[i].id != id) && (k < |xs| ==> xs[k].id == id)
  {
    k := 0;
    while k < |xs| && xs[k].id != id
      invariant k <= |xs| && forall i :: 0 <= i < k ==> xs[i].id != id
    {
      k := k + 1;
    }
  }

  method IncidentPatch(xs: seq<Incident>, id: string, to: string, actor: string, assignee: string, note: string, at: Time)
    returns (out: seq<Incident>)
    ensures out == Patched(xs, id, to, actor, assignee, note, at)
  {
    hide Transition;
    var k := IndexOfIncident(xs, id);
    PatchedInPlace(xs, k, id, to, actor, assignee, note, at);
    if k == |xs| {
      return xs;
    }
    var m := Transition(xs[k], to, actor, assignee, note, at);
    if !m.Ok? {
      return xs;
    }
    return xs[k := m.incident];
  }

  function Next(xs: seq<Incident>, s: Step): seq<Incident> {
    match s
    case Cycle(derived, at) => Merging(xs, derived, at).all
    case Patch(id, to, actor, assignee, note, at) => Patched(xs, id, to, actor, assignee, note, at)
  }

  function After(steps: seq<Step>): seq<Incident> {
    if steps == [] then [] else Next(After(steps[..|steps| - 1]), steps[|steps| - 1])
  }

  /** Derived incidents carry no audit yet, and a person never signs as the system. */
  predicate Proper(s: Step) {
    match s
    case Cycle(derived, _) => forall i :: 0 <= i < |derived| ==> derived[i].timeline == []
    case Patch(_, _, actor, _, _, _) => TrimSpace(actor) != SYSTEM
  }

  // -------- One incident --------

  /** The audit is a chain of real moves between valid states, starting at open. */
  predicate Chained(t: seq<Entry>) {
    && (t != [] ==> t[0].from == OPEN)
    && (forall i :: 0 <= i < |t| ==> ValidStatus(t[i].to) && t[i].from != t[i].to)
    && (forall i :: 0 <= i < |t| - 1 ==> t[i + 1].from == t[i].to)
  }

  /** The state the audit leads to. */
  function EndOf(t: seq<Entry>): string {
    if t == [] then OPEN else t[|t| - 1].to
  }

  predicate Stamped(i: Incident) {
    && (i.status == CLOSED <==> i.closedAt.Some?)
    && (i.status == ACK ==> i.ackedAt.Some?)
    && (i.status == OPEN ==> i.ackedAt.None?)
    && (i.timeline != [] ==> var last := i.timeline[|i.timeline| - 1];
          && (i.status == CLOSED ==> i.closedAt == Some(last.at))
          && (i.status == ACK ==> i.ackedAt == Some(last.at)))
  }

  predicate Audited(i: Incident) {
    Chained(i.timeline) && EndOf(i.timeline) == i.status && ValidStatus(i.status) && Stamped(i)
  }

  lemma ChainSnoc(t: seq<Entry>, e: Entry)
    requires Chained(t) && e.from == EndOf(t) && ValidStatus(e.to) && e.to != e.from
    ensures Chained(t + [e]) && EndOf(t + [e]) == e.to
  {
  }

  lemma TransitionAudited(i: Incident, to: string, actor: string, assignee: string, note: string, at: Time)
    requires Audited(i) && Transition(i, to, actor, assignee, note, at).Ok?
    ensures var j := Transition(i, to, actor, assignee, note, at).incident;
            && Audited(j) && i.timeline <= j.timeline
            && j.id == i.id && j.facts == i.facts && j.count == i.count && j.openedAt == i.openedAt
  {
    hide TrimSpace;
    ChainSnoc(i.timeline, Entry(at, TrimSpace(actor), FromText(i.status), to, TrimSpace(note)));
  }

  lemma OutcomeAudited(p: Incident, d: Option<Incident>, at: Time)
    requires Audited(p)
    ensures var q := Outcome(p, d, at); Audited(q) && q.id == p.id && p.timeline <= q.timeline
  {
    if d.Some? && ClosedBySystem(p) {
      ChainSnoc(p.timeline, Entry(at, SYSTEM, CLOSED, OPEN, "la condición volvió a observarse en el ciclo"));
    } else if d.None? && p.status != CLOSED {
      ChainSnoc(p.timeline, Entry(at, SYSTEM, FromText(p.status), CLOSED, "la condición dejó de observarse en el ciclo"));
    }
  }

  // -------- The ledger --------

  ghost predicate Sound(xs: seq<Incident>) {
    WellFormed(xs) && forall id :: Find(xs, id).Some? ==> Audited(Find(xs, id).value)
  }

  lemma {:induction false} PatchedAt(xs: seq<Incident>, id: string, to: string, actor: string, assignee: string,
                                     note: string, at: Time)
    ensures var ys := Patched(xs, id, to, actor, assignee, note, at);
            && |ys| == |xs|
            && (forall k :: 0 <= k < |xs| ==> ys[k].id == xs[k].id)
            && forall k :: Find(ys, k) == if k == id && Find(xs, id).Some?
                                             && Transition(Find(xs, id).value, to, actor, assignee, note, at).Ok?
                                          then Some(Transition(Find(xs, id).value, to, actor, assignee, note, at).incident)
                                          else Find(xs, k)
  {
    hide ValidStatus, TrimSpace;
    if xs != [] {
      PatchedAt(xs[1..], id, to, actor, assignee, note, at);
      var ys := Patched(xs, id, to, actor, assignee, note, at);
      assert forall k :: 1 <= k < |xs| ==> xs[k] == xs[1..][k - 1];
      if xs[0].id != id {
        assert ys[1..] == Patched(xs[1..], id, to, actor, assignee, note, at);
      }
    }
  }

  /** The incident with an id after a step: still there, its audit extended at the end, and sound. */
  lemma NextAt(xs: seq<Incident>, s: Step, id: string)
    requires Sound(xs) && Proper(s)
    ensures WellFormed(Next(xs, s))
    ensures Find(xs, id).Some? ==> Find(Next(xs, s), id).Some?
                                   && Find(xs, id).value.timeline <= Find(Next(xs, s), id).value.timeline
    ensures Find(Next(xs, s), id).Some? ==> Audited(Find(Next(xs, s), id).value)
  {
    hide Audited;
    FindIs(xs, id);
    match s
    case Cycle(derived, at) =>
      MergedWellFormed(xs, derived, at);
      MergedAt(xs, derived, at, id);
      FindIs(derived, id);
      if Find(xs, id).Some? {
        OutcomeAudited(Find(xs, id).value, Find(derived, id), at);
      } else if Find(derived, id).Some? {
        OpenedAudited(Find(derived, id).value, at);
      }
      hide Merging, Outcome, Opened;
    case Patch(k, to, actor, assignee, note, at) =>
      PatchedAt(xs, k, to, actor, assignee, note, at);
      if Find(xs, k).Some? && Transition(Find(xs, k).value, to, actor, assignee, note, at).Ok? {
        TransitionAudited(Find(xs, k).value, to, actor, assignee, note, at);
      }
      hide Transition;
  }

  lemma OpenedAudited(d: Incident, at: Time)
    requires d.timeline == []
    ensures Audited(Opened(d, at))
  {
  }

  /** In every reachable ledger each audit trail is a chain from open to the present state, with matching stamps. */
  lemma {:induction false} AlwaysAudited(steps: seq<Step>)
    requires forall i :: 0 <= i < |steps| ==> Proper(steps[i])
    ensures Sound(After(steps))
  {
    if steps != [] {
      hide Next, Audited, Find, WellFormed;
      var rest, s := steps[..|steps| - 1], steps[|steps| - 1];
      AlwaysAudited(rest);
      forall id ensures Find(Next(After(rest), s), id).Some? ==> Audited(Find(Next(After(rest), s), id).value) {
        NextAt(After(rest), s, id);
      }
      NextAt(After(rest), s, "");
    }
  }

  lemma AfterConcat(steps: seq<Step>, more: seq<Step>)
    requires more != []
    ensures After(steps + more) == Next(After(steps + more[..|more| - 1]), more[|more| - 1])
  {
    assert (steps + more)[..|steps + more| - 1] == steps + more[..|more| - 1];
  }

  /** No incident ever leaves the ledger, and its audit trail only grows, at its end. */
  lemma {:induction false} TrailOnlyGrows(steps: seq<Step>, more: seq<Step>, id: string)
    requires forall i :: 0 <= i < |steps| ==> Proper(steps[i])
    requires forall i :: 0 <= i < |more| ==> Proper(more[i])
    requires Find(After(steps), id).Some?
    ensures Find(After(steps + more), id).Some?
    ensures Find(After(steps), id).value.timeline <= Find(After(steps + more), id).value.timeline
  {
    if more == [] {
      assert steps + more == steps;
    } else {
      hide Next, Find, Sound;
      var rest, s := more[..|more| - 1], more[|more| - 1];
      TrailOnlyGrows(steps, rest, id);
      AlwaysAudited(steps + rest);
      AfterConcat(steps, more);
      NextAt(After(steps + rest), s, id);
    }
  }

  /** A closing that a person signed stands through any number of cycles. */
  lemma {:induction false} HumanCloseIsFinal(steps: seq<Step>, more: seq<Step>, id: string)
    requires forall i :: 0 <= i < |steps| ==> Proper(steps[i])
    requires forall i :: 0 <= i < |more| ==> Proper(more[i]) && more[i].Cycle?
    requires Find(After(steps), id).Some? && Find(After(steps), id).value.status == CLOSED
    requires !ClosedBySystem(Find(After(steps), id).value)
    ensures Find(After(steps + more), id).Some?
    ensures var p, q := Find(After(steps), id).value, Find(After(steps + more), id).value;
            q.status == CLOSED && q.timeline == p.timeline && q.closedAt == p.closedAt
  {
    if more == [] {
      assert steps + more == steps;
    } else {
      var rest, s := more[..|more| - 1], more[|more| - 1];
      HumanCloseIsFinal(steps, rest, id);
      AfterConcat(steps, more);
      AlwaysAudited(steps + rest);
      FindIs(After(steps + rest), id);
      MergedAt(After(steps + rest), s.derived, s.at, id);
      hide After, Find;
    }
  }

  /** Once a person closes an incident, no sequence of cycles opens it again or touches its audit. */
  lemma HumanCloseStands(steps: seq<Step>, actor: string, assignee: string, note: string, at: Time,
                         more: seq<Step>, id: string)
    requires forall i :: 0 <= i < |steps| ==> Proper(steps[i])
    requires forall i :: 0 <= i < |more| ==> Proper(more[i]) && more[i].Cycle?
    requires Proper(Patch(id, CLOSED, actor, assignee, note, at))
    requires Find(After(steps), id).Some? && Find(After(steps), id).value.status != CLOSED
    ensures var p := Find(After(steps), id).value;
            var q := Find(After(steps + [Patch(id, CLOSED, actor, assignee, note, at)] + more), id);
            && q.Some? && q.value.status == CLOSED && q.value.closedAt == Some(at)
            && q.value.timeline == p.timeline + [Entry(at, TrimSpace(actor), p.status, CLOSED, TrimSpace(note))]
  {
    var s := Patch(id, CLOSED, actor, assignee, note, at);
    AlwaysAudited(steps);
    PatchedAt(After(steps), id, CLOSED, actor, assignee, note, at);
    AfterConcat(steps, [s]);
    assert [s][..0] == [] && steps + [] == steps;
    assert After(steps + [s]) == Next(After(steps), s);
    hide After, Find, Next;
    HumanCloseIsFinal(steps + [s], more, id);
  }

  /** Who closed an incident is what its last entry says: the system's closings are exactly the reopenable ones. */
  lemma ReopensIffSystemClosed(steps: seq<Step>, derived: seq<Incident>, at: Time, id: string)
    requires forall i :: 0 <= i < |steps| ==> Proper(steps[i])
    requires Find(After(steps), id).Some? && Find(After(steps), id).value.status == CLOSED
    requires Find(derived, id).Some?
    ensures var p := Find(After(steps), id).value;
            && p.timeline != []
            && Find(Merging(After(steps), derived, at).all, id).Some?
            && (Find(Merging(After(steps), derived, at).all, id).value.status == OPEN
                <==> p.timeline[|p.timeline| - 1].actor == SYSTEM)
  {
    AlwaysAudited(steps);
    FindIs(After(steps), id);
    MergedAt(After(steps), derived, at, id);
    hide After, Find, Merging;
  }
}
