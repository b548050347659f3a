/**
  The rules of the incident desk in plain terms: what comes first on the list, what a person's move and a cycle's merge
  do to one incident, what is announced, and which condition opens what (internal/domain/incident).
*/
module IncidentRules {
  import opened Base
  import opened Keys
  import opened Incidents
  import opened IncidentOrder
  import opened IncidentMerge
  import opened IncidentMergeTheorems
  import opened IncidentDerive

  // -------- The list --------

  /** One text comes before another at the first place where they differ, or because it is its beginning. */
  predicate DiffersAt(a: string, b: string, k: nat) {
    k <= |a| && k < |b| && a[..k] == b[..k] && (k == |a| || a[k] < b[k])
  }

  lemma {:induction false} TextBeforeIs(a: string, b: string)
    ensures TextBefore(a, b) <==> exists k: nat :: DiffersAt(a, b, k)
  {
    if b == "" {
    } else if a == "" || a[0] < b[0] {
      assert a[..0] == b[..0];
      assert DiffersAt(a, b, 0);
    } else if a[0] == b[0] {
      TextBeforeIs(a[1..], b[1..]);
      if k: nat :| DiffersAt(a[1..], b[1..], k) {
        assert a[..k + 1] == [a[0]] + a[1..][..k] && b[..k + 1] == [b[0]] + b[1..][..k];
        assert DiffersAt(a, b, k + 1);
      }
      if k: nat :| DiffersAt(a, b, k) {
        assert k > 0;
        assert a[1..][..k - 1] == a[..k][1..] && b[1..][..k - 1] == b[..k][1..];
        assert DiffersAt(a[1..], b[1..], k - 1);
      }
    } else {
      forall k: nat ensures !DiffersAt(a, b, k) {
        LaterLetter(a, b, k);
      }
    }
  }

  lemma LaterLetter(a: string, b: string, k: nat)
    requires a != "" && b != "" && a[0] > b[0]
    ensures !DiffersAt(a, b, k)
  {
    if 0 < k <= |a| && k < |b| {
      assert a[..k][0] == a[0] && b[..k][0] == b[0];
    }
  }

  /** The list shows open incidents first, then acknowledged ones, then closed ones. */
  lemma ByState(xs: seq<Incident>, i: nat, j: nat)
    requires InOrder(xs) && i < j < |xs|
    ensures xs[j].status == "open" ==> xs[i].status == "open"
    ensures xs[j].status == "ack" ==> xs[i].status == "open" || xs[i].status == "ack"
    ensures xs[j].status == "closed" ==> xs[i].status == "open" || xs[i].status == "ack" || xs[i].status == "closed"
  {
    hide TextBefore, SeverityRank;
    assert Before(xs[i], xs[j]);
  }

  /** Within a state the most severe come first: critical, high, medium, low, unknown, then anything else. */
  lemma BySeverity(xs: seq<Incident>, i: nat, j: nat)
    requires InOrder(xs) && i < j < |xs| && xs[i].status == xs[j].status
    ensures var a, b := xs[i].facts.severity, xs[j].facts.severity;
            && (b == "critical" ==> a == "critical")
            && (b == "high" ==> a == "critical" || a == "high")
            && (b == "medium" ==> a == "critical" || a == "high" || a == "medium")
            && (b == "low" ==> a == "critical" || a == "high" || a == "medium" || a == "low")
            && (b == "unknown" ==> a == "critical" || a == "high" || a == "medium" || a == "low" || a == "unknown")
  {
    hide TextBefore;
    assert Before(xs[i], xs[j]);
    SeverityRanks(xs[i].facts.severity);
    SeverityRanks(xs[j].facts.severity);
    hide SeverityRank;
  }

  lemma SeverityRanks(s: string)
    ensures SeverityRank(s) == 0 <==> s == "critical"
    ensures SeverityRank(s) == 1 <==> s == "high"
    ensures SeverityRank(s) == 2 <==> s == "medium"
    ensures SeverityRank(s) == 3 <==> s == "low"
    ensures SeverityRank(s) == 4 <==> s == "unknown"
    ensures SeverityRank(s) <= 5
  {
  }

  /** Within a state and a severity, by title and then by id, as texts. */
  lemma ByText(xs: seq<Incident>, i: nat, j: nat)
    requires InOrder(xs) && i < j < |xs|
    requires xs[i].status == xs[j].status && xs[i].facts.severity == xs[j].facts.severity
    ensures if xs[i].facts.title != xs[j].facts.title
            then exists k: nat :: DiffersAt(xs[i].facts.title, xs[j].facts.title, k)
            else exists k: nat :: DiffersAt(xs[i].id, xs[j].id, k)
  {
    assert Before(xs[i], xs[j]);
    TextBeforeIs(xs[i].facts.title, xs[j].facts.title);
    TextBeforeIs(xs[i].id, xs[j].id);
    hide TextBefore, DiffersAt, SeverityRank, StatusRank;
  }

  // -------- A person's move --------

  /** What is left of a text without the white space around it. */
  lemma TrimSpaceIs(s: string) returns (a: string, b: string)
    ensures s == a + TrimSpace(s) + b
    ensures (forall i :: 0 <= i < |a| ==> IsSpace(a[i])) && (forall i :: 0 <= i < |b| ==> IsSpace(b[i]))
    ensures var r := TrimSpace(s); r != "" ==> !IsSpace(r[0]) && !IsSpace(r[|r| - 1])
  {
    a := LeftOf(s);
    var rest := TrimLeft(s);
    b := RightOf(rest);
    assert s == a + (TrimSpace(s) + b);
  }

  lemma {:induction false} LeftOf(s: string) returns (a: string)
    ensures s == a + TrimLeft(s) && forall i :: 0 <= i < |a| ==> IsSpace(a[i])
  {
    if s != [] && IsSpace(s[0]) {
      var rest := LeftOf(s[1..]);
      a := [s[0]] + rest;
      assert s == [s[0]] + s[1..];
    } else {
      a := [];
    }
  }

  lemma {:induction false} RightOf(s: string) returns (b: string)
    ensures s == TrimRight(s) + b && forall i :: 0 <= i < |b| ==> IsSpace(b[i])
  {
    if s != [] && IsSpace(s[|s| - 1]) {
      var rest := RightOf(s[..|s| - 1]);
      b := rest + [s[|s| - 1]];
      assert s == s[..|s| - 1] + [s[|s| - 1]];
    } else {
      b := [];
    }
  }

  /** A move goes to one of the three states and to another than the present one; it stamps, assigns and is written down. */
  lemma MoveTells(i: Incident, to: string, actor: string, assignee: string, note: string, at: Time)
    ensures var m := Transition(i, to, actor, assignee, note, at);
            && (m.Ok? <==> (to == "open" || to == "ack" || to == "closed") && to != i.status)
            && (m.InvalidStatus? <==> to != "open" && to != "ack" && to != "closed")
            && (m.Ok? ==>
                  var j := m.incident;
                  && j.status == to && j.updatedAt == at
                  && j.assignee == (if TrimSpace(assignee) != "" then TrimSpace(assignee) else i.assignee)
                  && j.timeline == i.timeline + [Entry(at, TrimSpace(actor), if i.status == "" then "open" else i.status,
                                                           to, TrimSpace(note))]
                  && (to == "open" ==> j.ackedAt == None && j.closedAt == None)
                  && (to == "ack" ==> j.ackedAt == Some(at) && j.closedAt == None)
                  && (to == "closed" ==> j.ackedAt == i.ackedAt && j.closedAt == Some(at)))
  {
    hide TrimSpace;
  }

  /** Whoever a person puts in charge stays in charge through any cycles. */
  lemma {:induction false} AssigneeStands(steps: seq<IncidentLedger.Step>, more: seq<IncidentLedger.Step>, id: string)
    requires forall i :: 0 <= i < |steps| ==> IncidentLedger.Proper(steps[i])
    requires forall i :: 0 <= i < |more| ==> IncidentLedger.Proper(more[i]) && more[i].Cycle?
    requires Find(IncidentLedger.After(steps), id).Some?
    ensures Find(IncidentLedger.After(steps + more), id).Some?
    ensures Find(IncidentLedger.After(steps + more), id).value.assignee == Find(IncidentLedger.After(steps), id).value.assignee
  {
    if more == [] {
      assert steps + more == steps;
    } else {
      var rest, s := more[..|more| - 1], more[|more| - 1];
      AssigneeStands(steps, rest, id);
      IncidentLedger.AfterConcat(steps, more);
      IncidentLedger.AlwaysAudited(steps + rest);
      FindIs(IncidentLedger.After(steps + rest), id);
      assert id != "" by {
        assert WellFormed(IncidentLedger.After(steps + rest));
      }
      HumanLayerKept(IncidentLedger.After(steps + rest), s.derived, s.at, id);
      hide IncidentLedger.After, Find, Merging;
    }
  }

  // -------- A cycle's merge --------

  /** The last word on the incident is a closing signed by the system. */
  predicate SystemHadTheLastWord(p: Incident) {
    && p.status == "closed" && p.timeline != []
    && p.timeline[|p.timeline| - 1].actor == "sistema" && p.timeline[|p.timeline| - 1].to == "closed"
  }

  /** What a cycle makes of an id, from what was stored and what it derived under it. */
  lemma MergeTells(stored: seq<Incident>, derived: seq<Incident>, at: Time, id: string)
    requires id != ""
    ensures var p, d, q := Find(stored, id), Find(derived, id), Find(Merging(stored, derived, at).all, id);
            && (q.None? <==> p.None? && d.None?)
            && (p.None? && d.Some? ==>
                  && q.value.status == "open" && q.value.ackedAt == None && q.value.closedAt == None
                  && q.value.facts == d.value.facts && q.value.updatedAt == at
                  && q.value.openedAt == (if d.value.openedAt == 0 then at else d.value.openedAt)
                  && q.value.count == (if d.value.count < 1 then 1 else d.value.count))
            && (p.Some? && d.Some? ==>
                  && q.value.facts == d.value.facts && q.value.count == p.value.count + 1 && q.value.updatedAt == at
                  && (if SystemHadTheLastWord(p.value)
                      then && q.value.status == "open" && q.value.openedAt == at
                           && q.value.ackedAt == None && q.value.closedAt == None
                           && |q.value.timeline| == |p.value.timeline| + 1 && p.value.timeline <= q.value.timeline
                           && Signed(q.value, at, "closed", "open")
                      else q.value == p.value.(facts := d.value.facts, count := p.value.count + 1, updatedAt := at)))
            && (p.Some? && d.None? ==>
                  && q.value.facts == p.value.facts && q.value.count == p.value.count
                  && (if p.value.status == "closed" then q == p
                      else && q.value.status == "closed" && q.value.closedAt == Some(at) && q.value.updatedAt == at
                           && |q.value.timeline| == |p.value.timeline| + 1 && p.value.timeline <= q.value.timeline
                           && Signed(q.value, at, if p.value.status == "" then "open" else p.value.status, "closed")))
  {
    MergedAt(stored, derived, at, id);
    hide Merging, Find;
  }

  /** The last entry of the audit is the system's, from one state to another. */
  predicate Signed(x: Incident, at: Time, from: string, to: string) {
    x.timeline != [] &&
      var e := x.timeline[|x.timeline| - 1];
      e.at == at && e.actor == "sistema" && e.from == from && e.to == to
  }

  lemma {:induction false} FindOpenings(ps: seq<Incident>, ds: seq<Incident>, at: Time, id: string)
    requires UniqueIDs(ds)
    ensures Find(Openings(ps, ds, at), id)
         == if Find(ds, id).None? then None
            else if Find(ps, id).None? then Some(Opened(Find(ds, id).value, at))
            else if ClosedBySystem(Find(ps, id).value) then Some(Reopened(Find(ps, id).value, Find(ds, id).value, at))
            else None
  {
    if ds != [] {
      hide Opened, Reopened, ClosedBySystem;
      var n := |ds| - 1;
      var rest := Openings(ps, ds[..n], at);
      FindOpenings(ps, ds[..n], at, id);
      FindIs(ps, ds[n].id);
      FindIs(ds[..n], ds[n].id);
      OpenedIDs(ds[n], at);
      if Find(ps, ds[n].id).Some? {
        ReopenedIDs(Find(ps, ds[n].id).value, ds[n], at);
        FindSnoc(rest, Reopened(Find(ps, ds[n].id).value, ds[n], at), id);
      }
      FindSnoc(rest, Opened(ds[n], at), id);
      FindSnoc(ds[..n], ds[n], id);
      assert ds == ds[..n] + [ds[n]];
      hide UniqueIDs, Find;
    }
  }

  lemma OpenedIDs(d: Incident, at: Time)
    ensures Opened(d, at).id == d.id
  {
  }

  lemma ReopenedIDs(p: Incident, d: Incident, at: Time)
    ensures Reopened(p, d, at).id == p.id
  {
  }

  lemma {:induction false} FindClosings(ps: seq<Incident>, ds: seq<Incident>, at: Time, id: string)
    requires UniqueIDs(ps)
    ensures Find(Closings(ps, ds, at), id)
         == if Find(ps, id).Some? && Find(ds, id).None? && Find(ps, id).value.status != CLOSED
            then Some(AutoClosed(Find(ps, id).value, at)) else None
  {
    if ps != [] {
      hide AutoClosed;
      var n := |ps| - 1;
      FindClosings(ps[..n], ds, at, id);
      FindIs(ps[..n], ps[n].id);
      ClosedIDs(ps[n], at);
      FindSnoc(Closings(ps[..n], ds, at), AutoClosed(ps[n], at), id);
      FindSnoc(ps[..n], ps[n], id);
      assert ps == ps[..n] + [ps[n]];
      hide UniqueIDs, Find;
    }
  }

  lemma ClosedIDs(p: Incident, at: Time)
    ensures AutoClosed(p, at).id == p.id
  {
  }

  /**
    What a cycle announces: as opened, the derived incidents that nobody had stored or the system had closed; as closed,
    the unclosed ones it no longer derives; each as the merged list now holds it.
  */
  lemma AnnouncedIff(stored: seq<Incident>, derived: seq<Incident>, at: Time, id: string)
    requires id != ""
    ensures var m, p, d := Merging(stored, derived, at), Find(stored, id), Find(derived, id);
            && (Find(m.openings, id).Some? <==> d.Some? && (p.None? || SystemHadTheLastWord(p.value)))
            && (Find(m.openings, id).Some? ==> Find(m.openings, id) == Find(m.all, id))
            && (Find(m.closings, id).Some? <==> d.None? && p.Some? && p.value.status != "closed")
            && (Find(m.closings, id).Some? ==> Find(m.closings, id) == Find(m.all, id))
  {
    var ps, ds := Distinct(stored), Distinct(derived);
    DistinctWellFormed(stored);
    DistinctWellFormed(derived);
    DistinctFind(stored, id);
    DistinctFind(derived, id);
    MergedAt(stored, derived, at, id);
    FindOpenings(ps, ds, at, id);
    FindClosings(ps, ds, at, id);
    hide Find, Distinct, Sorted, Unsorted, Openings, Closings;
  }

  /** What a cycle writes beside its own moves. */
  lemma CycleNotes(p: Incident, d: Incident, at: Time)
    ensures Reopened(p, d, at).timeline[|p.timeline|].note == "la condición volvió a observarse en el ciclo"
    ensures AutoClosed(p, at).timeline[|p.timeline|].note == "la condición dejó de observarse en el ciclo"
  {
    hide Refreshed, FromText;
  }

  /** Announcements come in the order of the derived list, and those of closings in the order of the stored one. */
  lemma {:induction false} OpeningsConcat(ps: seq<Incident>, a: seq<Incident>, b: seq<Incident>, at: Time)
    ensures Openings(ps, a + b, at) == Openings(ps, a, at) + Openings(ps, b, at)
  {
    if b == [] {
      assert a + b == a;
    } else {
      hide Opened, Reopened, ClosedBySystem, Find;
      OpeningsConcat(ps, a, b[..|b| - 1], at);
      assert (a + b)[..|a + b| - 1] == a + b[..|b| - 1];
    }
  }

  lemma {:induction false} ClosingsConcat(a: seq<Incident>, b: seq<Incident>, ds: seq<Incident>, at: Time)
    ensures Closings(a + b, ds, at) == Closings(a, ds, at) + Closings(b, ds, at)
  {
    if b == [] {
      assert a + b == a;
    } else {
      hide AutoClosed, Vanished;
      ClosingsConcat(a, b[..|b| - 1], ds, at);
      assert (a + b)[..|a + b| - 1] == a + b[..|b| - 1];
    }
  }

  // -------- Conditions --------

  /** Which facts about a device open which incident. */
  lemma ConditionIs(d: Device, k: Kind)
    ensures k in Conditions(d) <==>
            match k
            case NonCompliant => d.compliant == Some(false)
            case HighRisk => d.riskScore.Some? && d.riskScore.value >= 85.0
            case GeofenceExit => d.fenceState == "outside"
            case UnknownLocation => d.fenceState == "unknown"
            case RouteDeviation => d.routeState == "off_route"
            case LocationIntegrity => d.suspicious
            case ActionFailed => false
  {
    assert |"outside"| == 7 && |"unknown"| == 7 && "outside"[0] != "unknown"[0];
  }

  /** The incident of a condition: its id, its device, its severity, its fence, open and counted once. */
  lemma DraftIs(d: Device, w: Wording, at: Time, k: Kind)
    ensures var x := Draft(d, w, at, k);
            && x.facts.deviceID == d.id && x.facts.deviceName == (if d.name != "" then d.name else d.id)
            && x.facts.fenceID == (if d.insideFence != "" then d.insideFence else d.lastInsideFence)
            && x.facts.riskScore == d.riskScore && x.status == "open" && x.count == 1
            && x.openedAt == at && x.updatedAt == at && x.facts.kind == KindText(k)
            && (k == HighRisk ==> x.facts.severity == "critical")
            && (k == GeofenceExit ==> x.facts.severity == if d.compliant == Some(false) then "critical" else "high")
            && (k == UnknownLocation ==> x.facts.severity == "medium")
            && (k == NonCompliant || k == RouteDeviation || k == LocationIntegrity ==> x.facts.severity == "high")
            && x.facts.title == w.title(k, x.facts.deviceName) && x.facts.recommendation == w.advice(k)
  {
    hide KindText, EvidenceOf;
  }

  /** Each kind brings its own evidence. */
  lemma EvidenceIs(d: Device, w: Wording, at: Time)
    ensures Draft(d, w, at, NonCompliant).facts.evidence == ["compliant=false"]
    ensures Draft(d, w, at, HighRisk).facts.evidence == d.riskEvidence
    ensures Draft(d, w, at, GeofenceExit).facts.evidence == d.exitEvidence
    ensures Draft(d, w, at, UnknownLocation).facts.evidence == d.unknownEvidence
    ensures Draft(d, w, at, RouteDeviation).facts.evidence == d.routeEvidence
    ensures Draft(d, w, at, LocationIntegrity).facts.evidence == d.integrityEvidence
  {
    hide KindText, SeverityOf, IncidentID, NameOf;
  }

  lemma KindTexts()
    ensures KindText(NonCompliant) == "device_non_compliant" && KindText(HighRisk) == "high_risk_device"
    ensures KindText(GeofenceExit) == "geofence_exit" && KindText(UnknownLocation) == "device_unknown_location"
    ensures KindText(RouteDeviation) == "route_deviation" && KindText(LocationIntegrity) == "location_integrity"
    ensures KindText(ActionFailed) == "automation_failed"
  {
  }

  /** For each kind a device can show, the cycle's list holds its incident if and only if the device meets its condition. */
  lemma DerivedIff(ds: seq<Device>, rs: seq<Outcome>, w: Wording, at: Time, i: nat)
    requires UniqueDevices(ds) && i < |ds| && ds[i].id != ""
    ensures var out, d := Derived(ds, rs, w, at), ds[i];
            && (Find(out, "inc-" + "device_non_compliant" + "-" + d.id).Some? <==> d.compliant == Some(false))
            && (Find(out, "inc-" + "high_risk_device" + "-" + d.id).Some? <==> d.riskScore.Some? && d.riskScore.value >= 85.0)
            && (Find(out, "inc-" + "geofence_exit" + "-" + d.id).Some? <==> d.fenceState == "outside")
            && (Find(out, "inc-" + "device_unknown_location" + "-" + d.id).Some? <==> d.fenceState == "unknown")
            && (Find(out, "inc-" + "route_deviation" + "-" + d.id).Some? <==> d.routeState == "off_route")
            && (Find(out, "inc-" + "location_integrity" + "-" + d.id).Some? <==> d.suspicious)
  {
    hide Derived, Conditions, Find, Draft, KindText;
    KindTexts();
    ShownIff(ds, rs, w, at, i, NonCompliant);
    ShownIff(ds, rs, w, at, i, HighRisk);
    ShownIff(ds, rs, w, at, i, GeofenceExit);
    ShownIff(ds, rs, w, at, i, UnknownLocation);
    ShownIff(ds, rs, w, at, i, RouteDeviation);
    ShownIff(ds, rs, w, at, i, LocationIntegrity);
  }

  lemma ShownIff(ds: seq<Device>, rs: seq<Outcome>, w: Wording, at: Time, i: nat, k: Kind)
    requires UniqueDevices(ds) && i < |ds| && ds[i].id != "" && k != ActionFailed
    ensures Find(Derived(ds, rs, w, at), "inc-" + KindText(k) + "-" + ds[i].id).Some? <==>
            match k
            case NonCompliant => ds[i].compliant == Some(false)
            case HighRisk => ds[i].riskScore.Some? && ds[i].riskScore.value >= 85.0
            case GeofenceExit => ds[i].fenceState == "outside"
            case UnknownLocation => ds[i].fenceState == "unknown"
            case RouteDeviation => ds[i].routeState == "off_route"
            case LocationIntegrity => ds[i].suspicious
            case ActionFailed => false
  {
    hide Derived, Conditions, Find, Draft, KindText;
    DerivedAt(ds, rs, w, at, i, k);
    ConditionIs(ds[i], k);
    assert IncidentID(KindText(k), ds[i].id) == "inc-" + KindText(k) + "-" + ds[i].id;
  }

  // -------- Failed actions --------

  /** A connector refused the action; what a guardrail blocked is no failure. */
  predicate Failure(r: Outcome) {
    !r.ok && !r.blocked && r.deviceID != "" && r.action != ""
  }

  lemma NoConditionHas(ds: seq<Device>, w: Wording, at: Time, rest: string)
    ensures Find(RawDevices(ds, w, at), IncidentID(KindText(ActionFailed), rest)).None?
  {
    hide IncidentID, KindText, RawDevices, Conditions, Draft, Find;
    var id := IncidentID(KindText(ActionFailed), rest);
    FindIs(RawDevices(ds, w, at), id);
    if Find(RawDevices(ds, w, at), id).Some? {
      var x := Find(RawDevices(ds, w, at), id).value;
      var j := RawFrom(ds, w, at, x);
      var m :| 0 <= m < |DeriveDevice(ds[j], w, at)| && DeriveDevice(ds[j], w, at)[m] == x;
      DraftID(ds[j], w, at, Conditions(ds[j])[m]);
      IncidentIDInjective(Conditions(ds[j])[m], ds[j].id, ActionFailed, rest);
      ConditionIs(ds[j], ActionFailed);
    }
  }

  lemma DraftID(d: Device, w: Wording, at: Time, k: Kind)
    ensures Draft(d, w, at, k).id == IncidentID(KindText(k), d.id)
  {
  }

  lemma {:induction false} FailuresAre(rs: seq<Outcome>, w: Wording, at: Time, rest: string)
    ensures Find(RawFailures(rs, w, at), IncidentID(KindText(ActionFailed), rest)).Some?
            <==> exists i :: 0 <= i < |rs| && Failure(rs[i]) && rs[i].deviceID + "-" + rs[i].action == rest
  {
    if rs != [] {
      hide KindText, Find;
      var n := |rs| - 1;
      var id := IncidentID(KindText(ActionFailed), rest);
      FailuresAre(rs[..n], w, at, rest);
      assert forall i :: 0 <= i < n ==> rs[..n][i] == rs[i];
      var f := FailedAction(rs[n], w, at);
      if f.Some? {
        FindSnoc(RawFailures(rs[..n], w, at), f.value, id);
        var own := rs[n].deviceID + "-" + rs[n].action;
        assert f.value.id == IncidentID(KindText(ActionFailed), own);
        if f.value.id == id {
          IncidentIDInjective(ActionFailed, own, ActionFailed, rest);
        }
      }
    } else {
      assert Find([], IncidentID(KindText(ActionFailed), rest)).None?;
    }
  }

  /** The list holds a failure of an action on a device if and only if some result of the cycle was such a failure. */
  lemma FailureIff(ds: seq<Device>, rs: seq<Outcome>, w: Wording, at: Time, deviceID: string, action: string)
    requires action in ACTIONS && forall i :: 0 <= i < |rs| ==> rs[i].action in ACTIONS
    ensures Find(Derived(ds, rs, w, at), "inc-" + "automation_failed" + "-" + (deviceID + "-" + action)).Some?
            <==> exists i :: 0 <= i < |rs| && Failure(rs[i]) && rs[i].deviceID == deviceID && rs[i].action == action
  {
    var rest := deviceID + "-" + action;
    KindTexts();
    hide Derived, Find, RawDevices, RawFailures, KindText;
    var id := IncidentID(KindText(ActionFailed), rest);
    assert id == "inc-" + "automation_failed" + "-" + rest;
    DerivedIs(ds, rs, w, at);
    FindConcat(RawDevices(ds, w, at), RawFailures(rs, w, at), id);
    NoConditionHas(ds, w, at, rest);
    FailuresAre(rs, w, at, rest);
    forall i | 0 <= i < |rs| && rs[i].deviceID + "-" + rs[i].action == rest
      ensures rs[i].deviceID == deviceID && rs[i].action == action
    {
      FailureIDInjective(rs[i].deviceID, rs[i].action, deviceID, action);
    }
  }

  /** A failure's incident: medium, on the device it names, dated by the result or else by the cycle. */
  lemma FailureDraftIs(r: Outcome, w: Wording, at: Time)
    ensures FailedAction(r, w, at).Some? <==> Failure(r)
    ensures Failure(r) ==>
              var x := FailedAction(r, w, at).value;
              && x.facts.deviceID == r.deviceID && x.facts.deviceName == (if r.deviceName == "" then r.deviceID else r.deviceName)
              && x.facts.severity == "medium" && x.facts.kind == "automation_failed" && x.facts.fenceID == r.fenceID
              && x.facts.riskScore == None && x.facts.evidence == r.evidence && x.status == "open" && x.count == 1
              && x.openedAt == (if r.at == 0 then at else r.at) && x.updatedAt == x.openedAt
              && x.facts.title == w.failed(r.action, x.facts.deviceName) && x.facts.recommendation == w.advice(ActionFailed)
  {
  }
}
