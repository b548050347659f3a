/** From the fleet and the action results of a cycle to incidents with deterministic ids (internal/domain/incident/derive.go). */
module IncidentDerive {
  import opened Base
  import opened Keys
  import opened Incidents
  import opened IncidentOrder
  import opened IncidentMerge
  import opened IncidentMergeTheorems
  import IncidentLedger

  datatype Kind = NonCompliant | HighRisk | GeofenceExit | UnknownLocation | RouteDeviation | LocationIntegrity | ActionFailed

  function KindText(k: Kind): string {
    match k
    case NonCompliant => "device_non_compliant"
    case HighRisk => "high_risk_device"
    case GeofenceExit => "geofence_exit"
    case UnknownLocation => "device_unknown_location"
    case RouteDeviation => "route_deviation"
    case LocationIntegrity => "location_integrity"
    case ActionFailed => "automation_failed"
  }

  const HIGH_RISK_SCORE := 85.0

  /** The part of a device that incidents are derived from; texts of numbers come formatted. */
  datatype Device = Device(id: string, name: string, compliant: Option<bool>, riskScore: Option<real>,
                           fenceState: string, insideFence: string, lastInsideFence: string, routeState: string,
                           suspicious: bool, riskEvidence: seq<string>, exitEvidence: seq<string>,
                           unknownEvidence: seq<string>, routeEvidence: seq<string>, integrityEvidence: seq<string>)

  /** An audited action result. */
  datatype Outcome = Outcome(deviceID: string, deviceName: string, action: string, ok: bool, blocked: bool,
                             at: Time, fenceID: string, evidence: seq<string>)

  /** The texts shown to people: titles from names, and from the action for a failure; one advice per kind. */
  datatype Wording = Wording(title: (Kind, string) -> string, failed: (string, string) -> string, advice: Kind -> string)

  // -------- Identity --------

  function IncidentID(kind: string, rest: string): string {
    "inc-" + kind + "-" + rest
  }

  lemma FirstCut(a: string, b: string, a': string, b': string, c: char)
    requires Free(a, c) && Free(a', c) && a + [c] + b == a' + [c] + b'
    ensures a == a' && b == b'
  {
    var s := a + [c] + b;
    assert s[|a|] == c && s[|a'|] == c;
    assert forall i :: 0 <= i < |a| ==> s[i] == a[i];
    assert forall i :: 0 <= i < |a'| ==> s[i] == a'[i];
    assert |a| == |a'|;
    assert a == s[..|a|] && a' == s[..|a|] && b == s[|a| + 1..] && b' == s[|a| + 1..];
  }

  lemma LastCut(a: string, b: string, a': string, b': string, c: char)
    requires Free(b, c) && Free(b', c) && a + [c] + b == a' + [c] + b'
    ensures a == a' && b == b'
  {
    var s := a + [c] + b;
    assert s[|a|] == c && s[|a'|] == c;
    assert forall i :: |a| < i < |s| ==> s[i] == b[i - |a| - 1];
    assert forall i :: |a'| < i < |s| ==> s[i] == b'[i - |a'| - 1];
    assert |a| == |a'|;
    assert a == s[..|a|] && a' == s[..|a|] && b == s[|a| + 1..] && b' == s[|a| + 1..];
  }

  lemma KindTextFree(k: Kind)
    ensures Free(KindText(k), '-')
  {
    assert '-' !in KindText(k);
  }

  /** No two kinds even have texts of one length. */
  lemma KindTextInjective(k: Kind, k': Kind)
    requires |KindText(k)| == |KindText(k')|
    ensures k == k'
  {
  }

  /** The kind, whose text has no dash, and the rest can be read back from the id. */
  lemma IncidentIDInjective(k: Kind, rest: string, k': Kind, rest': string)
    requires IncidentID(KindText(k), rest) == IncidentID(KindText(k'), rest')
    ensures k == k' && rest == rest'
  {
    KindTextFree(k);
    KindTextFree(k');
    var a, b := KindText(k), KindText(k');
    hide KindText;
    assert IncidentID(a, rest)[4..] == a + "-" + rest && IncidentID(b, rest')[4..] == b + "-" + rest';
    FirstCut(a, rest, b, rest', '-');
    KindTextInjective(k, k');
  }

  function FailureRest(deviceID: string, action: string): string {
    deviceID + "-" + action
  }

  /** A device id may hold dashes; an action never does, so a failure's id still tells both apart. */
  lemma FailureIDInjective(d: string, a: string, d': string, a': string)
    requires a in ACTIONS && a' in ACTIONS
    requires IncidentID(KindText(ActionFailed), FailureRest(d, a)) == IncidentID(KindText(ActionFailed), FailureRest(d', a'))
    ensures d == d' && a == a'
  {
    IncidentIDInjective(ActionFailed, FailureRest(d, a), ActionFailed, FailureRest(d', a'));
    hide IncidentID, KindText;
    assert Free(a, '-') && Free(a', '-');
    LastCut(d, a, d', a', '-');
  }

  // -------- The conditions of a device --------

  function NameOf(d: Device): string {
    if d.name != "" then d.name else d.id
  }

  /** `deriveHealth` and `deriveLocation`: the conditions a device shows, in their order. */
  function Conditions(d: Device): seq<Kind> {
    (if d.compliant == Some(false) then [NonCompliant] else [])
    + (if d.riskScore.Some? && d.riskScore.value >= HIGH_RISK_SCORE then [HighRisk] else [])
    + (if d.fenceState == "outside" then [GeofenceExit] else if d.fenceState == "unknown" then [UnknownLocation] else [])
    + (if d.routeState == "off_route" then [RouteDeviation] else [])
    + (if d.suspicious then [LocationIntegrity] else [])
  }

  /** Being outside while not compliant raises the exit to critical. */
  function SeverityOf(d: Device, k: Kind): string {
    match k
    case HighRisk => "critical"
    case GeofenceExit => if d.compliant == Some(false) then "critical" else "high"
    case UnknownLocation => "medium"
    case ActionFailed => "medium"
    case _ => "high"
  }

  function EvidenceOf(d: Device, k: Kind): seq<string> {
    match k
    case NonCompliant => ["compliant=false"]
    case HighRisk => d.riskEvidence
    case GeofenceExit => d.exitEvidence
    case UnknownLocation => d.unknownEvidence
    case RouteDeviation => d.routeEvidence
    case _ => d.integrityEvidence
  }

  function Draft(d: Device, w: Wording, at: Time, k: Kind): Incident {
    Incident(IncidentID(KindText(k), d.id),
             Facts(d.id, NameOf(d), KindText(k), SeverityOf(d, k), w.title(k, NameOf(d)), w.advice(k),
                   if d.insideFence != "" then d.insideFence else d.lastInsideFence, d.riskScore, EvidenceOf(d, k)),
             "", OPEN, 1, at, at, None, None, [])
  }

  function DeriveDevice(d: Device, w: Wording, at: Time): seq<Incident> {
    var ks := Conditions(d);
    seq(|ks|, i requires 0 <= i < |ks| => Draft(d, w, at, ks[i]))
  }

  /** A connector refused the action; a blocked one is no failure. */
  function FailedAction(r: Outcome, w: Wording, at: Time): Option<Incident> {
    if r.ok || r.blocked || r.deviceID == "" || r.action == "" then None
    else
      var name := if r.deviceName == "" then r.deviceID else r.deviceName;
      var stamp := if r.at == ZERO_TIME then at else r.at;
      Some(Incident(IncidentID(KindText(ActionFailed), FailureRest(r.deviceID, r.action)),
                    Facts(r.deviceID, name, KindText(ActionFailed), "medium", w.failed(r.action, name), w.advice(ActionFailed),
                          r.fenceID, None, r.evidence),
                    "", OPEN, 1, stamp, stamp, None, None, []))
  }

  function RawDevices(ds: seq<Device>, w: Wording, at: Time): seq<Incident> {
    if ds == [] then []
    else
      var rest, d := RawDevices(ds[..|ds| - 1], w, at), ds[|ds| - 1];
      if d.id == "" then rest else rest + DeriveDevice(d, w, at)
  }

  function RawFailures(rs: seq<Outcome>, w: Wording, at: Time): seq<Incident> {
    if rs == [] then []
    else
      var rest, f := RawFailures(rs[..|rs| - 1], w, at), FailedAction(rs[|rs| - 1], w, at);
      if f.Some? then rest + [f.value] else rest
  }

  function Raw(ds: seq<Device>, rs: seq<Outcome>, w: Wording, at: Time): seq<Incident> {
    RawDevices(ds, w, at) + RawFailures(rs, w, at)
  }

  /** The first incident of each id, in canonical order. */
  function Derived(ds: seq<Device>, rs: seq<Outcome>, w: Wording, at: Time): seq<Incident> {
    Sorted(Distinct(Raw(ds, rs, w, at)))
  }

  method Gather(ds: seq<Device>, rs: seq<Outcome>, w: Wording, at: Time) returns (raw: seq<Incident>)
    ensures raw == Raw(ds, rs, w, at)
  {
    hide DeriveDevice, FailedAction;
    raw := [];
    for i := 0 to |ds|
      invariant raw == RawDevices(ds[..i], w, at)
    {
      assert ds[..i + 1][..i] == ds[..i];
      if ds[i].id != "" {
        raw := raw + DeriveDevice(ds[i], w, at);
      }
    }
    ghost var devices := raw;
    for i := 0 to |rs|
      invariant raw == devices + RawFailures(rs[..i], w, at)
    {
      assert rs[..i + 1][..i] == rs[..i];
      var f := FailedAction(rs[i], w, at);
      if f.Some? {
        raw := raw + [f.value];
      }
    }
    assert ds[..|ds|] == ds && rs[..|rs|] == rs;
  }

  method Derive(ds: seq<Device>, rs: seq<Outcome>, w: Wording, at: Time) returns (out: seq<Incident>)
    ensures out == Derived(ds, rs, w, at)
  {
    var raw := Gather(ds, rs, w, at);
    RawIsBlank(ds, rs, w, at);
    hide Raw, Find, Distinct;
    assert Distinct(raw[..0]) == [] && forall id :: Find([], id).None? by {
      NothingDistinct(raw);
    }
    out := [];
    var seen: set<string> := {};
    for i := 0 to |raw|
      invariant out == Distinct(raw[..i])
      invariant forall id :: id in seen <==> Find(out, id).Some?
    {
      DistinctStep(raw, i);
      assert raw[i] in raw;
      if raw[i].id !in seen {
        forall id ensures Find(out + [raw[i]], id).Some? <==> id == raw[i].id || Find(out, id).Some? {
          FindSnoc(out, raw[i], id);
        }
        seen := seen + {raw[i].id};
        out := out + [raw[i]];
      }
    }
    assert raw[..|raw|] == raw;
    out := Sorted(out);
  }

  lemma NothingDistinct(raw: seq<Incident>)
    ensures Distinct(raw[..0]) == [] && forall id :: Find([], id).None?
  {
  }

  // -------- What is derived --------

  /** Every derived incident is new: it has an id, is open, and has no stamps and no audit. */
  predicate Blank(x: Incident) {
    x.id != "" && x.status == OPEN && x.timeline == [] && x.ackedAt.None? && x.closedAt.None?
  }

  lemma DraftIsBlank(d: Device, w: Wording, at: Time, k: Kind)
    ensures Blank(Draft(d, w, at, k))
  {
    hide NameOf, EvidenceOf, SeverityOf, KindText;
  }

  lemma ConditionsDistinct(d: Device)
    ensures forall i, j :: 0 <= i < j < |Conditions(d)| ==> Conditions(d)[i] != Conditions(d)[j]
  {
  }

  /** One device never yields two incidents of one id, and all it yields are blank. */
  lemma DeviceIncidents(d: Device, w: Wording, at: Time)
    ensures UniqueIDs(DeriveDevice(d, w, at))
    ensures forall i :: 0 <= i < |DeriveDevice(d, w, at)| ==>
              Blank(DeriveDevice(d, w, at)[i]) && DeriveDevice(d, w, at)[i] == Draft(d, w, at, Conditions(d)[i])
  {
    ConditionsDistinct(d);
    var ks, xs := Conditions(d), DeriveDevice(d, w, at);
    hide Conditions;
    forall i | 0 <= i < |xs| ensures Blank(xs[i]) && xs[i] == Draft(d, w, at, ks[i]) {
      DraftIsBlank(d, w, at, ks[i]);
    }
    forall i, j | 0 <= i < j < |xs| ensures xs[i].id != xs[j].id {
      if xs[i].id == xs[j].id {
        DraftsApart(d, d, w, at, ks[i], ks[j]);
      }
    }
  }

  lemma DraftsApart(d: Device, e: Device, w: Wording, at: Time, k: Kind, l: Kind)
    requires Draft(d, w, at, k).id == Draft(e, w, at, l).id
    ensures k == l && d.id == e.id
  {
    hide NameOf, EvidenceOf, SeverityOf, KindText, IncidentID;
    IncidentIDInjective(k, d.id, l, e.id);
  }

  predicate UniqueDevices(ds: seq<Device>) {
    forall i, j :: 0 <= i < j < |ds| ==> ds[i].id != ds[j].id
  }

  lemma {:induction false} RawFrom(ds: seq<Device>, w: Wording, at: Time, x: Incident) returns (i: nat)
    requires x in RawDevices(ds, w, at)
    ensures i < |ds| && ds[i].id != "" && x in DeriveDevice(ds[i], w, at)
  {
    hide DeriveDevice;
    var n := |ds| - 1;
    if x in RawDevices(ds[..n], w, at) {
      i := RawFrom(ds[..n], w, at, x);
    } else {
      i := n;
    }
  }

  lemma {:induction false} RawHas(ds: seq<Device>, w: Wording, at: Time, i: nat, x: Incident)
    requires i < |ds| && ds[i].id != "" && x in DeriveDevice(ds[i], w, at)
    ensures x in RawDevices(ds, w, at)
  {
    hide DeriveDevice;
    if i < |ds| - 1 {
      RawHas(ds[..|ds| - 1], w, at, i, x);
    }
  }

  lemma DevicesApart(d: Device, e: Device, w: Wording, at: Time, x: Incident, y: Incident)
    requires x in DeriveDevice(d, w, at) && y in DeriveDevice(e, w, at) && d.id != e.id
    ensures x.id != y.id
  {
    hide Draft;
    var i :| 0 <= i < |DeriveDevice(d, w, at)| && DeriveDevice(d, w, at)[i] == x;
    var j :| 0 <= j < |DeriveDevice(e, w, at)| && DeriveDevice(e, w, at)[j] == y;
    if x.id == y.id {
      DraftsApart(d, e, w, at, Conditions(d)[i], Conditions(e)[j]);
    }
  }

  lemma {:induction false} RawDevicesUnique(ds: seq<Device>, w: Wording, at: Time)
    requires UniqueDevices(ds)
    ensures UniqueIDs(RawDevices(ds, w, at))
  {
    if ds != [] {
      hide DeriveDevice;
      var n := |ds| - 1;
      RawDevicesUnique(ds[..n], w, at);
      DeviceIncidents(ds[n], w, at);
      var a, b := RawDevices(ds[..n], w, at), DeriveDevice(ds[n], w, at);
      forall i, j | 0 <= i < |a| && 0 <= j < |b| ensures a[i].id != b[j].id {
        var k := RawFrom(ds[..n], w, at, a[i]);
        DevicesApart(ds[k], ds[n], w, at, a[i], b[j]);
      }
    }
  }

  lemma RawDevicesBlank(ds: seq<Device>, w: Wording, at: Time)
    ensures forall x :: x in RawDevices(ds, w, at) ==> Blank(x)
  {
    hide DeriveDevice, RawDevices;
    forall x | x in RawDevices(ds, w, at) ensures Blank(x) {
      var i := RawFrom(ds, w, at, x);
      DeviceIncidents(ds[i], w, at);
    }
  }

  lemma {:induction false} RawFailuresBlank(rs: seq<Outcome>, w: Wording, at: Time)
    ensures forall x :: x in RawFailures(rs, w, at) ==> Blank(x)
  {
    if rs != [] {
      RawFailuresBlank(rs[..|rs| - 1], w, at);
    }
  }

  lemma RawIsBlank(ds: seq<Device>, rs: seq<Outcome>, w: Wording, at: Time)
    ensures forall x :: x in Raw(ds, rs, w, at) ==> Blank(x)
  {
    RawDevicesBlank(ds, w, at);
    RawFailuresBlank(rs, w, at);
  }

  /** The derived list is well formed and sorted, holds the first incident of each id, and all of them are blank. */
  lemma DerivedIs(ds: seq<Device>, rs: seq<Outcome>, w: Wording, at: Time)
    ensures var out := Derived(ds, rs, w, at);
            && WellFormed(out) && InOrder(out)
            && (forall id :: Find(out, id) == Find(Raw(ds, rs, w, at), id))
            && forall i :: 0 <= i < |out| ==> Blank(out[i])
  {
    var raw := Raw(ds, rs, w, at);
    var out := Derived(ds, rs, w, at);
    RawIsBlank(ds, rs, w, at);
    DistinctWellFormed(raw);
    SortedIsInOrder(Distinct(raw));
    forall id ensures Find(out, id) == Find(raw, id) {
      DistinctFind(raw, id);
      FindPermuted(out, Distinct(raw), id);
      FindIs(raw, id);
    }
    hide Raw, InOrder, Sorted, Distinct;
    forall i | 0 <= i < |out| ensures Blank(out[i]) {
      FindIs(out, out[i].id);
      FindIs(raw, out[i].id);
    }
    FindIs(out, "");
  }

  // -------- The order of the fleet --------

  lemma RawFindSame(ds: seq<Device>, ds': seq<Device>, w: Wording, at: Time, id: string)
    requires UniqueDevices(ds) && UniqueDevices(ds') && forall d :: d in ds <==> d in ds'
    ensures Find(RawDevices(ds, w, at), id) == Find(RawDevices(ds', w, at), id)
  {
    hide DeriveDevice;
    RawDevicesUnique(ds, w, at);
    RawDevicesUnique(ds', w, at);
    forall x ensures x in RawDevices(ds, w, at) <==> x in RawDevices(ds', w, at) {
      RawMember(ds, ds', w, at, x);
      RawMember(ds', ds, w, at, x);
    }
    hide RawDevices;
    FindMembers(RawDevices(ds, w, at), RawDevices(ds', w, at), id);
  }

  lemma RawMember(ds: seq<Device>, ds': seq<Device>, w: Wording, at: Time, x: Incident)
    requires forall d :: d in ds ==> d in ds'
    ensures x in RawDevices(ds, w, at) ==> x in RawDevices(ds', w, at)
  {
    hide DeriveDevice;
    if x in RawDevices(ds, w, at) {
      var i := RawFrom(ds, w, at, x);
      assert ds[i] in ds';
      var j :| 0 <= j < |ds'| && ds'[j] == ds[i];
      RawHas(ds', w, at, j, x);
    }
  }

  lemma FindMembers(xs: seq<Incident>, ys: seq<Incident>, id: string)
    requires UniqueIDs(xs) && UniqueIDs(ys) && forall x :: x in xs <==> x in ys
    ensures Find(xs, id) == Find(ys, id)
  {
    FindIs(xs, id);
    FindIs(ys, id);
    if Find(xs, id).Some? {
      var x := Find(xs, id).value;
      var j :| 0 <= j < |ys| && ys[j] == x;
      assert HasID(ys, id);
    }
    if Find(ys, id).Some? {
      var y := Find(ys, id).value;
      var j :| 0 <= j < |xs| && xs[j] == y;
      assert HasID(xs, id);
    }
  }

  /** Connectors may answer in any order: the same fleet yields the same list of incidents. */
  lemma FleetOrderIsInvisible(ds: seq<Device>, ds': seq<Device>, rs: seq<Outcome>, w: Wording, at: Time)
    requires UniqueDevices(ds) && UniqueDevices(ds') && forall d :: d in ds <==> d in ds'
    ensures Derived(ds, rs, w, at) == Derived(ds', rs, w, at)
  {
    DerivedIs(ds, rs, w, at);
    DerivedIs(ds', rs, w, at);
    var a, b := Derived(ds, rs, w, at), Derived(ds', rs, w, at);
    forall id ensures Find(a, id) == Find(b, id) {
      RawFindSame(ds, ds', w, at, id);
      FindConcat(RawDevices(ds, w, at), RawFailures(rs, w, at), id);
      FindConcat(RawDevices(ds', w, at), RawFailures(rs, w, at), id);
    }
    hide Derived, Find;
    SameContents(a, b);
    OrderIsCanonical(a, b);
  }

  lemma {:induction false} FailureIDs(rs: seq<Outcome>, w: Wording, at: Time, id: string)
    requires Find(RawFailures(rs, w, at), id).Some?
    ensures exists rest :: id == IncidentID(KindText(ActionFailed), rest)
  {
    hide IncidentID, KindText;
    var n := |rs| - 1;
    var f := FailedAction(rs[n], w, at);
    if f.Some? {
      FindSnoc(RawFailures(rs[..n], w, at), f.value, id);
    }
    if Find(RawFailures(rs[..n], w, at), id).Some? {
      FailureIDs(rs[..n], w, at, id);
    } else {
      assert id == IncidentID(KindText(ActionFailed), FailureRest(rs[n].deviceID, rs[n].action));
    }
  }

  lemma NoFailureHas(rs: seq<Outcome>, w: Wording, at: Time, k: Kind, deviceID: string)
    requires k != ActionFailed
    ensures Find(RawFailures(rs, w, at), IncidentID(KindText(k), deviceID)).None?
  {
    hide IncidentID, KindText, RawFailures;
    if Find(RawFailures(rs, w, at), IncidentID(KindText(k), deviceID)).Some? {
      FailureIDs(rs, w, at, IncidentID(KindText(k), deviceID));
      var rest :| IncidentID(KindText(k), deviceID) == IncidentID(KindText(ActionFailed), rest);
      IncidentIDInjective(k, deviceID, ActionFailed, rest);
    }
  }

  /** Whatever has the id of a device's condition comes from that device and that condition. */
  lemma OwnerOf(ds: seq<Device>, w: Wording, at: Time, i: nat, k: Kind, x: Incident)
    requires UniqueDevices(ds) && i < |ds|
    requires x in RawDevices(ds, w, at) && x.id == IncidentID(KindText(k), ds[i].id)
    ensures k in Conditions(ds[i]) && x == Draft(ds[i], w, at, k)
  {
    hide IncidentID, KindText, RawDevices, Conditions, SeverityOf, EvidenceOf, NameOf;
    var j := RawFrom(ds, w, at, x);
    var m :| 0 <= m < |DeriveDevice(ds[j], w, at)| && DeriveDevice(ds[j], w, at)[m] == x;
    IncidentIDInjective(Conditions(ds[j])[m], ds[j].id, k, ds[i].id);
  }

  /**
    For every kind of condition a device can show, the list holds an incident under that kind and that device if and
    only if the device shows the condition; and then it is the one drawn from it, whatever else was derived.
  */
  lemma DerivedAt(ds: seq<Device>, rs: seq<Outcome>, w: Wording, at: Time, i: nat, k: Kind)
    requires UniqueDevices(ds) && i < |ds| && ds[i].id != "" && k != ActionFailed
    ensures Find(Derived(ds, rs, w, at), IncidentID(KindText(k), ds[i].id))
         == if k in Conditions(ds[i]) then Some(Draft(ds[i], w, at, k)) else None
  {
    hide Derived, Conditions, RawDevices, RawFailures, IncidentID, KindText, Find, EvidenceOf, SeverityOf, NameOf;
    var d, id := ds[i], IncidentID(KindText(k), ds[i].id);
    DerivedIs(ds, rs, w, at);
    NoFailureHas(rs, w, at, k, d.id);
    FindConcat(RawDevices(ds, w, at), RawFailures(rs, w, at), id);
    FindIs(RawDevices(ds, w, at), id);
    if Find(RawDevices(ds, w, at), id).Some? {
      OwnerOf(ds, w, at, i, k, Find(RawDevices(ds, w, at), id).value);
    }
    if k in Conditions(d) {
      var m :| 0 <= m < |Conditions(d)| && Conditions(d)[m] == k;
      assert DeriveDevice(d, w, at)[m] == Draft(d, w, at, k);
      RawHas(ds, w, at, i, Draft(d, w, at, k));
      assert HasID(RawDevices(ds, w, at), id) by {
        MemberHasID(RawDevices(ds, w, at), Draft(d, w, at, k));
      }
    }
  }

  lemma MemberHasID(xs: seq<Incident>, x: Incident)
    requires x in xs
    ensures HasID(xs, x.id)
  {
    var i :| 0 <= i < |xs| && xs[i] == x;
  }

  /** What a cycle derives always satisfies what the ledger's theorems ask of a cycle. */
  lemma CyclesAreProper(ds: seq<Device>, rs: seq<Outcome>, w: Wording, at: Time)
    ensures IncidentLedger.Proper(IncidentLedger.Cycle(Derived(ds, rs, w, at), at))
  {
    DerivedIs(ds, rs, w, at);
    hide Derived;
    assert forall i :: 0 <= i < |Derived(ds, rs, w, at)| ==> Blank(Derived(ds, rs, w, at)[i]);
  }
}
