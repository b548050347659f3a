/**
  A provider outage closes no incident of its devices: the fleet that incidents are derived from includes the
  devices kept from the cycle before (internal/engine/incidents.go, cycle.go).
*/
module IncidentOutages {
  import opened Base
  import Transition
  import Fleet
  import SweepFacts
  import Outages
  import opened Incidents
  import opened IncidentMerge
  import opened IncidentMergeTheorems
  import opened IncidentDerive

  /**
    What incidents read of a device as it is stored. The stored device stands for all of it: compliance, risk and
    integrity are frozen with a kept device like its place, though `Transition.Device` does not spell them out.
  */
  type View = Transition.Device -> Device

  ghost predicate KeepsIDs(view: View) {
    forall d :: view(d).id == d.id
  }

  function Views(view: View, ds: seq<Transition.Device>): seq<Device> {
    seq(|ds|, i requires 0 <= i < |ds| => view(ds[i]))
  }

  /** `syncIncidents`: the stored incidents merged with what the whole fleet and the results of the cycle show. */
  function Synced(stored: seq<Incident>, view: View, fleet: seq<Transition.Device>, rs: seq<Outcome>, w: Wording,
                  at: Time): Merged {
    Merging(stored, Derived(Views(view, fleet), rs, w, at), at)
  }

  /** The id of the incident a device has for one of its conditions. */
  function ConditionID(k: Kind, deviceID: string): string {
    IncidentID(KindText(k), deviceID)
  }

  lemma {:induction false} SeenIsNotClosed(ps: seq<Incident>, ds: seq<Incident>, at: Time, id: string)
    requires Find(ds, id).Some?
    ensures Find(Closings(ps, ds, at), id).None?
  {
    if ps != [] {
      SeenIsNotClosed(ps[..|ps| - 1], ds, at, id);
      FindSnoc(Closings(ps[..|ps| - 1], ds, at), AutoClosed(ps[|ps| - 1], at), id);
    }
  }

  lemma {:induction false} UnclosedIsNotOpened(ps: seq<Incident>, ds: seq<Incident>, at: Time, id: string)
    requires Find(ps, id).Some? && Find(ps, id).value.status != CLOSED
    ensures Find(Openings(ps, ds, at), id).None?
  {
    if ds != [] {
      var n := |ds| - 1;
      var p := Find(ps, ds[n].id);
      UnclosedIsNotOpened(ps, ds[..n], at, id);
      FindIs(ps, ds[n].id);
      if p.None? {
        FindSnoc(Openings(ps, ds[..n], at), Opened(ds[n], at), id);
      } else if ClosedBySystem(p.value) {
        FindSnoc(Openings(ps, ds[..n], at), Reopened(p.value, ds[n], at), id);
      }
    }
  }

  /** The fleet of a sync shows a condition exactly where the stored device does. */
  lemma ShownIn(view: View, fleet: seq<Transition.Device>, rs: seq<Outcome>, w: Wording, at: Time, id: string, k: Kind)
    requires KeepsIDs(view) && Fleet.Unique(fleet) && Fleet.Lookup(fleet, id).Some? && id != "" && k != ActionFailed
    ensures Find(Derived(Views(view, fleet), rs, w, at), ConditionID(k, id)).Some?
            <==> k in Conditions(view(Fleet.Lookup(fleet, id).value))
  {
    hide Derived, Conditions;
    SweepFacts.LookupIs(fleet, id);
    var i :| 0 <= i < |fleet| && fleet[i] == Fleet.Lookup(fleet, id).value;
    assert Views(view, fleet)[i] == view(fleet[i]);
    DerivedAt(Views(view, fleet), rs, w, at, i, k);
  }

  /** An incident whose condition is seen is not announced as closed; open or acknowledged, it stays so in silence. */
  lemma SeenStays(stored: seq<Incident>, derived: seq<Incident>, at: Time, id: string)
    requires id != "" && Find(derived, id).Some?
    ensures var m := Merging(stored, derived, at);
            && Find(m.closings, id).None?
            && (Find(stored, id).Some? && Find(stored, id).value.status != CLOSED ==>
                  && Find(m.openings, id).None?
                  && Find(m.all, id).Some?
                  && Find(m.all, id).value.status == Find(stored, id).value.status
                  && Find(m.all, id).value.timeline == Find(stored, id).value.timeline)
  {
    MergedAt(stored, derived, at, id);
    DistinctFind(derived, id);
    SeenIsNotClosed(Distinct(stored), Distinct(derived), at, id);
    DistinctFind(stored, id);
    if Find(stored, id).Some? && Find(stored, id).value.status != CLOSED {
      UnclosedIsNotOpened(Distinct(stored), Distinct(derived), at, id);
    }
  }

  lemma IDNotEmpty(k: Kind, deviceID: string)
    ensures ConditionID(k, deviceID) != ""
  {
  }

  /**
    One cycle in which the device's connector failed: whatever incidents are stored, none of a condition that the
    kept device shows is closed or announced as closed, and an unclosed one is neither moved nor announced.
  */
  lemma OutageClosesNothing(s: Fleet.State, inp: Fleet.Input, view: View, stored: seq<Incident>, rs: seq<Outcome>,
                            w: Wording, id: string, k: Kind)
    requires KeepsIDs(view) && Fleet.Unique(s.devices) && Fleet.Unique(Fleet.AllFetched(inp.outcomes))
    requires Outages.Outage(s, inp, id) && id != "" && k != ActionFailed
    requires k in Conditions(view(Fleet.Lookup(s.devices, id).value))
    ensures var m := Synced(stored, view, Fleet.Cycle(s, inp).devices, rs, w, inp.now);
            var x := ConditionID(k, id);
            && Find(m.closings, x).None?
            && (Find(stored, x).Some? && Find(stored, x).value.status != CLOSED ==>
                  && Find(m.openings, x).None?
                  && Find(m.all, x).Some?
                  && Find(m.all, x).value.status == Find(stored, x).value.status
                  && Find(m.all, x).value.timeline == Find(stored, x).value.timeline)
  {
    hide Derived, Conditions, Merging, ConditionID;
    SweepFacts.LookupAfterCycle(s, inp, id);
    SweepFacts.AfterCycleUnique(s, inp);
    ShownIn(view, Fleet.Cycle(s, inp).devices, rs, w, inp.now, id, k);
    IDNotEmpty(k, id);
    SeenStays(stored, Derived(Views(view, Fleet.Cycle(s, inp).devices), rs, w, inp.now), inp.now, ConditionID(k, id));
  }

  /**
    Two syncs in a row: an incident of a device's condition that the first one left unclosed is not closed by a
    second one in which the device's connector failed, whatever people did to the incidents in between.
  */
  lemma OutageClosesNothingOpen(s: Fleet.State, inp: Fleet.Input, view: View, before: seq<Incident>,
                                stored: seq<Incident>, rs0: seq<Outcome>, rs: seq<Outcome>, w: Wording, at: Time,
                                id: string, k: Kind)
    requires KeepsIDs(view) && Fleet.Unique(s.devices) && Fleet.Unique(Fleet.AllFetched(inp.outcomes))
    requires Outages.Outage(s, inp, id) && id != "" && k != ActionFailed
    requires var x := Find(Synced(before, view, s.devices, rs0, w, at).all, ConditionID(k, id));
             x.Some? && x.value.status != CLOSED
    ensures var m := Synced(stored, view, Fleet.Cycle(s, inp).devices, rs, w, inp.now);
            var x := ConditionID(k, id);
            && Find(m.closings, x).None?
            && (Find(stored, x).Some? && Find(stored, x).value.status != CLOSED ==>
                  Find(m.openings, x).None? && Find(m.all, x).Some?
                  && Find(m.all, x).value.status == Find(stored, x).value.status)
  {
    var x := ConditionID(k, id);
    IDNotEmpty(k, id);
    MergedAt(before, Derived(Views(view, s.devices), rs0, w, at), at, x);
    hide Derived, Conditions, Merging, Find;
    assert Find(Derived(Views(view, s.devices), rs0, w, at), x).Some?;
    ShownIn(view, s.devices, rs0, w, at, id, k);
    OutageClosesNothing(s, inp, view, stored, rs, w, id, k);
  }
}
