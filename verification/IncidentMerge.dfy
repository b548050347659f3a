/**
  One cycle's merge of the stored incidents with the derived ones: what it does to each, what it conserves, and
  that its result does not depend on the order of the derivation (internal/domain/incident/incident.go).
*/
module IncidentMerge {
  import opened Base
  import opened Incidents
  import opened IncidentOrder

  // -------- The specification --------

  /** First occurrences, without incidents that have no id. */
  function Distinct(xs: seq<Incident>): seq<Incident> {
    if xs == [] then []
    else
      var rest, x := Distinct(xs[..|xs| - 1]), xs[|xs| - 1];
      if x.id == "" || Find(rest, x.id).Some? then rest else rest + [x]
  }

  function Outcomes(ps: seq<Incident>, ds: seq<Incident>, at: Time): seq<Incident> {
    seq(|ps|, i requires 0 <= i < |ps| => Outcome(ps[i], Find(ds, ps[i].id), at))
  }

  /** The derived incidents that nobody had stored, as they are opened. */
  function News(ps: seq<Incident>, ds: seq<Incident>, at: Time): seq<Incident> {
    if ds == [] then []
    else
      var rest, d := News(ps, ds[..|ds| - 1], at), ds[|ds| - 1];
      if Find(ps, d.id).None? then rest + [Opened(d, at)] else rest
  }

  /** What the cycle announces as opened: new incidents, and those an earlier cycle had closed itself. */
  function Openings(ps: seq<Incident>, ds: seq<Incident>, at: Time): seq<Incident> {
    if ds == [] then []
    else
      var rest, d := Openings(ps, ds[..|ds| - 1], at), ds[|ds| - 1];
      var p := Find(ps, d.id);
      if p.None? then rest + [Opened(d, at)]
      else if ClosedBySystem(p.value) then rest + [Reopened(p.value, d, at)]
      else rest
  }

  predicate Vanished(p: Incident, ds: seq<Incident>) {
    Find(ds, p.id).None? && p.status != CLOSED
  }

  function Closings(ps: seq<Incident>, ds: seq<Incident>, at: Time): seq<Incident> {
    if ps == [] then []
    else
      var rest, p := Closings(ps[..|ps| - 1], ds, at), ps[|ps| - 1];
      if Vanished(p, ds) then rest + [AutoClosed(p, at)] else rest
  }

  datatype Merged = Merged(all: seq<Incident>, openings: seq<Incident>, closings: seq<Incident>)

  function Unsorted(ps: seq<Incident>, ds: seq<Incident>, at: Time): seq<Incident> {
    Outcomes(ps, ds, at) + News(ps, ds, at)
  }

  function Merging(stored: seq<Incident>, derived: seq<Incident>, at: Time): Merged {
    var ps, ds := Distinct(stored), Distinct(derived);
    Merged(Sorted(Unsorted(ps, ds, at)), Openings(ps, ds, at), Closings(ps, ds, at))
  }

  // -------- First occurrences --------

  lemma {:induction false} DistinctWellFormed(xs: seq<Incident>)
    ensures WellFormed(Distinct(xs))
  {
    if xs != [] {
      DistinctWellFormed(xs[..|xs| - 1]);
      FindIs(Distinct(xs[..|xs| - 1]), xs[|xs| - 1].id);
    }
  }

  lemma {:induction false} DistinctFind(xs: seq<Incident>, id: string)
    ensures Find(Distinct(xs), id) == if id == "" then None else Find(xs, id)
  {
    if xs != [] {
      var n := |xs| - 1;
      DistinctFind(xs[..n], id);
      DistinctFind(xs[..n], xs[n].id);
      FindConcat(Distinct(xs[..n]), [xs[n]], id);
      FindConcat(xs[..n], [xs[n]], id);
      assert xs == xs[..n] + [xs[n]];
    }
  }

  lemma {:induction false} DistinctKeeps(xs: seq<Incident>)
    requires WellFormed(xs)
    ensures Distinct(xs) == xs
  {
    if xs != [] {
      var n := |xs| - 1;
      DistinctKeeps(xs[..n]);
      FindIs(xs[..n], xs[n].id);
      assert xs == xs[..n] + [xs[n]];
    }
  }

  // -------- The method --------

  function IDs(xs: seq<Incident>): seq<string> {
    seq(|xs|, i requires 0 <= i < |xs| => xs[i].id)
  }

  /** The running order of ids: the stored ones, then the new ones as they come. */
  function Order(ps: seq<Incident>, ds: seq<Incident>, at: Time): seq<string> {
    IDs(ps) + IDs(News(ps, ds, at))
  }

  ghost predicate Holds(byID: map<string, Incident>, ps: seq<Incident>, ds: seq<Incident>, at: Time) {
    forall id ::
      && (id in byID <==> Find(ps, id).Some? || Find(ds, id).Some?)
      && (id in byID ==> byID[id] == Stands(Find(ps, id), Find(ds, id), at))
  }

  /** What stands under an id once the derived list has been gone through. */
  function Stands(p: Option<Incident>, d: Option<Incident>, at: Time): Incident
    requires p.Some? || d.Some?
  {
    if p.None? then Opened(d.value, at) else if d.None? then p.value else Outcome(p.value, d, at)
  }

  lemma FindSnoc(xs: seq<Incident>, x: Incident, id: string)
    ensures Find(xs + [x], id) == if Find(xs, id).Some? then Find(xs, id) else if x.id == id then Some(x) else None
  {
    FindConcat(xs, [x], id);
  }

  lemma HoldsStep(byID: map<string, Incident>, ps: seq<Incident>, ds: seq<Incident>, d: Incident, at: Time)
    requires Holds(byID, ps, ds, at) && Find(ds, d.id).None?
    ensures Holds(byID[d.id := Stands(Find(ps, d.id), Some(d), at)], ps, ds + [d], at)
  {
    hide Stands, Find;
    var byID' := byID[d.id := Stands(Find(ps, d.id), Some(d), at)];
    forall id
      ensures id in byID' <==> Find(ps, id).Some? || Find(ds + [d], id).Some?
      ensures id in byID' ==> byID'[id] == Stands(Find(ps, id), Find(ds + [d], id), at)
    {
      FindSnoc(ds, d, id);
    }
  }

  method LoadStored(stored: seq<Incident>, at: Time) returns (byID: map<string, Incident>, order: seq<string>)
    ensures Holds(byID, Distinct(stored), [], at)
    ensures order == IDs(Distinct(stored))
  {
    byID, order := map[], [];
    for i := 0 to |stored|
      invariant Holds(byID, Distinct(stored[..i]), [], at)
      invariant order == IDs(Distinct(stored[..i]))
    {
      assert stored[..i + 1][..i] == stored[..i];
      var s := stored[i];
      ghost var ps := Distinct(stored[..i]);
      if s.id == "" || s.id in byID {
        continue;
      }
      byID := byID[s.id := s];
      order := order + [s.id];
      forall id ensures Find(ps + [s], id) == if id == s.id then Some(s) else Find(ps, id) {
        FindSnoc(ps, s, id);
      }
    }
    assert stored[..|stored|] == stored;
  }

  lemma IDsConcat(a: seq<Incident>, b: seq<Incident>)
    ensures IDs(a + b) == IDs(a) + IDs(b)
  {
  }

  lemma DistinctStep(xs: seq<Incident>, i: nat)
    requires i < |xs|
    ensures Distinct(xs[..i + 1])
         == if xs[i].id == "" || Find(Distinct(xs[..i]), xs[i].id).Some? then Distinct(xs[..i]) else Distinct(xs[..i]) + [xs[i]]
  {
    assert xs[..i + 1][..i] == xs[..i];
  }

  function Joined(byID: map<string, Incident>, d: Incident, at: Time): map<string, Incident> {
    byID[d.id := if d.id in byID then Outcome(byID[d.id], Some(d), at) else Opened(d, at)]
  }

  function Listed(order: seq<string>, byID: map<string, Incident>, d: Incident): seq<string> {
    if d.id in byID then order else order + [d.id]
  }

  function Announced(openings: seq<Incident>, byID: map<string, Incident>, d: Incident, at: Time): seq<Incident> {
    if d.id !in byID then openings + [Opened(d, at)]
    else if ClosedBySystem(byID[d.id]) then openings + [Reopened(byID[d.id], d, at)]
    else openings
  }

  /** What one more derived incident changes. */
  lemma DerivedStep(byID: map<string, Incident>, ps: seq<Incident>, ds: seq<Incident>, d: Incident, at: Time)
    requires Holds(byID, ps, ds, at) && Find(ds, d.id).None?
    ensures Holds(Joined(byID, d, at), ps, ds + [d], at)
    ensures Order(ps, ds + [d], at) == Listed(Order(ps, ds, at), byID, d)
    ensures Openings(ps, ds + [d], at) == Announced(Openings(ps, ds, at), byID, d, at)
  {
    HoldsStep(byID, ps, ds, d, at);
    assert (ds + [d])[..|ds|] == ds;
    IDsConcat(News(ps, ds, at), [Opened(d, at)]);
  }

  ghost predicate Seen(seen: set<string>, ds: seq<Incident>) {
    forall id :: id in seen <==> Find(ds, id).Some?
  }

  lemma SeenIs(seen: set<string>, ds: seq<Incident>, d: Incident)
    requires Seen(seen, ds)
    ensures d.id in seen <==> Find(ds, d.id).Some?
    ensures Seen(seen + {d.id}, ds + [d])
  {
    forall id ensures Find(ds + [d], id).Some? <==> id == d.id || Find(ds, id).Some? {
      FindSnoc(ds, d, id);
    }
  }

  /** One derived incident goes into the map: a new one, one the system had closed, or one already known. */
  method Absorb(start: map<string, Incident>, ids: seq<string>, announced: seq<Incident>, d: Incident, at: Time)
    returns (byID: map<string, Incident>, order: seq<string>, openings: seq<Incident>)
    ensures byID == Joined(start, d, at)
    ensures order == Listed(ids, start, d)
    ensures openings == Announced(announced, start, d, at)
  {
    byID, order, openings := start, ids, announced;
    if d.id !in byID {
      byID := byID[d.id := Opened(d, at)];
      order := order + [d.id];
      openings := openings + [Opened(d, at)];
    } else if ClosedBySystem(byID[d.id]) {
      openings := openings + [Reopened(byID[d.id], d, at)];
      byID := byID[d.id := Reopened(byID[d.id], d, at)];
    } else {
      byID := byID[d.id := Refreshed(byID[d.id], d, at)];
    }
  }

  method LoadDerived(start: map<string, Incident>, ids: seq<string>, ghost ps: seq<Incident>, derived: seq<Incident>, at: Time)
    returns (byID: map<string, Incident>, order: seq<string>, seen: set<string>, openings: seq<Incident>)
    requires Holds(start, ps, [], at) && ids == IDs(ps)
    ensures Holds(byID, ps, Distinct(derived), at)
    ensures order == Order(ps, Distinct(derived), at)
    ensures Seen(seen, Distinct(derived))
    ensures openings == Openings(ps, Distinct(derived), at)
  {
    byID, order, seen, openings := start, ids, {}, [];
    ghost var ds: seq<Incident> := [];
    assert Distinct(derived[..0]) == ds && Order(ps, ds, at) == ids && Openings(ps, ds, at) == [];
    assert Seen(seen, ds);
    hide Holds, Distinct, Find, News, Openings, Order, Joined, Listed, Announced, Seen;
    for i := 0 to |derived|
      invariant ds == Distinct(derived[..i])
      invariant Holds(byID, ps, ds, at)
      invariant order == Order(ps, ds, at)
      invariant Seen(seen, ds)
      invariant openings == Openings(ps, ds, at)
    {
      var d := derived[i];
      DistinctStep(derived, i);
      SeenIs(seen, ds, d);
      if d.id != "" && d.id !in seen {
        seen := seen + {d.id};
        DerivedStep(byID, ps, ds, d, at);
        byID, order, openings := Absorb(byID, order, openings, d, at);
        ds := ds + [d];
      }
    }
    assert derived[..|derived|] == derived;
  }

  lemma {:induction false} NewsAt(ps: seq<Incident>, ds: seq<Incident>, at: Time, k: nat)
    requires UniqueIDs(ds) && k < |News(ps, ds, at)|
    ensures var x := News(ps, ds, at)[k];
            Find(ps, x.id).None? && Find(ds, x.id).Some? && x == Opened(Find(ds, x.id).value, at)
  {
    var n := |ds| - 1;
    var x := News(ps, ds, at)[k];
    assert ds == ds[..n] + [ds[n]];
    if k < |News(ps, ds[..n], at)| {
      NewsAt(ps, ds[..n], at, k);
      FindSnoc(ds[..n], ds[n], x.id);
    } else {
      FindIs(ds, ds[n].id);
    }
  }

  method Merge(stored: seq<Incident>, derived: seq<Incident>, at: Time)
    returns (merged: seq<Incident>, openings: seq<Incident>, closings: seq<Incident>)
    ensures Merged(merged, openings, closings) == Merging(stored, derived, at)
  {
    ghost var ps, ds := Distinct(stored), Distinct(derived);
    DistinctWellFormed(stored);
    DistinctWellFormed(derived);
    hide Distinct, Find, News, Openings, Opened, Sorted;
    var byID, order := LoadStored(stored, at);
    var seen;
    byID, order, seen, openings := LoadDerived(byID, order, ps, derived, at);
    merged, closings := [], [];
    ghost var all := Unsorted(ps, ds, at);
    assert ClosingsTo(ps, ds, at, 0) == [] && all[..0] == [];
    hide Holds, Order, Unsorted, ClosingsTo, AutoClosed;
    for k := 0 to |order|
      invariant k <= |all|
      invariant merged == all[..k]
      invariant closings == ClosingsTo(ps, ds, at, k)
    {
      OrderAt(ps, ds, at, k, byID);
      var cur := byID[order[k]];
      if order[k] !in seen && cur.status != CLOSED {
        cur := AutoClosed(cur, at);
        closings := closings + [cur];
      }
      merged := merged + [cur];
    }
    OrderEnds(ps, ds, at);
    assert all[..|order|] == all;
    merged := Sorted(merged);
  }

  /** The closings announced once the first `k` ids have been looked at. */
  function ClosingsTo(ps: seq<Incident>, ds: seq<Incident>, at: Time, k: nat): seq<Incident> {
    Closings(ps[..if k <= |ps| then k else |ps|], ds, at)
  }

  lemma OrderEnds(ps: seq<Incident>, ds: seq<Incident>, at: Time)
    ensures |Order(ps, ds, at)| == |Unsorted(ps, ds, at)|
    ensures ClosingsTo(ps, ds, at, |Order(ps, ds, at)|) == Closings(ps, ds, at)
  {
    assert ps[..|ps|] == ps;
  }

  /** What the map holds under the k-th id, and what becomes of it. */
  lemma OrderAt(ps: seq<Incident>, ds: seq<Incident>, at: Time, k: nat, byID: map<string, Incident>)
    requires UniqueIDs(ps) && UniqueIDs(ds) && k < |Order(ps, ds, at)| && Holds(byID, ps, ds, at)
    ensures k < |Unsorted(ps, ds, at)|
    ensures var id := Order(ps, ds, at)[k];
            && id in byID
            && (if Find(ds, id).None? && byID[id].status != CLOSED
                then Unsorted(ps, ds, at)[k] == AutoClosed(byID[id], at)
                     && ClosingsTo(ps, ds, at, k + 1) == ClosingsTo(ps, ds, at, k) + [AutoClosed(byID[id], at)]
                else Unsorted(ps, ds, at)[k] == byID[id] && ClosingsTo(ps, ds, at, k + 1) == ClosingsTo(ps, ds, at, k))
  {
    if k < |ps| {
      FindIs(ps, ps[k].id);
      assert ps[..k + 1][..k] == ps[..k];
    } else {
      NewsAt(ps, ds, at, k - |ps|);
    }
  }
}
