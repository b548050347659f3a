/** What one merge guarantees: a verdict per id, conservation of the open work, quiet repetition, a canonical list. */
module IncidentMergeTheorems {
  import opened Base
  import opened Incidents
  import opened IncidentOrder
  import opened IncidentMerge

  // -------- A verdict per id --------

  lemma {:induction false} FindOutcomes(ps: seq<Incident>, ds: seq<Incident>, at: Time, id: string)
    ensures Find(Outcomes(ps, ds, at), id)
         == if Find(ps, id).Some? then Some(Outcome(Find(ps, id).value, Find(ds, id), at)) else None
  {
    if ps != [] {
      assert Outcomes(ps, ds, at) == [Outcome(ps[0], Find(ds, ps[0].id), at)] + Outcomes(ps[1..], ds, at);
      FindOutcomes(ps[1..], ds, at, id);
    }
  }

  lemma {:induction false} FindNews(ps: seq<Incident>, ds: seq<Incident>, at: Time, id: string)
    ensures Find(News(ps, ds, at), id)
         == if Find(ps, id).None? && Find(ds, id).Some? then Some(Opened(Find(ds, id).value, at)) else None
  {
    if ds != [] {
      var n := |ds| - 1;
      FindNews(ps, ds[..n], at, id);
      FindSnoc(News(ps, ds[..n], at), Opened(ds[n], at), id);
      FindSnoc(ds[..n], ds[n], id);
      assert ds == ds[..n] + [ds[n]];
    }
  }

  lemma {:induction false} NewsUnique(ps: seq<Incident>, ds: seq<Incident>, at: Time)
    requires UniqueIDs(ds)
    ensures UniqueIDs(News(ps, ds, at))
  {
    if ds != [] {
      var n := |ds| - 1;
      NewsUnique(ps, ds[..n], at);
      FindNews(ps, ds[..n], at, ds[n].id);
      FindIs(News(ps, ds[..n], at), ds[n].id);
      FindIs(ds[..n], ds[n].id);
    }
  }

  lemma UnsortedUnique(ps: seq<Incident>, ds: seq<Incident>, at: Time)
    requires UniqueIDs(ps) && UniqueIDs(ds)
    ensures UniqueIDs(Unsorted(ps, ds, at))
  {
    var a, b := Outcomes(ps, ds, at), News(ps, ds, at);
    NewsUnique(ps, ds, at);
    assert forall i :: 0 <= i < |a| ==> a[i].id == ps[i].id;
    forall i, j | 0 <= i < |a| && 0 <= j < |b| ensures a[i].id != b[j].id {
      NewsAt(ps, ds, at, j);
      FindIs(ps, ps[i].id);
    }
    hide Outcomes, News;
  }

  lemma UnsortedIs(ps: seq<Incident>, ds: seq<Incident>, at: Time)
    requires UniqueIDs(ps) && UniqueIDs(ds)
    ensures forall id :: Find(Unsorted(ps, ds, at), id)
                      == if Find(ps, id).Some? then Some(Outcome(Find(ps, id).value, Find(ds, id), at))
                         else if Find(ds, id).Some? then Some(Opened(Find(ds, id).value, at)) else None
  {
    var a, b := Outcomes(ps, ds, at), News(ps, ds, at);
    hide Outcomes, News, Find, Outcome, Opened;
    forall id
      ensures Find(Unsorted(ps, ds, at), id)
           == if Find(ps, id).Some? then Some(Outcome(Find(ps, id).value, Find(ds, id), at))
              else if Find(ds, id).Some? then Some(Opened(Find(ds, id).value, at)) else None
    {
      FindOutcomes(ps, ds, at, id);
      FindNews(ps, ds, at, id);
      FindConcat(a, b, id);
    }
  }

  /** The verdict of a merge on one id: it depends on the first stored and the first derived incident, nothing else. */
  function Verdict(p: Option<Incident>, d: Option<Incident>, at: Time): Option<Incident> {
    if p.Some? then Some(Outcome(p.value, d, at)) else if d.Some? then Some(Opened(d.value, at)) else None
  }

  lemma MergedAt(stored: seq<Incident>, derived: seq<Incident>, at: Time, id: string)
    ensures Find(Merging(stored, derived, at).all, id)
         == if id == "" then None else Verdict(Find(stored, id), Find(derived, id), at)
  {
    var ps, ds := Distinct(stored), Distinct(derived);
    DistinctWellFormed(stored);
    DistinctWellFormed(derived);
    DistinctFind(stored, id);
    DistinctFind(derived, id);
    UnsortedUnique(ps, ds, at);
    UnsortedIs(ps, ds, at);
    SortedIsInOrder(Unsorted(ps, ds, at));
    FindPermuted(Sorted(Unsorted(ps, ds, at)), Unsorted(ps, ds, at), id);
  }

  /** The merged list is well formed and in canonical order, whatever was stored. */
  lemma MergedWellFormed(stored: seq<Incident>, derived: seq<Incident>, at: Time)
    ensures var all := Merging(stored, derived, at).all; WellFormed(all) && InOrder(all)
  {
    var all := Merging(stored, derived, at).all;
    DistinctWellFormed(stored);
    DistinctWellFormed(derived);
    UnsortedUnique(Distinct(stored), Distinct(derived), at);
    SortedIsInOrder(Unsorted(Distinct(stored), Distinct(derived), at));
    MergedAt(stored, derived, at, "");
    FindIs(all, "");
  }

  /**
    A merge refreshes the facts of what it sees and leaves the human layer alone: who is in charge, and, unless the
    state itself changes, the stamps and the audit.
  */
  lemma HumanLayerKept(stored: seq<Incident>, derived: seq<Incident>, at: Time, id: string)
    requires id != "" && Find(stored, id).Some?
    ensures var p, d, q := Find(stored, id).value, Find(derived, id), Find(Merging(stored, derived, at).all, id);
            && q.Some? && q.value.assignee == p.assignee
            && (d.Some? ==> q.value.facts == d.value.facts && q.value.count == p.count + 1)
            && (d.None? ==> q.value.facts == p.facts && q.value.count == p.count)
            && (q.value.status == p.status ==>
                  && q.value.timeline == p.timeline && q.value.openedAt == p.openedAt
                  && q.value.ackedAt == p.ackedAt && q.value.closedAt == p.closedAt)
  {
    MergedAt(stored, derived, at, id);
    hide Merging, Find;
  }

  // -------- Canonical --------

  lemma SameContents(a: seq<Incident>, b: seq<Incident>)
    requires UniqueIDs(a) && UniqueIDs(b) && forall id :: Find(a, id) == Find(b, id)
    ensures multiset(a) == multiset(b)
  {
    forall x ensures multiset(a)[x] == multiset(b)[x] {
      Multiplicity(a, x);
      Multiplicity(b, x);
    }
  }

  lemma Multiplicity(a: seq<Incident>, x: Incident)
    requires UniqueIDs(a)
    ensures multiset(a)[x] == if Find(a, x.id) == Some(x) then 1 else 0
  {
    FindIs(a, x.id);
    if x in a {
      var i :| 0 <= i < |a| && a[i] == x;
      Once(a, i);
    } else {
      assert x !in multiset(a);
    }
  }

  /** The merged list is a function of what each id maps to: no order of either list shows in it. */
  lemma MergedIsCanonical(stored: seq<Incident>, derived: seq<Incident>,
                          stored': seq<Incident>, derived': seq<Incident>, at: Time)
    requires forall id :: Find(stored, id) == Find(stored', id)
    requires forall id :: Find(derived, id) == Find(derived', id)
    ensures Merging(stored, derived, at).all == Merging(stored', derived', at).all
  {
    var a, b := Merging(stored, derived, at).all, Merging(stored', derived', at).all;
    MergedWellFormed(stored, derived, at);
    MergedWellFormed(stored', derived', at);
    forall id ensures Find(a, id) == Find(b, id) {
      MergedAt(stored, derived, at, id);
      MergedAt(stored', derived', at, id);
    }
    SameContents(a, b);
    OrderIsCanonical(a, b);
  }

  /** Deriving the same incidents in another order gives the same list and announces the same closings. */
  lemma DerivationOrderIsInvisible(stored: seq<Incident>, derived: seq<Incident>, derived': seq<Incident>, at: Time)
    requires UniqueIDs(derived) && multiset(derived) == multiset(derived')
    ensures Merging(stored, derived, at).all == Merging(stored, derived', at).all
    ensures Merging(stored, derived, at).closings == Merging(stored, derived', at).closings
  {
    UniquePermuted(derived, derived');
    forall id ensures Find(derived, id) == Find(derived', id) {
      FindPermuted(derived, derived', id);
    }
    MergedIsCanonical(stored, derived, stored, derived', at);
    forall id ensures Find(Distinct(derived), id) == Find(Distinct(derived'), id) {
      DistinctFind(derived, id);
      DistinctFind(derived', id);
    }
    ClosingsOnlyLookUp(Distinct(stored), Distinct(derived), Distinct(derived'), at);
  }

  lemma {:induction false} ClosingsOnlyLookUp(ps: seq<Incident>, ds: seq<Incident>, ds': seq<Incident>, at: Time)
    requires forall id :: Find(ds, id) == Find(ds', id)
    ensures Closings(ps, ds, at) == Closings(ps, ds', at)
  {
    if ps != [] {
      ClosingsOnlyLookUp(ps[..|ps| - 1], ds, ds', at);
    }
  }

  // -------- Conservation --------

  /** The work an operator has in front of them: open or acknowledged. */
  function Unclosed(xs: seq<Incident>): nat {
    if xs == [] then 0 else Unclosed(xs[..|xs| - 1]) + (if xs[|xs| - 1].status != CLOSED then 1 else 0)
  }

  /** `pendientes`, as the engine counts them. */
  method CountPending(xs: seq<Incident>) returns (n: nat)
    ensures n == Unclosed(xs)
  {
    n := 0;
    for i := 0 to |xs|
      invariant n == Unclosed(xs[..i])
    {
      assert xs[..i + 1][..i] == xs[..i];
      if xs[i].status != CLOSED {
        n := n + 1;
      }
    }
    assert xs[..|xs|] == xs;
  }

  lemma {:induction false} UnclosedConcat(a: seq<Incident>, b: seq<Incident>)
    ensures Unclosed(a + b) == Unclosed(a) + Unclosed(b)
  {
    if b == [] {
      assert a + b == a;
    } else {
      assert (a + b)[..|a + b| - 1] == a + b[..|b| - 1];
      UnclosedConcat(a, b[..|b| - 1]);
    }
  }

  lemma {:induction false} UnclosedInsert(xs: seq<Incident>, x: Incident)
    ensures Unclosed(Insert(xs, x)) == Unclosed(xs + [x])
  {
    if xs != [] && Before(x, xs[|xs| - 1]) {
      hide Before;
      var rest, y := xs[..|xs| - 1], xs[|xs| - 1];
      UnclosedInsert(rest, x);
      assert xs == rest + [y];
      UnclosedConcat(Insert(rest, x), [y]);
      UnclosedConcat(rest, [x]);
      UnclosedConcat(xs, [x]);
      UnclosedConcat(rest, [y]);
    }
  }

  lemma {:induction false} UnclosedSorted(xs: seq<Incident>)
    ensures Unclosed(Sorted(xs)) == Unclosed(xs)
  {
    if xs != [] {
      hide Before;
      var rest, y := xs[..|xs| - 1], xs[|xs| - 1];
      UnclosedSorted(rest);
      UnclosedInsert(Sorted(rest), y);
      UnclosedConcat(Sorted(rest), [y]);
    }
  }

  lemma {:induction false} UnclosedNews(ps: seq<Incident>, ds: seq<Incident>, at: Time)
    ensures Unclosed(News(ps, ds, at)) == |News(ps, ds, at)|
  {
    if ds != [] {
      var n := |ds| - 1;
      UnclosedNews(ps, ds[..n], at);
      UnclosedConcat(News(ps, ds[..n], at), [Opened(ds[n], at)]);
    }
  }

  /** The system closed it and the condition is back. */
  predicate Returns(p: Incident, ds: seq<Incident>) {
    ClosedBySystem(p) && Find(ds, p.id).Some?
  }

  function Returned(ps: seq<Incident>, ds: seq<Incident>): nat {
    if ps == [] then 0 else Returned(ps[..|ps| - 1], ds) + (if Returns(ps[|ps| - 1], ds) then 1 else 0)
  }

  lemma {:induction false} UnclosedOutcomes(ps: seq<Incident>, ds: seq<Incident>, at: Time)
    ensures Unclosed(Outcomes(ps, ds, at)) == Unclosed(ps) + Returned(ps, ds) - |Closings(ps, ds, at)|
  {
    if ps != [] {
      var n := |ps| - 1;
      UnclosedOutcomes(ps[..n], ds, at);
      assert Outcomes(ps, ds, at) == Outcomes(ps[..n], ds, at) + [Outcome(ps[n], Find(ds, ps[n].id), at)];
      UnclosedConcat(Outcomes(ps[..n], ds, at), [Outcome(ps[n], Find(ds, ps[n].id), at)]);
      hide Find;
      assert [Outcome(ps[n], Find(ds, ps[n].id), at)][..0] == [];
    }
  }

  lemma {:induction false} ReturnedSnoc(ps: seq<Incident>, ds: seq<Incident>, d: Incident)
    requires UniqueIDs(ps) && Find(ds, d.id).None?
    ensures Returned(ps, ds + [d])
         == Returned(ps, ds) + (if Find(ps, d.id).Some? && ClosedBySystem(Find(ps, d.id).value) then 1 else 0)
  {
    if ps != [] {
      var n := |ps| - 1;
      ReturnedSnoc(ps[..n], ds, d);
      FindSnoc(ds, d, ps[n].id);
      FindSnoc(ps[..n], ps[n], d.id);
      FindIs(ps[..n], d.id);
      assert ps == ps[..n] + [ps[n]];
      hide ClosedBySystem;
    }
  }

  lemma {:induction false} OpeningsCounted(ps: seq<Incident>, ds: seq<Incident>, at: Time)
    requires UniqueIDs(ps) && UniqueIDs(ds)
    ensures |Openings(ps, ds, at)| == |News(ps, ds, at)| + Returned(ps, ds)
  {
    if ds == [] {
      NoneReturned(ps);
    } else {
      var n := |ds| - 1;
      OpeningsCounted(ps, ds[..n], at);
      FindIs(ds[..n], ds[n].id);
      ReturnedSnoc(ps, ds[..n], ds[n]);
      assert ds == ds[..n] + [ds[n]];
    }
  }

  lemma {:induction false} NoneReturned(ps: seq<Incident>)
    ensures Returned(ps, []) == 0
  {
    if ps != [] {
      NoneReturned(ps[..|ps| - 1]);
    }
  }

  /** The open work after a merge is the open work before it, plus what it announced opened, less what it closed. */
  lemma MergeConserves(stored: seq<Incident>, derived: seq<Incident>, at: Time)
    ensures var m := Merging(stored, derived, at);
            Unclosed(m.all) == Unclosed(Distinct(stored)) + |m.openings| - |m.closings|
    ensures WellFormed(stored) ==> Distinct(stored) == stored
  {
    var ps, ds := Distinct(stored), Distinct(derived);
    DistinctWellFormed(stored);
    DistinctWellFormed(derived);
    UnclosedSorted(Unsorted(ps, ds, at));
    UnclosedConcat(Outcomes(ps, ds, at), News(ps, ds, at));
    UnclosedOutcomes(ps, ds, at);
    UnclosedNews(ps, ds, at);
    OpeningsCounted(ps, ds, at);
    if WellFormed(stored) {
      DistinctKeeps(stored);
    }
  }

  // -------- Openings and closings --------

  lemma {:induction false} OpeningsAre(ps: seq<Incident>, ds: seq<Incident>, at: Time, x: Incident)
    requires x in Openings(ps, ds, at) && UniqueIDs(ds)
    ensures Find(ds, x.id).Some?
  {
    var n := |ds| - 1;
    if x in Openings(ps, ds[..n], at) {
      OpeningsAre(ps, ds[..n], at, x);
      FindSnoc(ds[..n], ds[n], x.id);
      assert ds == ds[..n] + [ds[n]];
    } else {
      FindIs(ps, ds[n].id);
      FindIs(ds, ds[n].id);
    }
  }

  lemma {:induction false} ClosingsAre(ps: seq<Incident>, ds: seq<Incident>, at: Time, x: Incident)
    requires x in Closings(ps, ds, at)
    ensures Find(ds, x.id).None?
  {
    if x in Closings(ps[..|ps| - 1], ds, at) {
      ClosingsAre(ps[..|ps| - 1], ds, at, x);
    }
  }

  /** No incident is announced as opened and as closed by the same cycle. */
  lemma OpenedAndClosedAreDisjoint(stored: seq<Incident>, derived: seq<Incident>, at: Time, x: Incident, y: Incident)
    requires x in Merging(stored, derived, at).openings && y in Merging(stored, derived, at).closings
    ensures x.id != y.id
  {
    DistinctWellFormed(derived);
    OpeningsAre(Distinct(stored), Distinct(derived), at, x);
    ClosingsAre(Distinct(stored), Distinct(derived), at, y);
  }

  lemma {:induction false} NoOpenings(ps: seq<Incident>, ds: seq<Incident>, at: Time)
    requires forall i :: 0 <= i < |ds| ==> Find(ps, ds[i].id).Some? && !ClosedBySystem(Find(ps, ds[i].id).value)
    ensures Openings(ps, ds, at) == []
  {
    if ds != [] {
      NoOpenings(ps, ds[..|ds| - 1], at);
    }
  }

  lemma {:induction false} NoClosings(ps: seq<Incident>, ds: seq<Incident>, at: Time)
    requires forall i :: 0 <= i < |ps| ==> !Vanished(ps[i], ds)
    ensures Closings(ps, ds, at) == []
  {
    if ps != [] {
      NoClosings(ps[..|ps| - 1], ds, at);
    }
  }

  /** After a merge, what was derived is known and not system-closed, and the rest is closed. */
  lemma AfterMerge(stored: seq<Incident>, derived: seq<Incident>, at: Time, x: Incident)
    requires Find(Merging(stored, derived, at).all, x.id) == Some(x)
    ensures Find(derived, x.id).Some? ==> !ClosedBySystem(x)
    ensures Find(derived, x.id).None? ==> x.status == CLOSED
  {
    MergedAt(stored, derived, at, x.id);
    hide Merging, Find;
  }

  /** Merging the same derivation again opens nothing and closes nothing. */
  lemma SecondMergeIsQuiet(stored: seq<Incident>, derived: seq<Incident>, at: Time, later: Time)
    ensures var again := Merging(Merging(stored, derived, at).all, derived, later);
            again.openings == [] && again.closings == []
  {
    var all, ds := Merging(stored, derived, at).all, Distinct(derived);
    MergedWellFormed(stored, derived, at);
    DistinctKeeps(all);
    DistinctWellFormed(derived);
    hide ClosedBySystem, Find, Distinct, InOrder, Opened, Outcome;
    forall i | 0 <= i < |ds| ensures Find(all, ds[i].id).Some? && !ClosedBySystem(Find(all, ds[i].id).value) {
      FindIs(ds, ds[i].id);
      DistinctFind(derived, ds[i].id);
      MergedAt(stored, derived, at, ds[i].id);
      FindIs(all, ds[i].id);
      AfterMerge(stored, derived, at, Find(all, ds[i].id).value);
    }
    forall i | 0 <= i < |all| ensures !Vanished(all[i], ds) {
      FindIs(all, all[i].id);
      DistinctFind(derived, all[i].id);
      AfterMerge(stored, derived, at, all[i]);
    }
    NoOpenings(all, ds, later);
    NoClosings(all, ds, later);
  }
}
