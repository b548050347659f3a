/** The canonical order of the incident list: state, severity, title, id (internal/domain/incident/incident.go). */
module IncidentOrder {
  import opened Incidents

  function StatusRank(s: string): nat {
    if s == OPEN then 0 else if s == ACK then 1 else if s == CLOSED then 2 else 3
  }

  function SeverityRank(s: string): nat {
    match s
    case "critical" => 0
    case "high" => 1
    case "medium" => 2
    case "low" => 3
    case "unknown" => 4
    case _ => 5
  }

  /** Go's `<` on strings; comparing code points is comparing their UTF-8 bytes. */
  predicate TextBefore(a: string, b: string) {
    b != "" && (a == "" || a[0] < b[0] || (a[0] == b[0] && TextBefore(a[1..], b[1..])))
  }

  predicate Before(x: Incident, y: Incident) {
    var a, b := StatusRank(x.status), StatusRank(y.status);
    var c, d := SeverityRank(x.facts.severity), SeverityRank(y.facts.severity);
    if a != b then a < b
    else if c != d then c < d
    else if x.facts.title != y.facts.title then TextBefore(x.facts.title, y.facts.title)
    else TextBefore(x.id, y.id)
  }

  lemma {:induction false} TextOrder(a: string, b: string)
    ensures !(TextBefore(a, b) && TextBefore(b, a)) && !TextBefore(a, a)
    ensures a != b ==> TextBefore(a, b) || TextBefore(b, a)
  {
    if a != "" {
      TextOrder(a[1..], if b == "" then "" else b[1..]);
      if b != "" && a != b && a[0] == b[0] {
        assert a == [a[0]] + a[1..] && b == [b[0]] + b[1..];
        assert a[1..] != b[1..];
      }
    }
  }

  lemma {:induction false} TextTransitive(a: string, b: string, c: string)
    requires TextBefore(a, b) && TextBefore(b, c)
    ensures TextBefore(a, c)
  {
    if a != "" && a[0] == b[0] && b[0] == c[0] {
      TextTransitive(a[1..], b[1..], c[1..]);
    }
  }

  /** Strict and, between different ids, total. */
  lemma BeforeOrder(x: Incident, y: Incident)
    ensures !(Before(x, y) && Before(y, x)) && !Before(x, x)
    ensures x.id != y.id ==> Before(x, y) || Before(y, x)
  {
    hide TextBefore, StatusRank, SeverityRank;
    TextOrder(x.facts.title, y.facts.title);
    TextOrder(x.id, y.id);
  }

  lemma BeforeTransitive(x: Incident, y: Incident, z: Incident)
    requires Before(x, y) && Before(y, z)
    ensures Before(x, z)
  {
    hide TextBefore, StatusRank, SeverityRank;
    TextOrder(x.facts.title, y.facts.title);
    if TextBefore(x.facts.title, y.facts.title) && TextBefore(y.facts.title, z.facts.title) {
      TextTransitive(x.facts.title, y.facts.title, z.facts.title);
    }
    if TextBefore(x.id, y.id) && TextBefore(y.id, z.id) {
      TextTransitive(x.id, y.id, z.id);
    }
  }

  // -------- Sorting --------

  /** A stable insertion: behind everything the newcomer is not before. */
  function Insert(xs: seq<Incident>, x: Incident): (r: seq<Incident>)
    ensures multiset(r) == multiset(xs + [x])
  {
    var n := |xs|;
    if xs == [] || !Before(x, xs[n - 1]) then xs + [x]
    else
      assert xs == xs[..n - 1] + [xs[n - 1]];
      Insert(xs[..n - 1], x) + [xs[n - 1]]
  }

  /** What a stable sort returns. */
  function Sorted(xs: seq<Incident>): (r: seq<Incident>)
    ensures multiset(r) == multiset(xs)
  {
    if xs == [] then []
    else
      assert xs == xs[..|xs| - 1] + [xs[|xs| - 1]];
      Insert(Sorted(xs[..|xs| - 1]), xs[|xs| - 1])
  }

  predicate InOrder(xs: seq<Incident>) {
    forall i, j :: 0 <= i < j < |xs| ==> Before(xs[i], xs[j])
  }

  predicate AllBefore(xs: seq<Incident>, y: Incident) {
    forall i :: 0 <= i < |xs| ==> Before(xs[i], y)
  }

  lemma {:induction false} InsertBefore(xs: seq<Incident>, x: Incident, y: Incident)
    requires AllBefore(xs, y) && Before(x, y)
    ensures AllBefore(Insert(xs, x), y)
  {
    hide Before;
    if xs != [] && Before(x, xs[|xs| - 1]) {
      InsertBefore(xs[..|xs| - 1], x, y);
    }
  }

  lemma InOrderSnoc(xs: seq<Incident>, y: Incident)
    requires InOrder(xs) && AllBefore(xs, y)
    ensures InOrder(xs + [y])
  {
  }

  lemma {:induction false} InsertKeepsOrder(xs: seq<Incident>, x: Incident)
    requires InOrder(xs) && !HasID(xs, x.id)
    ensures InOrder(Insert(xs, x))
  {
    hide Before;
    if xs == [] {
    } else {
      var rest, y := xs[..|xs| - 1], xs[|xs| - 1];
      BeforeOrder(x, y);
      if Before(x, y) {
        InsertKeepsOrder(rest, x);
        InsertBefore(rest, x, y);
        hide Insert;
        InOrderSnoc(Insert(rest, x), y);
      } else {
        forall i | 0 <= i < |xs| ensures Before(xs[i], x) {
          if i < |xs| - 1 {
            BeforeTransitive(xs[i], y, x);
          }
        }
        InOrderSnoc(xs, x);
      }
    }
  }

  lemma {:induction false} SortedIsInOrder(xs: seq<Incident>)
    requires UniqueIDs(xs)
    ensures InOrder(Sorted(xs)) && UniqueIDs(Sorted(xs))
  {
    if xs != [] {
      var n := |xs| - 1;
      SortedIsInOrder(xs[..n]);
      forall i | 0 <= i < n ensures Sorted(xs[..n])[i].id != xs[n].id {
        assert Sorted(xs[..n])[i] in multiset(xs[..n]);
      }
      InsertKeepsOrder(Sorted(xs[..n]), xs[n]);
      UniquePermuted(xs, Sorted(xs));
    }
  }

  lemma SameHead(a: seq<Incident>, b: seq<Incident>)
    requires InOrder(a) && InOrder(b) && multiset(a) == multiset(b) && a != [] && b != []
    ensures a[0] == b[0]
  {
    hide Before;
    assert a[0] in multiset(b) && b[0] in multiset(a);
    var i :| 0 <= i < |b| && b[i] == a[0];
    var j :| 0 <= j < |a| && a[j] == b[0];
    BeforeOrder(a[0], b[0]);
  }

  lemma Cancel<T>(a: multiset<T>, b: multiset<T>, x: T)
    requires multiset{x} + a == multiset{x} + b
    ensures a == b
  {
    assert a == (multiset{x} + a) - multiset{x} && b == (multiset{x} + b) - multiset{x};
  }

  lemma {:induction false} OrderIsCanonical(a: seq<Incident>, b: seq<Incident>)
    requires InOrder(a) && InOrder(b) && multiset(a) == multiset(b)
    ensures a == b
  {
    assert |a| == |multiset(a)| == |multiset(b)| == |b|;
    if a != [] {
      hide Before;
      SameHead(a, b);
      var c, d := a[1..], b[1..];
      assert a == [a[0]] + c && b == [a[0]] + d;
      Cancel(multiset(c), multiset(d), a[0]);
      OrderIsCanonical(c, d);
    }
  }

  /** Whatever the order of its input, a list with unique ids is sorted to one and the same list. */
  lemma SortForgetsOrder(xs: seq<Incident>, ys: seq<Incident>)
    requires UniqueIDs(xs) && multiset(xs) == multiset(ys)
    ensures Sorted(xs) == Sorted(ys)
  {
    UniquePermuted(xs, ys);
    SortedIsInOrder(xs);
    SortedIsInOrder(ys);
    OrderIsCanonical(Sorted(xs), Sorted(ys));
  }
}
