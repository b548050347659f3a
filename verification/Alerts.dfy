/** Alert rules over a run of cycles: when an alert goes out and when it stays silent (internal/engine/notifications.go). */
module Alerts {
  import opened Base
  import opened Keys

  const COOLDOWN := 30 * MINUTE

  datatype Rule = Rule(id: string, enabled: bool, knownKind: bool)

  datatype Firing = Firing(ruleID: string, deviceID: string)

  /** One cycle's look at the rules, or a cycle that could not read them, or a new process. */
  datatype Step = Round(rules: seq<Rule>, devices: seq<string>, holds: (string, string) -> bool, now: Time)
                | Unreadable(now: Time)
                | Restart(now: Time)

  // -------- The rules --------

  predicate Fires(r: Rule, d: string, holds: (string, string) -> bool) {
    r.enabled && r.knownKind && d != "" && holds(r.id, d)
  }

  function FiringsOf(r: Rule, ds: seq<string>, holds: (string, string) -> bool): seq<Firing> {
    if ds == [] then []
    else
      var rest, d := FiringsOf(r, ds[..|ds| - 1], holds), ds[|ds| - 1];
      if Fires(r, d, holds) then rest + [Firing(r.id, d)] else rest
  }

  function Firings(rs: seq<Rule>, ds: seq<string>, holds: (string, string) -> bool): seq<Firing> {
    if rs == [] then [] else Firings(rs[..|rs| - 1], ds, holds) + FiringsOf(rs[|rs| - 1], ds, holds)
  }

  method Evaluate(rs: seq<Rule>, ds: seq<string>, holds: (string, string) -> bool) returns (out: seq<Firing>)
    ensures out == Firings(rs, ds, holds)
  {
    out := [];
    for i := 0 to |rs|
      invariant out == Firings(rs[..i], ds, holds)
    {
      assert rs[..i + 1][..i] == rs[..i];
      ghost var before := out;
      var r := rs[i];
      if !r.enabled || !r.knownKind {
        NoFirings(r, ds, holds);
        continue;
      }
      for j := 0 to |ds|
        invariant out == before + FiringsOf(r, ds[..j], holds)
      {
        assert ds[..j + 1][..j] == ds[..j];
        if ds[j] != "" && holds(r.id, ds[j]) {
          out := out + [Firing(r.id, ds[j])];
        }
      }
      assert ds[..|ds|] == ds;
    }
    assert rs[..|rs|] == rs;
  }

  lemma {:induction false} NoFirings(r: Rule, ds: seq<string>, holds: (string, string) -> bool)
    requires !r.enabled || !r.knownKind
    ensures FiringsOf(r, ds, holds) == []
  {
    if ds != [] {
      NoFirings(r, ds[..|ds| - 1], holds);
    }
  }

  // -------- The memory --------

  function AlertKey(f: Firing): string {
    f.ruleID + "|" + f.deviceID
  }

  predicate Quiet(alerted: map<string, Time>, k: string, now: Time) {
    k in alerted && now - alerted[k] < COOLDOWN
  }

  /** The memory after a round: what fires now, with the instant it was last announced. */
  function Active(alerted: map<string, Time>, fs: seq<Firing>, now: Time): map<string, Time> {
    if fs == [] then map[]
    else
      var k := AlertKey(fs[|fs| - 1]);
      Active(alerted, fs[..|fs| - 1], now)[k := if Quiet(alerted, k, now) then alerted[k] else now]
  }

  /** The alerts announced in a round. */
  function Announced(alerted: map<string, Time>, fs: seq<Firing>, now: Time): seq<Firing> {
    if fs == [] then []
    else
      var rest, f := Announced(alerted, fs[..|fs| - 1], now), fs[|fs| - 1];
      if Quiet(alerted, AlertKey(f), now) then rest else rest + [f]
  }

  class Watch {
    var alerted: map<string, Time>

    constructor ()
      ensures alerted == map[]
    {
      alerted := map[];
    }

    method EvaluateAlerts(s: Step) returns (events: seq<Firing>)
      requires !s.Restart?
      modifies this
      ensures alerted == Memory(old(alerted), s)
      ensures events == if s.Round? then Announced(old(alerted), Firings(s.rules, s.devices, s.holds), s.now) else []
    {
      if s.Unreadable? {
        return [];
      }
      var firings := Evaluate(s.rules, s.devices, s.holds);
      events := [];
      var active: map<string, Time> := map[];
      for i := 0 to |firings|
        invariant active == Active(alerted, firings[..i], s.now)
        invariant events == Announced(alerted, firings[..i], s.now)
        invariant alerted == old(alerted)
      {
        assert firings[..i + 1][..i] == firings[..i];
        var k := AlertKey(firings[i]);
        if k in alerted && s.now - alerted[k] < COOLDOWN {
          active := active[k := alerted[k]];
          continue;
        }
        active := active[k := s.now];
        events := events + [firings[i]];
      }
      assert firings[..|firings|] == firings;
      alerted := active;
    }
  }

  function Memory(alerted: map<string, Time>, s: Step): map<string, Time> {
    match s
    case Round(rs, ds, holds, now) => Active(alerted, Firings(rs, ds, holds), now)
    case Unreadable(_) => alerted
    case Restart(_) => map[]
  }

  function After(steps: seq<Step>): map<string, Time> {
    if steps == [] then map[] else Memory(After(steps[..|steps| - 1]), steps[|steps| - 1])
  }

  // -------- Who fires --------

  /** The condition of a rule on a device holds in a round that looked at both. */
  predicate FiresIn(s: Step, f: Firing) {
    s.Round? && exists i, j :: 0 <= i < |s.rules| && 0 <= j < |s.devices|
                               && s.rules[i].id == f.ruleID && s.devices[j] == f.deviceID
                               && Fires(s.rules[i], s.devices[j], s.holds)
  }

  lemma {:induction false} FiringsOfAre(r: Rule, ds: seq<string>, holds: (string, string) -> bool, f: Firing)
    ensures f in FiringsOf(r, ds, holds) <==>
              f.ruleID == r.id && exists j :: 0 <= j < |ds| && ds[j] == f.deviceID && Fires(r, ds[j], holds)
  {
    if ds != [] {
      var n := |ds| - 1;
      FiringsOfAre(r, ds[..n], holds, f);
      assert forall j :: 0 <= j < n ==> ds[..n][j] == ds[j];
      hide Fires;
      if f.ruleID == r.id && exists j :: 0 <= j < |ds| && ds[j] == f.deviceID && Fires(r, ds[j], holds) {
        var j :| 0 <= j < |ds| && ds[j] == f.deviceID && Fires(r, ds[j], holds);
        assert j < n ==> ds[..n][j] == f.deviceID;
      }
    }
  }

  lemma FiresInSnoc(rs: seq<Rule>, r: Rule, ds: seq<string>, holds: (string, string) -> bool, now: Time, f: Firing)
    ensures FiresIn(Round(rs + [r], ds, holds, now), f) <==>
              || FiresIn(Round(rs, ds, holds, now), f)
              || (f.ruleID == r.id && exists j :: 0 <= j < |ds| && ds[j] == f.deviceID && Fires(r, ds[j], holds))
  {
    hide Fires;
    var s, t := Round(rs + [r], ds, holds, now), Round(rs, ds, holds, now);
    assert s.rules[|rs|] == r;
    assert forall i :: 0 <= i < |rs| ==> s.rules[i] == t.rules[i];
  }

  lemma {:induction false} FiringsAre(rs: seq<Rule>, ds: seq<string>, holds: (string, string) -> bool, now: Time, f: Firing)
    ensures f in Firings(rs, ds, holds) <==> FiresIn(Round(rs, ds, holds, now), f)
  {
    if rs != [] {
      hide Fires, FiringsOf, FiresIn;
      var n := |rs| - 1;
      FiringsAre(rs[..n], ds, holds, now, f);
      FiringsOfAre(rs[n], ds, holds, f);
      FiresInSnoc(rs[..n], rs[n], ds, holds, now, f);
      assert rs == rs[..n] + [rs[n]];
    }
  }

  /** What fires: an enabled rule of a known kind whose condition holds for a device that has an id. */
  lemma FiresInIs(s: Step, f: Firing)
    requires s.Round?
    ensures FiresIn(s, f)
            <==> && f.deviceID != "" && f.deviceID in s.devices && s.holds(f.ruleID, f.deviceID)
                 && exists i :: 0 <= i < |s.rules| && s.rules[i].id == f.ruleID && s.rules[i].enabled && s.rules[i].knownKind
  {
    if f.deviceID in s.devices {
      var j :| 0 <= j < |s.devices| && s.devices[j] == f.deviceID;
      if i :| 0 <= i < |s.rules| && s.rules[i].id == f.ruleID && s.rules[i].enabled && s.rules[i].knownKind {
        assert s.rules[i].id == f.ruleID && s.devices[j] == f.deviceID;
      }
    }
  }

  /** Rule by rule, and for each rule device by device. */
  lemma {:induction false} FiringsConcat(a: seq<Rule>, b: seq<Rule>, ds: seq<string>, holds: (string, string) -> bool)
    ensures Firings(a + b, ds, holds) == Firings(a, ds, holds) + Firings(b, ds, holds)
  {
    hide FiringsOf;
    if b == [] {
      assert a + b == a;
    } else {
      FiringsConcat(a, b[..|b| - 1], ds, holds);
      assert (a + b)[..|a + b| - 1] == a + b[..|b| - 1];
    }
  }

  lemma {:induction false} FiringsOfConcat(r: Rule, ds: seq<string>, es: seq<string>, holds: (string, string) -> bool)
    ensures Firings([r], ds + es, holds) == Firings([r], ds, holds) + Firings([r], es, holds)
  {
    FiringsOne(r, ds + es, holds);
    FiringsOne(r, ds, holds);
    FiringsOne(r, es, holds);
    hide Fires, Firings;
    if es == [] {
      assert ds + es == ds;
    } else {
      var n := |es| - 1;
      FiringsOfConcat(r, ds, es[..n], holds);
      FiringsOne(r, ds + es[..n], holds);
      FiringsOne(r, es[..n], holds);
      assert (ds + es)[..|ds + es| - 1] == ds + es[..n];
    }
  }

  lemma FiringsOne(r: Rule, ds: seq<string>, holds: (string, string) -> bool)
    ensures Firings([r], ds, holds) == FiringsOf(r, ds, holds)
  {
    assert [r][..0] == [];
  }

  /** What is announced keeps the order of what fires. */
  lemma {:induction false} AnnouncedConcat(alerted: map<string, Time>, a: seq<Firing>, b: seq<Firing>, now: Time)
    ensures Announced(alerted, a + b, now) == Announced(alerted, a, now) + Announced(alerted, b, now)
  {
    if b == [] {
      assert a + b == a;
    } else {
      AnnouncedConcat(alerted, a, b[..|b| - 1], now);
      assert (a + b)[..|a + b| - 1] == a + b[..|b| - 1];
    }
  }

  /** Rule ids are slugs, so the key tells rule and device apart. */
  predicate Clean(s: Step) {
    s.Round? ==> forall i :: 0 <= i < |s.rules| ==> Slug(s.rules[i].id)
  }

  lemma AlertKeyInjective(f: Firing, g: Firing)
    requires Free(f.ruleID, '|') && Free(g.ruleID, '|') && AlertKey(f) == AlertKey(g)
    ensures f == g
  {
    var k := AlertKey(f);
    assert k[|f.ruleID|] == '|' && k[|g.ruleID|] == '|';
    assert forall i :: 0 <= i < |f.ruleID| ==> k[i] == f.ruleID[i];
    assert forall i :: 0 <= i < |g.ruleID| ==> k[i] == g.ruleID[i];
    assert |f.ruleID| == |g.ruleID|;
    assert f.ruleID == k[..|f.ruleID|] && g.ruleID == k[..|f.ruleID|];
    assert f.deviceID == k[|f.ruleID| + 1..] && g.deviceID == k[|f.ruleID| + 1..];
  }

  lemma {:induction false} ActiveIs(alerted: map<string, Time>, fs: seq<Firing>, now: Time, k: string)
    ensures k in Active(alerted, fs, now) <==> exists i :: 0 <= i < |fs| && AlertKey(fs[i]) == k
    ensures k in Active(alerted, fs, now) ==> Active(alerted, fs, now)[k] == if Quiet(alerted, k, now) then alerted[k] else now
  {
    if fs != [] {
      hide AlertKey, Quiet;
      var n := |fs| - 1;
      ActiveIs(alerted, fs[..n], now, k);
      assert forall i :: 0 <= i < n ==> fs[..n][i] == fs[i];
      if i :| 0 <= i < |fs| && AlertKey(fs[i]) == k {
        assert i < n ==> AlertKey(fs[..n][i]) == k;
      }
    }
  }

  /** After a round the memory holds exactly the keys of what fires now. */
  lemma MemoryIsWhatFires(alerted: map<string, Time>, s: Step, f: Firing)
    requires s.Round? && Clean(s) && Slug(f.ruleID)
    ensures AlertKey(f) in Memory(alerted, s) <==> FiresIn(s, f)
    ensures FiresIn(s, f) ==>
              Memory(alerted, s)[AlertKey(f)] == if Quiet(alerted, AlertKey(f), s.now) then alerted[AlertKey(f)] else s.now
  {
    var fs := Firings(s.rules, s.devices, s.holds);
    ActiveIs(alerted, fs, s.now, AlertKey(f));
    FiringsAre(s.rules, s.devices, s.holds, s.now, f);
    hide AlertKey, Firings, Active, Quiet;
    if i :| 0 <= i < |fs| && AlertKey(fs[i]) == AlertKey(f) {
      assert fs[i] in fs;
      FiringsAre(s.rules, s.devices, s.holds, s.now, fs[i]);
      SlugsAreFree(s, fs[i], f);
      AlertKeyInjective(fs[i], f);
    }
    if f in fs {
      var i :| 0 <= i < |fs| && fs[i] == f;
    }
  }

  lemma SlugsAreFree(s: Step, g: Firing, f: Firing)
    requires Clean(s) && FiresIn(s, g) && Slug(f.ruleID)
    ensures Free(f.ruleID, '|') && Free(g.ruleID, '|')
  {
    var i, j :| 0 <= i < |s.rules| && 0 <= j < |s.devices| && s.rules[i].id == g.ruleID && s.devices[j] == g.deviceID
                && Fires(s.rules[i], s.devices[j], s.holds);
    assert Slug(s.rules[i].id);
  }

  // -------- Whole runs --------

  predicate CleanRun(steps: seq<Step>) {
    forall i :: 0 <= i < |steps| ==> Clean(steps[i])
  }

  predicate ClockForward(steps: seq<Step>) {
    forall i, j :: 0 <= i <= j < |steps| ==> steps[i].now <= steps[j].now
  }

  /** The alert goes out in this step. */
  predicate Emits(before: seq<Step>, s: Step, f: Firing) {
    FiresIn(s, f) && !Quiet(After(before), AlertKey(f), s.now)
  }

  lemma {:induction false} AnnouncedAre(alerted: map<string, Time>, fs: seq<Firing>, now: Time, f: Firing)
    ensures f in Announced(alerted, fs, now) <==> f in fs && !Quiet(alerted, AlertKey(f), now)
  {
    if fs != [] {
      hide AlertKey, Quiet;
      AnnouncedAre(alerted, fs[..|fs| - 1], now, f);
      assert fs == fs[..|fs| - 1] + [fs[|fs| - 1]];
    }
  }

  /** Rules and devices have ids of their own. */
  predicate Distinct(rs: seq<Rule>, ds: seq<string>) {
    && (forall i, j :: 0 <= i < j < |rs| ==> rs[i].id != rs[j].id)
    && (forall i, j :: 0 <= i < j < |ds| ==> ds[i] != ds[j])
  }

  function Times(fs: seq<Firing>, f: Firing): nat {
    multiset(fs)[f]
  }

  lemma TimesConcat(a: seq<Firing>, b: seq<Firing>, f: Firing)
    ensures Times(a + b, f) == Times(a, f) + Times(b, f)
    ensures Times([f], f) == 1
    ensures Times(a, f) > 0 <==> f in a
  {
  }

  lemma {:induction false} FiringsOfOnce(r: Rule, ds: seq<string>, holds: (string, string) -> bool, f: Firing)
    requires forall i, j :: 0 <= i < j < |ds| ==> ds[i] != ds[j]
    ensures Times(FiringsOf(r, ds, holds), f) <= 1
  {
    if ds != [] {
      hide Fires;
      var n := |ds| - 1;
      FiringsOfOnce(r, ds[..n], holds, f);
      FiringsOfAre(r, ds[..n], holds, f);
      TimesConcat(FiringsOf(r, ds[..n], holds), [Firing(r.id, ds[n])], f);
      assert forall j :: 0 <= j < n ==> ds[..n][j] != ds[n];
    }
  }

  lemma {:induction false} FiringsOnce(rs: seq<Rule>, ds: seq<string>, holds: (string, string) -> bool, now: Time, f: Firing)
    requires Distinct(rs, ds)
    ensures Times(Firings(rs, ds, holds), f) <= 1
  {
    if rs != [] {
      hide Fires, FiringsOf, Times;
      var n := |rs| - 1;
      FiringsOnce(rs[..n], ds, holds, now, f);
      FiringsOfOnce(rs[n], ds, holds, f);
      FiringsOfAre(rs[n], ds, holds, f);
      FiringsAre(rs[..n], ds, holds, now, f);
      TimesConcat(Firings(rs[..n], ds, holds), FiringsOf(rs[n], ds, holds), f);
      TimesConcat(FiringsOf(rs[n], ds, holds), [], f);
      assert forall i :: 0 <= i < n ==> rs[..n][i].id != rs[n].id;
    }
  }

  lemma {:induction false} AnnouncedTimes(alerted: map<string, Time>, fs: seq<Firing>, now: Time, f: Firing)
    ensures Times(Announced(alerted, fs, now), f) == if Quiet(alerted, AlertKey(f), now) then 0 else Times(fs, f)
  {
    if fs != [] {
      hide AlertKey, Quiet;
      var n := |fs| - 1;
      AnnouncedTimes(alerted, fs[..n], now, f);
      assert fs == fs[..n] + [fs[n]];
      TimesConcat(fs[..n], [fs[n]], f);
      TimesConcat(Announced(alerted, fs[..n], now), [fs[n]], f);
    }
  }

  /** What the engine publishes in a round is what `Emits` says, each alert once. */
  lemma EventsAreEmissions(before: seq<Step>, s: Step, f: Firing)
    requires s.Round?
    ensures f in Announced(After(before), Firings(s.rules, s.devices, s.holds), s.now) <==> Emits(before, s, f)
    ensures Distinct(s.rules, s.devices) ==>
              Times(Announced(After(before), Firings(s.rules, s.devices, s.holds), s.now), f)
              == if Emits(before, s, f) then 1 else 0
  {
    hide Quiet, AlertKey, Times, FiresIn, Distinct, Firings, After, Announced;
    var fs := Firings(s.rules, s.devices, s.holds);
    AnnouncedAre(After(before), fs, s.now, f);
    FiringsAre(s.rules, s.devices, s.holds, s.now, f);
    if Distinct(s.rules, s.devices) {
      FiringsOnce(s.rules, s.devices, s.holds, s.now, f);
      AnnouncedTimes(After(before), fs, s.now, f);
      TimesConcat(fs, [], f);
    }
  }

  /** The last step of this process that could read the rules. */
  function LastRound(steps: seq<Step>): Option<Step> {
    if steps == [] then None
    else match steps[|steps| - 1]
      case Round(_, _, _, _) => Some(steps[|steps| - 1])
      case Unreadable(_) => LastRound(steps[..|steps| - 1])
      case Restart(_) => None
  }

  /** When the alert last went out. */
  function LastEmission(steps: seq<Step>, f: Firing): Option<Time> {
    if steps == [] then None
    else
      var n := |steps| - 1;
      if Emits(steps[..n], steps[n], f) then Some(steps[n].now) else LastEmission(steps[..n], f)
  }

  lemma {:induction false} MemoryOf(steps: seq<Step>, f: Firing)
    requires CleanRun(steps) && Slug(f.ruleID)
    ensures AlertKey(f) in After(steps) <==> LastRound(steps).Some? && FiresIn(LastRound(steps).value, f)
    ensures AlertKey(f) in After(steps) ==> LastEmission(steps, f) == Some(After(steps)[AlertKey(f)])
  {
    if steps != [] {
      hide AlertKey, FiresIn, Slug;
      var n := |steps| - 1;
      assert CleanRun(steps[..n]) && Clean(steps[n]);
      MemoryOf(steps[..n], f);
      hide Clean;
      match steps[n] {
        case Round(_, _, _, _) => MemoryIsWhatFires(After(steps[..n]), steps[n], f);
        case Unreadable(_) => assert !FiresIn(steps[n], f) by { NotFiring(steps[n], f); }
        case Restart(_) =>
      }
    }
  }

  lemma NotFiring(s: Step, f: Firing)
    requires !s.Round?
    ensures !FiresIn(s, f)
  {
  }

  /** An alert goes out exactly when its condition begins to fire, or 30 minutes after it last went out. */
  lemma EmitsIff(before: seq<Step>, s: Step, f: Firing)
    requires CleanRun(before) && Slug(f.ruleID) && FiresIn(s, f)
    ensures var last := LastRound(before);
            Emits(before, s, f) <==>
              || last.None?
              || !FiresIn(last.value, f)
              || LastEmission(before, f).None?
              || s.now - LastEmission(before, f).value >= 30 * 60 * 1_000_000_000
    ensures LastRound(before).Some? && FiresIn(LastRound(before).value, f) ==> LastEmission(before, f).Some?
  {
    hide AlertKey, FiresIn;
    MemoryOf(before, f);
  }

  /** While a condition keeps firing, its memory is never older than an emission already made. */
  lemma {:induction false} Held(steps: seq<Step>, i: nat, m: nat, f: Firing)
    requires i < m <= |steps| && CleanRun(steps) && Slug(f.ruleID) && ClockForward(steps)
    requires Emits(steps[..i], steps[i], f)
    requires forall k :: i < k < m ==> steps[k].Unreadable? || FiresIn(steps[k], f)
    ensures AlertKey(f) in After(steps[..m]) && steps[i].now <= After(steps[..m])[AlertKey(f)]
  {
    hide AlertKey, FiresIn, Slug;
    assert steps[..m][..m - 1] == steps[..m - 1];
    assert Clean(steps[m - 1]);
    hide Clean;
    if m == i + 1 {
      FiresOnlyInRounds(steps[i], f);
      MemoryIsWhatFires(After(steps[..i]), steps[i], f);
    } else {
      Held(steps, i, m - 1, f);
      if !steps[m - 1].Unreadable? {
        FiresOnlyInRounds(steps[m - 1], f);
        MemoryIsWhatFires(After(steps[..m - 1]), steps[m - 1], f);
      }
    }
  }

  lemma FiresOnlyInRounds(s: Step, f: Firing)
    requires FiresIn(s, f)
    ensures s.Round?
  {
  }

  /** Two alerts of one episode are at least 30 minutes apart, however many cycles lie between them. */
  lemma EmissionsSpaced(steps: seq<Step>, i: nat, j: nat, f: Firing)
    requires i < j < |steps| && CleanRun(steps) && Slug(f.ruleID) && ClockForward(steps)
    requires Emits(steps[..i], steps[i], f) && Emits(steps[..j], steps[j], f)
    requires forall k :: i < k < j ==> steps[k].Unreadable? || FiresIn(steps[k], f)
    ensures steps[j].now - steps[i].now >= 30 * 60 * 1_000_000_000
  {
    Held(steps, i, j, f);
  }
}
