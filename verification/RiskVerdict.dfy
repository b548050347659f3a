/** The risk verdict of a device: points and reasons rule by rule, rounding, severity, provenance (internal/domain/risk). */
module RiskVerdict {
  import opened Base
  import opened Rounding

  datatype Fence = Outside | Unknown | Elsewhere
  datatype Route = OffRoute | OnRoute | NoRoute

  /**
    The evidence as the evaluator reads it: a flag is set when the signal is there and says so; `zone` and
    `deviation` are 0 when their signal is missing or not finite.
  */
  datatype Signals = Signals(
    fence: Fence, nonCompliant: bool, rooted: bool, osOutdated: bool,
    diskLow: bool, batteryCritical: bool, osUnpatched: bool, encryptionOff: bool, lockdownModeOff: bool,
    unsupervised: bool, hardwareDegraded: bool, osqueryInvalid: bool,
    impossibleSpeed: bool, countryFlip: bool, accuracyInvalid: bool, accuracyTooPerfect: bool,
    offHours: bool, outOfShift: bool, zone: real, route: Route, deviation: real)

  /** The reasons a verdict can give, by name. */
  datatype Reason = OutsideFence | LostSignal | NotCompliant | Rooted | Outdated | DiskFull | BatteryCritical | Unpatched
                  | NotEncrypted | LockdownOff | Unsupervised | HardwareDegraded | OsqueryInvalid | ImpossibleSpeed
                  | CountryFlip | AccuracyInvalid | AccuracyTooPerfect | OffHours | OutOfShift | RiskyZone | OffTrack
                  | BaseScore

  datatype Rule = Rule(on: bool, weight: int, reason: Reason)

  function Points(rs: seq<Rule>): int {
    if rs == [] then 0 else Points(rs[..|rs| - 1]) + (if rs[|rs| - 1].on then rs[|rs| - 1].weight else 0)
  }

  function Reasons(rs: seq<Rule>): seq<Reason> {
    if rs == [] then []
    else
      var rest, r := Reasons(rs[..|rs| - 1]), rs[|rs| - 1];
      if r.on then rest + [r.reason] else rest
  }

  // -------- The rules --------

  function FenceRules(s: Signals): seq<Rule> {
    [Rule(s.fence == Outside, 35, OutsideFence),
     Rule(s.fence == Unknown, 20, LostSignal)]
  }

  function HealthRules(s: Signals): seq<Rule> {
    [Rule(s.nonCompliant, 25, NotCompliant),
     Rule(s.rooted, 15, Rooted),
     Rule(s.osOutdated, 10, Outdated)]
  }

  /** An unpatched system does not count twice when it is already reported as outdated. */
  function PostureRules(s: Signals): seq<Rule> {
    [Rule(s.diskLow, 8, DiskFull),
     Rule(s.batteryCritical, 6, BatteryCritical),
     Rule(s.osUnpatched && !s.osOutdated, 12, Unpatched),
     Rule(s.encryptionOff, 15, NotEncrypted),
     Rule(s.lockdownModeOff, 10, LockdownOff),
     Rule(s.unsupervised, 10, Unsupervised),
     Rule(s.hardwareDegraded, 10, HardwareDegraded),
     Rule(s.osqueryInvalid, 8, OsqueryInvalid)]
  }

  function IntegrityRules(s: Signals): seq<Rule> {
    [Rule(s.impossibleSpeed, 30, ImpossibleSpeed),
     Rule(s.countryFlip, 15, CountryFlip),
     Rule(s.accuracyInvalid, 8, AccuracyInvalid),
     Rule(s.accuracyTooPerfect, 8, AccuracyTooPerfect)]
  }

  function TimeRules(s: Signals): seq<Rule> {
    [Rule(s.offHours, 10, OffHours),
     Rule(s.outOfShift, 20, OutOfShift)]
  }

  function AllRules(s: Signals): seq<Rule> {
    FenceRules(s) + HealthRules(s) + PostureRules(s) + IntegrityRules(s) + TimeRules(s)
  }

  // -------- Points and reasons --------

  function ZonePoints(s: Signals): real {
    if s.zone > 0.0 then s.zone * 20.0 else 0.0
  }

  /** A deviation adds 25 points and one more for every whole 100 m, 25 at most. */
  function RoutePoints(s: Signals): real {
    var d := if s.deviation < 0.0 then 0.0 else s.deviation;
    var hundreds := (d / 100.0).Floor as real;
    25.0 + (if hundreds > 25.0 then 25.0 else hundreds)
  }

  function Raw(s: Signals): real {
    var score := Points(AllRules(s)) as real + ZonePoints(s);
    match s.route
    case OffRoute => score + RoutePoints(s)
    case OnRoute => if score - 5.0 < 0.0 then 0.0 else score - 5.0
    case NoRoute => score
  }

  function RawReasons(s: Signals): seq<Reason> {
    Reasons(AllRules(s))
    + (if s.zone > 0.0 then [RiskyZone] else [])
    + (if s.route == OffRoute then [OffTrack] else [])
  }

  lemma {:induction false} RulesConcat(a: seq<Rule>, b: seq<Rule>)
    ensures Points(a + b) == Points(a) + Points(b) && Reasons(a + b) == Reasons(a) + Reasons(b)
  {
    if b == [] {
      assert a + b == a;
    } else {
      RulesConcat(a, b[..|b| - 1]);
      assert (a + b)[..|a + b| - 1] == a + b[..|b| - 1];
    }
  }

  /** One table of rules, in order. */
  method ApplyRules(score0: int, reasons0: seq<Reason>, rs: seq<Rule>) returns (score: int, reasons: seq<Reason>)
    ensures score == score0 + Points(rs) && reasons == reasons0 + Reasons(rs)
  {
    score, reasons := score0, reasons0;
    for i := 0 to |rs|
      invariant score == score0 + Points(rs[..i]) && reasons == reasons0 + Reasons(rs[..i])
    {
      assert rs[..i + 1][..i] == rs[..i];
      if rs[i].on {
        score := score + rs[i].weight;
        reasons := reasons + [rs[i].reason];
      }
    }
    assert rs[..|rs|] == rs;
  }

  method ApplyTables(f: seq<Rule>, h: seq<Rule>, p: seq<Rule>, i: seq<Rule>, t: seq<Rule>)
    returns (points: int, reasons: seq<Reason>)
    ensures points == Points(f + h + p + i + t) && reasons == Reasons(f + h + p + i + t)
  {
    hide Points, Reasons;
    points, reasons := ApplyRules(0, [], f);
    points, reasons := ApplyRules(points, reasons, h);
    points, reasons := ApplyRules(points, reasons, p);
    points, reasons := ApplyRules(points, reasons, i);
    points, reasons := ApplyRules(points, reasons, t);
    RulesConcat(f, h);
    RulesConcat(f + h, p);
    RulesConcat(f + h + p, i);
    RulesConcat(f + h + p + i, t);
  }

  method Accumulate(s: Signals) returns (score: real, reasons: seq<Reason>)
    ensures score == Raw(s) && reasons == RawReasons(s)
  {
    hide Points, Reasons, FenceRules, HealthRules, PostureRules, IntegrityRules, TimeRules, RoutePoints;
    var points;
    points, reasons := ApplyTables(FenceRules(s), HealthRules(s), PostureRules(s), IntegrityRules(s), TimeRules(s));
    score := points as real;
    if s.zone > 0.0 {
      score := score + s.zone * 20.0;
      reasons := reasons + [RiskyZone];
    }
    if s.route == OffRoute {
      score := score + RoutePoints(s);
      reasons := reasons + [OffTrack];
    } else if s.route == OnRoute {
      score := if score - 5.0 < 0.0 then 0.0 else score - 5.0;
    }
  }

  function If(on: bool, weight: int): int {
    if on then weight else 0
  }

  lemma IfOn(weight: int)
    ensures If(true, weight) == weight && If(false, weight) == 0
  {
  }

  lemma One(r: Rule)
    ensures Points([r]) == If(r.on, r.weight)
  {
    assert [r][..0] == [];
  }

  lemma Two(a: Rule, b: Rule)
    ensures Points([a, b]) == If(a.on, a.weight) + If(b.on, b.weight)
  {
    One(a);
    One(b);
    RulesConcat([a], [b]);
    assert [a] + [b] == [a, b];
  }

  lemma Four(a: Rule, b: Rule, c: Rule, d: Rule)
    ensures Points([a, b, c, d]) == If(a.on, a.weight) + If(b.on, b.weight) + If(c.on, c.weight) + If(d.on, d.weight)
  {
    Two(a, b);
    Two(c, d);
    RulesConcat([a, b], [c, d]);
    assert [a, b] + [c, d] == [a, b, c, d];
  }

  lemma FirstTables(s: Signals)
    ensures Points(FenceRules(s)) == If(s.fence == Outside, 35) + If(s.fence == Unknown, 20)
    ensures Points(HealthRules(s)) == If(s.nonCompliant, 25) + If(s.rooted, 15) + If(s.osOutdated, 10)
    ensures Points(TimeRules(s)) == If(s.offHours, 10) + If(s.outOfShift, 20)
  {
    hide Points;
    var f, h, t := FenceRules(s), HealthRules(s), TimeRules(s);
    Two(f[0], f[1]);
    Two(t[0], t[1]);
    Two(h[0], h[1]);
    One(h[2]);
    RulesConcat([h[0], h[1]], [h[2]]);
    assert h == [h[0], h[1]] + [h[2]];
  }

  lemma PostureTable(s: Signals)
    ensures Points(PostureRules(s))
         == If(s.diskLow, 8) + If(s.batteryCritical, 6) + If(s.osUnpatched && !s.osOutdated, 12) + If(s.encryptionOff, 15)
            + If(s.lockdownModeOff, 10) + If(s.unsupervised, 10) + If(s.hardwareDegraded, 10) + If(s.osqueryInvalid, 8)
  {
    hide Points;
    var p := PostureRules(s);
    Four(p[0], p[1], p[2], p[3]);
    Four(p[4], p[5], p[6], p[7]);
    RulesConcat(p[..4], p[4..]);
    assert p == p[..4] + p[4..] && p[..4] == [p[0], p[1], p[2], p[3]] && p[4..] == [p[4], p[5], p[6], p[7]];
  }

  lemma IntegrityTable(s: Signals)
    ensures Points(IntegrityRules(s))
         == If(s.impossibleSpeed, 30) + If(s.countryFlip, 15) + If(s.accuracyInvalid, 8) + If(s.accuracyTooPerfect, 8)
  {
    hide Points;
    var i := IntegrityRules(s);
    Four(i[0], i[1], i[2], i[3]);
  }

  /** The points of the flags, flag by flag, whatever the order of the tables. */
  lemma PointsByFlag(s: Signals)
    ensures Points(AllRules(s))
         == If(s.fence == Outside, 35) + If(s.fence == Unknown, 20)
            + If(s.nonCompliant, 25) + If(s.rooted, 15) + If(s.osOutdated, 10)
            + If(s.diskLow, 8) + If(s.batteryCritical, 6) + If(s.osUnpatched && !s.osOutdated, 12) + If(s.encryptionOff, 15)
            + If(s.lockdownModeOff, 10) + If(s.unsupervised, 10) + If(s.hardwareDegraded, 10) + If(s.osqueryInvalid, 8)
            + If(s.impossibleSpeed, 30) + If(s.countryFlip, 15) + If(s.accuracyInvalid, 8) + If(s.accuracyTooPerfect, 8)
            + If(s.offHours, 10) + If(s.outOfShift, 20)
  {
    FirstTables(s);
    PostureTable(s);
    IntegrityTable(s);
    PointsOfAll(s);
    hide Points, AllRules, FenceRules, HealthRules, PostureRules, IntegrityRules, TimeRules, If;
  }

  lemma PointsOfAll(s: Signals)
    ensures Points(AllRules(s)) == Points(FenceRules(s)) + Points(HealthRules(s)) + Points(PostureRules(s))
                                 + Points(IntegrityRules(s)) + Points(TimeRules(s))
  {
    hide FenceRules, HealthRules, PostureRules, IntegrityRules, TimeRules, Points, Reasons;
    var f, h, p, i, t := FenceRules(s), HealthRules(s), PostureRules(s), IntegrityRules(s), TimeRules(s);
    RulesConcat(f, h);
    RulesConcat(f + h, p);
    RulesConcat(f + h + p, i);
    RulesConcat(f + h + p + i, t);
  }

  // -------- The same in plain numbers --------

  /** What the flags weigh together. */
  predicate Weighs(s: Signals, flags: int) {
    flags == If(s.fence == Outside, 35) + If(s.fence == Unknown, 20)
             + If(s.nonCompliant, 25) + If(s.rooted, 15) + If(s.osOutdated, 10)
             + If(s.diskLow, 8) + If(s.batteryCritical, 6) + If(s.osUnpatched && !s.osOutdated, 12) + If(s.encryptionOff, 15)
             + If(s.lockdownModeOff, 10) + If(s.unsupervised, 10) + If(s.hardwareDegraded, 10) + If(s.osqueryInvalid, 8)
             + If(s.impossibleSpeed, 30) + If(s.countryFlip, 15) + If(s.accuracyInvalid, 8) + If(s.accuracyTooPerfect, 8)
             + If(s.offHours, 10) + If(s.outOfShift, 20)
  }

  /** The whole hundreds of metres off the route. */
  predicate Strays(deviation: real, hundreds: nat) {
    if deviation < 100.0 then hundreds == 0
    else hundreds as real * 100.0 <= deviation < (hundreds + 1) as real * 100.0
  }

  lemma StraysFloor(deviation: real, hundreds: nat)
    requires Strays(deviation, hundreds)
    ensures ((if deviation < 0.0 then 0.0 else deviation) / 100.0).Floor == hundreds
  {
    var x := (if deviation < 0.0 then 0.0 else deviation) / 100.0;
    assert hundreds as real <= x < hundreds as real + 1.0;
  }

  lemma PointsAre(s: Signals, flags: int)
    requires Weighs(s, flags)
    ensures Points(AllRules(s)) == flags
  {
    hide Points, AllRules, If;
    PointsByFlag(s);
  }

  /**
    The score before rounding: the flags, twenty points for a zone of risk one; on the route five less but not below
    zero, off it 25 more and one for every whole hundred metres up to 25.
  */
  lemma RawIs(s: Signals, flags: int, hundreds: nat)
    requires Weighs(s, flags) && Strays(s.deviation, hundreds)
    ensures var base := flags as real + (if s.zone > 0.0 then s.zone * 20.0 else 0.0);
            && (s.route == NoRoute ==> Raw(s) == base)
            && (s.route == OnRoute ==> Raw(s) == if base >= 5.0 then base - 5.0 else 0.0)
            && (s.route == OffRoute ==> Raw(s) == base + (if hundreds <= 25 then 25.0 + hundreds as real else 50.0))
  {
    hide Points, AllRules, Weighs, Strays, If;
    PointsAre(s, flags);
    StraysFloor(s.deviation, hundreds);
  }

  /** The evidence a reason stands for. */
  predicate Says(s: Signals, r: Reason) {
    match r
    case OutsideFence => s.fence == Outside
    case LostSignal => s.fence == Unknown
    case NotCompliant => s.nonCompliant
    case Rooted => s.rooted
    case Outdated => s.osOutdated
    case DiskFull => s.diskLow
    case BatteryCritical => s.batteryCritical
    case Unpatched => s.osUnpatched && !s.osOutdated
    case NotEncrypted => s.encryptionOff
    case LockdownOff => s.lockdownModeOff
    case Unsupervised => s.unsupervised
    case HardwareDegraded => s.hardwareDegraded
    case OsqueryInvalid => s.osqueryInvalid
    case ImpossibleSpeed => s.impossibleSpeed
    case CountryFlip => s.countryFlip
    case AccuracyInvalid => s.accuracyInvalid
    case AccuracyTooPerfect => s.accuracyTooPerfect
    case OffHours => s.offHours
    case OutOfShift => s.outOfShift
    case RiskyZone => s.zone > 0.0
    case OffTrack => s.route == OffRoute
    case BaseScore => false
  }

  /** The place of a reason among all of them. */
  function Place(r: Reason): nat {
    match r
    case OutsideFence => 0
    case LostSignal => 1
    case NotCompliant => 2
    case Rooted => 3
    case Outdated => 4
    case DiskFull => 5
    case BatteryCritical => 6
    case Unpatched => 7
    case NotEncrypted => 8
    case LockdownOff => 9
    case Unsupervised => 10
    case HardwareDegraded => 11
    case OsqueryInvalid => 12
    case ImpossibleSpeed => 13
    case CountryFlip => 14
    case AccuracyInvalid => 15
    case AccuracyTooPerfect => 16
    case OffHours => 17
    case OutOfShift => 18
    case RiskyZone => 19
    case OffTrack => 20
    case BaseScore => 21
  }

  /** A rule at its place, switched on by its evidence. */
  predicate Fits(s: Signals, r: Rule, place: nat) {
    Place(r.reason) == place && (r.on <==> Says(s, r.reason))
  }

  /** A table that begins at a place and goes up by one. */
  predicate Aligned(s: Signals, rs: seq<Rule>, first: nat) {
    forall i :: 0 <= i < |rs| ==> Fits(s, rs[i], first + i)
  }

  /** The reasons with a place from `first` up to `end` that the evidence gives, in order. */
  ghost predicate Tells(s: Signals, out: seq<Reason>, first: nat, end: nat) {
    && (forall i :: 0 <= i < |out| ==> first <= Place(out[i]) < end && Says(s, out[i]))
    && (forall i, j :: 0 <= i < j < |out| ==> Place(out[i]) < Place(out[j]))
    && (forall r: Reason :: first <= Place(r) < end && Says(s, r) ==> r in out)
  }

  lemma {:induction false} AlignedTells(s: Signals, rs: seq<Rule>, first: nat)
    requires Aligned(s, rs, first)
    ensures Tells(s, Reasons(rs), first, first + |rs|)
  {
    if rs != [] {
      var n := |rs| - 1;
      AlignedTells(s, rs[..n], first);
      assert Fits(s, rs[n], first + n);
      forall r: Reason | first <= Place(r) < first + n + 1 && Says(s, r) ensures r in Reasons(rs) {
        if Place(r) == first + n {
          PlaceInjective(r, rs[n].reason);
        }
      }
      hide Says, Place;
    }
  }

  lemma PlaceInjective(r: Reason, q: Reason)
    requires Place(r) == Place(q)
    ensures r == q
  {
  }

  lemma TellsConcat(s: Signals, a: seq<Reason>, b: seq<Reason>, first: nat, mid: nat, end: nat)
    requires first <= mid <= end && Tells(s, a, first, mid) && Tells(s, b, mid, end)
    ensures Tells(s, a + b, first, end)
  {
    hide Says, Place;
  }

  lemma AlignedTwo(s: Signals, a: Rule, b: Rule, first: nat)
    requires Fits(s, a, first) && Fits(s, b, first + 1)
    ensures Aligned(s, [a, b], first)
  {
    hide Fits;
  }

  lemma AlignedConcat(s: Signals, a: seq<Rule>, b: seq<Rule>, first: nat)
    requires Aligned(s, a, first) && Aligned(s, b, first + |a|)
    ensures Aligned(s, a + b, first)
  {
    hide Fits;
  }

  lemma AlignedFour(s: Signals, a: Rule, b: Rule, c: Rule, d: Rule, first: nat)
    requires Fits(s, a, first) && Fits(s, b, first + 1) && Fits(s, c, first + 2) && Fits(s, d, first + 3)
    ensures Aligned(s, [a, b, c, d], first)
  {
    hide Fits, Aligned;
    AlignedTwo(s, a, b, first);
    AlignedTwo(s, c, d, first + 2);
    AlignedConcat(s, [a, b], [c, d], first);
    assert [a, b, c, d] == [a, b] + [c, d];
  }

  lemma FenceAligned(s: Signals)
    ensures Aligned(s, FenceRules(s), 0)
  {
    var f := FenceRules(s);
    assert Fits(s, f[0], 0) && Fits(s, f[1], 1);
    hide Fits, Aligned;
    AlignedTwo(s, f[0], f[1], 0);
  }

  lemma HealthAligned(s: Signals)
    ensures Aligned(s, HealthRules(s), 2)
  {
    var h := HealthRules(s);
    assert Fits(s, h[0], 2) && Fits(s, h[1], 3) && Fits(s, h[2], 4);
    hide Fits;
  }

  lemma PostureAligned(s: Signals)
    ensures Aligned(s, PostureRules(s), 5)
  {
    var p := PostureRules(s);
    assert Fits(s, p[0], 5) && Fits(s, p[1], 6) && Fits(s, p[2], 7) && Fits(s, p[3], 8);
    assert Fits(s, p[4], 9) && Fits(s, p[5], 10) && Fits(s, p[6], 11) && Fits(s, p[7], 12);
    hide Fits, Aligned;
    AlignedFour(s, p[0], p[1], p[2], p[3], 5);
    AlignedFour(s, p[4], p[5], p[6], p[7], 9);
    AlignedConcat(s, [p[0], p[1], p[2], p[3]], [p[4], p[5], p[6], p[7]], 5);
    assert p == [p[0], p[1], p[2], p[3]] + [p[4], p[5], p[6], p[7]];
  }

  lemma IntegrityAligned(s: Signals)
    ensures Aligned(s, IntegrityRules(s), 13)
  {
    var i := IntegrityRules(s);
    assert Fits(s, i[0], 13) && Fits(s, i[1], 14) && Fits(s, i[2], 15) && Fits(s, i[3], 16);
    hide Fits, Aligned;
    AlignedFour(s, i[0], i[1], i[2], i[3], 13);
  }

  lemma TimeAligned(s: Signals)
    ensures Aligned(s, TimeRules(s), 17)
  {
    var t := TimeRules(s);
    assert Fits(s, t[0], 17) && Fits(s, t[1], 18);
    hide Fits, Aligned;
    AlignedTwo(s, t[0], t[1], 17);
  }

  lemma FirstTell(s: Signals)
    ensures Tells(s, Reasons(FenceRules(s)), 0, 2) && Tells(s, Reasons(HealthRules(s)), 2, 5)
  {
    FenceAligned(s);
    HealthAligned(s);
    assert |FenceRules(s)| == 2 && |HealthRules(s)| == 3;
    hide Tells, Reasons, Aligned, FenceRules, HealthRules;
    AlignedTells(s, FenceRules(s), 0);
    AlignedTells(s, HealthRules(s), 2);
  }

  lemma LastTell(s: Signals)
    ensures Tells(s, Reasons(PostureRules(s)), 5, 13)
    ensures Tells(s, Reasons(IntegrityRules(s)), 13, 17) && Tells(s, Reasons(TimeRules(s)), 17, 19)
  {
    PostureAligned(s);
    IntegrityAligned(s);
    TimeAligned(s);
    assert |PostureRules(s)| == 8 && |IntegrityRules(s)| == 4 && |TimeRules(s)| == 2;
    hide Tells, Reasons, Aligned, PostureRules, IntegrityRules, TimeRules;
    AlignedTells(s, PostureRules(s), 5);
    AlignedTells(s, IntegrityRules(s), 13);
    AlignedTells(s, TimeRules(s), 17);
  }

  lemma RulesTell(s: Signals)
    ensures Tells(s, Reasons(AllRules(s)), 0, 19)
  {
    hide Says, Place, Tells, Reasons, Points, FenceRules, HealthRules, PostureRules, IntegrityRules, TimeRules;
    var f, h, p, i, t := FenceRules(s), HealthRules(s), PostureRules(s), IntegrityRules(s), TimeRules(s);
    FirstTell(s);
    LastTell(s);
    RulesConcat(f, h);
    RulesConcat(f + h, p);
    RulesConcat(f + h + p, i);
    RulesConcat(f + h + p + i, t);
    TellsConcat(s, Reasons(f), Reasons(h), 0, 2, 5);
    TellsConcat(s, Reasons(f + h), Reasons(p), 0, 5, 13);
    TellsConcat(s, Reasons(f + h + p), Reasons(i), 0, 13, 17);
    TellsConcat(s, Reasons(f + h + p + i), Reasons(t), 0, 17, 19);
  }

  lemma OneTells(s: Signals, r: Rule)
    requires r.on <==> Says(s, r.reason)
    ensures Tells(s, if r.on then [r.reason] else [], Place(r.reason), Place(r.reason) + 1)
  {
    hide Says, Place, Tells;
    assert [r][..0] == [] && [] + [r.reason] == [r.reason];
    assert Reasons([r]) == if r.on then [r.reason] else [];
    AlignedTells(s, [r], Place(r.reason));
  }

  /** The verdict gives exactly the reasons its evidence stands for, each once, always in the same order. */
  lemma ReasonsTell(s: Signals)
    ensures Tells(s, RawReasons(s), 0, 21)
  {
    hide Tells, AllRules, Reasons;
    var z, o := Rule(s.zone > 0.0, 0, RiskyZone), Rule(s.route == OffRoute, 0, OffTrack);
    RulesTell(s);
    OneTells(s, z);
    OneTells(s, o);
    TellsConcat(s, Reasons(AllRules(s)), if z.on then [RiskyZone] else [], 0, 19, 20);
    TellsConcat(s, Reasons(AllRules(s)) + (if z.on then [RiskyZone] else []), if o.on then [OffTrack] else [], 0, 20, 21);
  }

  // -------- The verdict --------

  /** The score in tenths. */
  datatype Verdict = Verdict(tenths: int, severity: string, reasons: seq<Reason>, provenance: string, verified: bool)

  function Clamped(v: real): real {
    if v < 0.0 then 0.0 else if v > 100.0 then 100.0 else v
  }

  function Severity(tenths: int): string {
    if tenths >= 800 then "critical" else if tenths >= 550 then "high" else if tenths >= 300 then "medium" else "low"
  }

  function EvidenceGate(tenths: int, reasons: seq<Reason>): (seq<Reason>, string, bool) {
    if |reasons| > 0 then (reasons, "tool", true)
    else if tenths > 0 then ([BaseScore], "context", false)
    else ([], "none", false)
  }

  function VerdictOf(s: Signals): Verdict {
    var tenths := RoundTenth(Clamped(Raw(s)));
    var (reasons, provenance, verified) := EvidenceGate(tenths, RawReasons(s));
    Verdict(tenths, Severity(tenths), reasons, provenance, verified)
  }

  method Evaluate(s: Signals) returns (v: Verdict)
    ensures v == VerdictOf(s)
  {
    var score, reasons := Accumulate(s);
    var tenths := RoundTenth(Clamped(score));
    var gate := EvidenceGate(tenths, reasons);
    return Verdict(tenths, Severity(tenths), gate.0, gate.1, gate.2);
  }

  /** The severity is decided by the score before rounding, at 79.95, 54.95 and 29.95. */
  lemma SeverityCuts(s: Signals)
    ensures var v, raw := VerdictOf(s), Clamped(Raw(s));
            && 0 <= v.tenths <= 1000
            && (v.severity == "critical" <==> raw >= 79.95)
            && (v.severity == "critical" || v.severity == "high" <==> raw >= 54.95)
            && (v.severity == "medium" <==> 29.95 <= raw < 54.95)
            && (v.severity == "low" <==> raw < 29.95)
  {
    var raw := Clamped(Raw(s));
    RoundRange(raw);
    RoundReachesEven(raw, 800);
    RoundReachesEven(raw, 550);
    RoundReachesEven(raw, 300);
    hide Raw, RawReasons, RoundTenth;
  }

  lemma {:induction false} PointsHaveReasons(rs: seq<Rule>)
    requires forall i :: 0 <= i < |rs| ==> rs[i].weight > 0
    ensures Points(rs) >= 0 && (Points(rs) > 0 <==> Reasons(rs) != [])
  {
    if rs != [] {
      PointsHaveReasons(rs[..|rs| - 1]);
    }
  }

  lemma WeightsPositive(s: Signals)
    ensures forall i :: 0 <= i < |AllRules(s)| ==> AllRules(s)[i].weight > 0
  {
  }

  /** Every positive score carries a reason, so a verdict is never one "from context". */
  lemma PositiveScoreHasReason(s: Signals)
    ensures Raw(s) > 0.0 ==> RawReasons(s) != []
    ensures VerdictOf(s).provenance != "context"
    ensures VerdictOf(s).reasons == RawReasons(s)
    ensures VerdictOf(s).provenance == if RawReasons(s) != [] then "tool" else "none"
    ensures VerdictOf(s).verified <==> RawReasons(s) != []
    ensures VerdictOf(s).tenths > 0 ==> VerdictOf(s).verified
  {
    WeightsPositive(s);
    PointsHaveReasons(AllRules(s));
    hide AllRules, Points, Reasons;
    if VerdictOf(s).tenths > 0 && Raw(s) <= 0.0 {
      RoundFixesTenths(0);
    }
  }

  // -------- More evidence, more risk: except one --------

  /** The same or more evidence; the outdated flag and the route are left alone. */
  predicate AtLeast(s: Signals, t: Signals) {
    && (t.fence == s.fence || t.fence == Outside || s.fence == Elsewhere)
    && s.osOutdated == t.osOutdated && s.route == t.route
    && (s.nonCompliant ==> t.nonCompliant) && (s.rooted ==> t.rooted)
    && (s.diskLow ==> t.diskLow) && (s.batteryCritical ==> t.batteryCritical) && (s.osUnpatched ==> t.osUnpatched)
    && (s.encryptionOff ==> t.encryptionOff) && (s.lockdownModeOff ==> t.lockdownModeOff)
    && (s.unsupervised ==> t.unsupervised) && (s.hardwareDegraded ==> t.hardwareDegraded)
    && (s.osqueryInvalid ==> t.osqueryInvalid)
    && (s.impossibleSpeed ==> t.impossibleSpeed) && (s.countryFlip ==> t.countryFlip)
    && (s.accuracyInvalid ==> t.accuracyInvalid) && (s.accuracyTooPerfect ==> t.accuracyTooPerfect)
    && (s.offHours ==> t.offHours) && (s.outOfShift ==> t.outOfShift)
    && s.zone <= t.zone && s.deviation <= t.deviation
  }

  /** Rule by rule, no rule that is on goes off. */
  predicate Covers(a: seq<Rule>, b: seq<Rule>) {
    |a| == |b| && forall i :: 0 <= i < |a| ==> a[i].weight == b[i].weight >= 0 && (a[i].on ==> b[i].on)
  }

  lemma {:induction false} CoversPoints(a: seq<Rule>, b: seq<Rule>)
    requires Covers(a, b)
    ensures Points(a) <= Points(b)
  {
    if a != [] {
      CoversPoints(a[..|a| - 1], b[..|b| - 1]);
    }
  }

  lemma HealthGrows(s: Signals, t: Signals)
    requires AtLeast(s, t)
    ensures Points(HealthRules(s)) + Points(TimeRules(s)) <= Points(HealthRules(t)) + Points(TimeRules(t))
  {
    hide Points;
    CoversPoints(HealthRules(s), HealthRules(t));
    CoversPoints(TimeRules(s), TimeRules(t));
  }

  lemma PostureGrows(s: Signals, t: Signals)
    requires AtLeast(s, t)
    ensures Points(PostureRules(s)) <= Points(PostureRules(t))
  {
    hide Points;
    CoversPoints(PostureRules(s), PostureRules(t));
  }

  lemma IntegrityGrows(s: Signals, t: Signals)
    requires AtLeast(s, t)
    ensures Points(IntegrityRules(s)) <= Points(IntegrityRules(t))
  {
    hide Points;
    CoversPoints(IntegrityRules(s), IntegrityRules(t));
  }

  lemma RulesGrow(s: Signals, t: Signals)
    requires AtLeast(s, t)
    ensures Points(AllRules(s)) <= Points(AllRules(t))
  {
    FirstTables(s);
    FirstTables(t);
    PointsOfAll(s);
    PointsOfAll(t);
    HealthGrows(s, t);
    PostureGrows(s, t);
    IntegrityGrows(s, t);
    hide Points, AllRules, FenceRules, HealthRules, PostureRules, IntegrityRules, TimeRules;
    assert If(s.fence == Outside, 35) + If(s.fence == Unknown, 20) <= If(t.fence == Outside, 35) + If(t.fence == Unknown, 20);
  }

  lemma FloorGrows(x: real, y: real)
    requires x <= y
    ensures x.Floor <= y.Floor
  {
  }

  /** More evidence never lowers the score. */
  lemma EvidenceOnlyAdds(s: Signals, t: Signals)
    requires AtLeast(s, t)
    ensures Raw(s) <= Raw(t) && VerdictOf(s).tenths <= VerdictOf(t).tenths
  {
    RulesGrow(s, t);
    var d, e := if s.deviation < 0.0 then 0.0 else s.deviation, if t.deviation < 0.0 then 0.0 else t.deviation;
    FloorGrows(d / 100.0, e / 100.0);
    hide AllRules, Points, RoundTenth, RawReasons;
    RoundMonotone(Clamped(Raw(s)), Clamped(Raw(t)));
  }

  lemma OutdatedPoints(s: Signals)
    requires !s.osOutdated
    ensures Points(AllRules(s.(osOutdated := true))) == Points(AllRules(s)) + 10 - If(s.osUnpatched, 12)
    ensures s.osUnpatched ==> Points(AllRules(s)) >= 12
  {
    PointsByFlag(s);
    PointsByFlag(s.(osOutdated := true));
    hide Points, AllRules;
  }

  /** Before rounding, the flag takes two points from a system reported as unpatched and none from any other. */
  lemma OutdatedRaw(s: Signals)
    requires !s.osOutdated
    ensures var t := s.(osOutdated := true);
            if s.osUnpatched then Raw(t) == Raw(s) - 2.0 && Raw(t) >= 0.0 else Raw(t) >= Raw(s)
  {
    OutdatedPoints(s);
    hide AllRules, Points;
  }

  lemma TwoLess(v: real)
    requires v >= 2.0
    ensures RoundTenth(Clamped(v - 2.0)) < RoundTenth(Clamped(v)) <==> v < 101.95
  {
    hide RoundTenth, Nearest;
    if v <= 100.0 {
      NearestShifts(v, RoundTenth(v));
      NearestUnique(v - 2.0, RoundTenth(v) - 20, RoundTenth(v - 2.0));
    } else {
      RoundFixesTenths(1000);
      RoundReachesEven(Clamped(v - 2.0), 1000);
      RoundRange(Clamped(v - 2.0));
    }
  }

  lemma NearestShifts(v: real, q: int)
    requires Nearest(v, q)
    ensures Nearest(v - 2.0, q - 20)
  {
  }

  /**
    Reporting the system as outdated lowers the score exactly when it was already reported as unpatched and the sum
    was below 101.95, so that the score is not 100 both before and after.
  */
  lemma OutdatedLowersIff(s: Signals)
    requires !s.osOutdated
    ensures VerdictOf(s.(osOutdated := true)).tenths < VerdictOf(s).tenths <==> s.osUnpatched && Raw(s) < 101.95
  {
    OutdatedRaw(s);
    hide Raw, RawReasons, RoundTenth, Severity;
    var t := s.(osOutdated := true);
    if s.osUnpatched {
      TwoLess(Raw(s));
    } else {
      RoundMonotone(Clamped(Raw(s)), Clamped(Raw(t)));
    }
  }

  // -------- Many verdicts --------

  /** The greatest score among devices that have one; absence is not a zero. */
  method MaxScore(scores: seq<Option<int>>) returns (best: Option<int>)
    ensures best.None? <==> forall i :: 0 <= i < |scores| ==> scores[i].None?
    ensures best.Some? ==> best in scores && forall i :: 0 <= i < |scores| && scores[i].Some? ==> scores[i].value <= best.value
  {
    best := None;
    for i := 0 to |scores|
      invariant best.None? <==> forall k :: 0 <= k < i ==> scores[k].None?
      invariant best.Some? ==> best in scores[..i] && forall k :: 0 <= k < i && scores[k].Some? ==> scores[k].value <= best.value
    {
      if scores[i].Some? && (best.None? || scores[i].value > best.value) {
        best := scores[i];
      }
    }
  }
}
