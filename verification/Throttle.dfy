/** The bounded memory of failed logins: who is blocked, and what making room may forget (internal/auth/throttle.go). */
module Throttle {
  import opened Base

  const MAX_FAILS := 5
  const WINDOW := MINUTE
  const MAX_EMAILS := 10000

  type Fails = map<string, seq<Time>>

  /** The attempts inside the window, in order. */
  function Recent(ts: seq<Time>, cutoff: Time): seq<Time> {
    if ts == [] then []
    else
      var rest, t := Recent(ts[..|ts| - 1], cutoff), ts[|ts| - 1];
      if t > cutoff then rest + [t] else rest
  }

  function AttemptsOf(m: Fails, email: string): seq<Time> {
    if email in m then m[email] else []
  }

  function Last(ts: seq<Time>): Time
    requires ts != []
  {
    ts[|ts| - 1]
  }

  predicate Lives(ts: seq<Time>, now: Time) {
    ts != [] && Last(ts) > now - WINDOW
  }

  // -------- What each operation does --------

  function Pruned(m: Fails, email: string, now: Time): Fails {
    var recent := Recent(AttemptsOf(m, email), now - WINDOW);
    if recent == [] then m - {email} else m[email := recent]
  }

  function Unexpired(m: Fails, now: Time): Fails {
    map e | e in m && Lives(m[e], now) :: m[e]
  }

  /** Room for one more: nothing, or the expired go and then the oldest that do not block, no more than needed. */
  predicate MadeRoom(m: Fails, m': Fails, now: Time, ok: bool) {
    if |m| < MAX_EMAILS then m' == m && ok
    else
      var kept := Unexpired(m, now);
      && (ok <==> |m'| < MAX_EMAILS)
      && m'.Keys <= kept.Keys
      && (forall e :: e in m' ==> m'[e] == kept[e])
      && (forall e :: e in kept && e !in m' ==> |kept[e]| < MAX_FAILS)
      && (forall e, f :: e in kept && e !in m' && f in m' && |m'[f]| < MAX_FAILS ==> Last(kept[e]) <= Last(m'[f]))
      && (!ok ==> forall e :: e in m' ==> |m'[e]| >= MAX_FAILS)
      && (m' != kept ==> |m'| >= MAX_EMAILS - 1)
  }

  ghost predicate Registered(m: Fails, m': Fails, email: string, now: Time) {
    if email in m then m' == m[email := m[email] + [now]]
    else exists mid, ok :: MadeRoom(m, mid, now, ok) && m' == if ok then mid[email := [now]] else mid
  }

  class Store {
    var fails: Fails

    constructor ()
      ensures fails == map[]
    {
      fails := map[];
    }

    method Throttled(email: string, now: Time) returns (blocked: bool)
      modifies this
      ensures fails == Pruned(old(fails), email, now)
      ensures blocked == (|Recent(AttemptsOf(old(fails), email), now - WINDOW)| >= MAX_FAILS)
    {
      var cutoff := now - WINDOW;
      var ts := if email in fails then fails[email] else [];
      var recent: seq<Time> := [];
      for i := 0 to |ts|
        invariant recent == Recent(ts[..i], cutoff)
      {
        assert ts[..i + 1][..i] == ts[..i];
        if ts[i] > cutoff {
          recent := recent + [ts[i]];
        }
      }
      assert ts[..|ts|] == ts;
      if |recent| == 0 {
        fails := fails - {email};
      } else {
        fails := fails[email := recent];
      }
      return |recent| >= MAX_FAILS;
    }

    method RegisterFail(email: string, now: Time)
      modifies this
      ensures Registered(old(fails), fails, email, now)
    {
      if email !in fails {
        var ok := MakeRoomForFail(now);
        assert MadeRoom(old(fails), fails, now, ok);
        if !ok {
          return;
        }
        fails := fails[email := [now]];
      } else {
        fails := fails[email := fails[email] + [now]];
      }
    }

    method DropExpired(now: Time)
      modifies this
      ensures fails == Unexpired(old(fails), now)
    {
      var cutoff := now - WINDOW;
      var todo := fails.Keys;
      while todo != {}
        invariant todo <= fails.Keys <= old(fails).Keys
        invariant forall e :: e in fails ==> fails[e] == old(fails)[e]
        invariant forall e :: e in old(fails) && e !in todo ==> (e in fails <==> Lives(old(fails)[e], now))
        decreases |todo|
      {
        var e :| e in todo;
        todo := todo - {e};
        if |fails[e]| == 0 || fails[e][|fails[e]| - 1] <= cutoff {
          fails := fails - {e};
        }
      }
    }

    /** Among the entries that do not block, one whose last attempt is the oldest. */
    method OldestOpen() returns (found: bool, oldest: string)
      requires forall e :: e in fails ==> fails[e] != []
      ensures found <==> exists e :: e in fails && |fails[e]| < MAX_FAILS
      ensures found ==> oldest in fails && |fails[oldest]| < MAX_FAILS
                        && forall e :: e in fails && |fails[e]| < MAX_FAILS ==> Last(fails[oldest]) <= Last(fails[e])
    {
      found, oldest := false, "";
      var todo := fails.Keys;
      while todo != {}
        invariant todo <= fails.Keys
        invariant found ==> oldest in fails && |fails[oldest]| < MAX_FAILS
        invariant forall e :: e in fails && e !in todo && |fails[e]| < MAX_FAILS ==>
                    found && Last(fails[oldest]) <= Last(fails[e])
        decreases |todo|
      {
        var e :| e in todo;
        todo := todo - {e};
        if |fails[e]| >= MAX_FAILS {
          continue;
        }
        if !found || Last(fails[e]) < Last(fails[oldest]) {
          found, oldest := true, e;
        }
      }
    }

    method MakeRoomForFail(now: Time) returns (ok: bool)
      modifies this
      ensures MadeRoom(old(fails), fails, now, ok)
    {
      if |fails| < MAX_EMAILS {
        return true;
      }
      DropExpired(now);
      ghost var kept := fails;
      while |fails| >= MAX_EMAILS
        invariant fails.Keys <= kept.Keys && forall e :: e in fails ==> fails[e] == kept[e]
        invariant forall e :: e in kept && e !in fails ==> |kept[e]| < MAX_FAILS
        invariant forall e, f :: e in kept && e !in fails && f in fails && |fails[f]| < MAX_FAILS ==> Last(kept[e]) <= Last(fails[f])
        invariant fails != kept ==> |fails| >= MAX_EMAILS - 1
        decreases |fails|
      {
        var found, oldest := OldestOpen();
        if !found {
          return false;
        }
        fails := fails - {oldest};
      }
      return true;
    }
  }

  // -------- Whole runs --------

  datatype Op = Ask(email: string, now: Time) | Fail(email: string, now: Time)

  ghost predicate Step(m: Fails, op: Op, m': Fails) {
    match op
    case Ask(email, now) => m' == Pruned(m, email, now)
    case Fail(email, now) => Registered(m, m', email, now)
  }

  /** A run of the store from empty, with a clock that never goes back. */
  ghost predicate Run(states: seq<Fails>, ops: seq<Op>) {
    && |states| == |ops| + 1
    && states[0] == map[]
    && (forall i :: 0 <= i < |ops| ==> Step(states[i], ops[i], states[i + 1]))
    && (forall i, j :: 0 <= i <= j < |ops| ==> ops[i].now <= ops[j].now)
  }

  predicate Ordered(ts: seq<Time>) {
    forall i, j :: 0 <= i <= j < |ts| ==> ts[i] <= ts[j]
  }

  /** At least one attempt, in order, none in the future. */
  predicate Entry(ts: seq<Time>, now: Time) {
    ts != [] && Ordered(ts) && Last(ts) <= now
  }

  predicate Tidy(m: Fails, now: Time) {
    forall e :: e in m ==> Entry(m[e], now)
  }

  predicate Good(m: Fails, now: Time) {
    |m| <= MAX_EMAILS && Tidy(m, now)
  }

  /** How many attempts are no longer inside the window. */
  function Stale(ts: seq<Time>, cutoff: Time): (k: nat)
    ensures k <= |ts|
  {
    if ts == [] then 0 else if Last(ts) <= cutoff then |ts| else Stale(ts[..|ts| - 1], cutoff)
  }

  lemma {:induction false} StaleOnes(ts: seq<Time>, cutoff: Time)
    requires Ordered(ts)
    ensures forall i :: 0 <= i < |ts| ==> (ts[i] > cutoff <==> Stale(ts, cutoff) <= i)
  {
    if ts != [] && Last(ts) > cutoff {
      StaleOnes(ts[..|ts| - 1], cutoff);
      assert forall i :: 0 <= i < |ts| - 1 ==> ts[..|ts| - 1][i] == ts[i];
    }
  }

  /** In order, the attempts inside the window are the last ones. */
  lemma {:induction false} RecentIsSuffix(ts: seq<Time>, cutoff: Time)
    requires Ordered(ts)
    ensures Recent(ts, cutoff) == ts[Stale(ts, cutoff)..]
  {
    if ts == [] {
    } else {
      var rest := ts[..|ts| - 1];
      assert Ordered(rest) && (rest != [] ==> Last(rest) <= Last(ts));
      hide Ordered;
      RecentIsSuffix(rest, cutoff);
      if Last(ts) > cutoff {
        assert ts[Stale(rest, cutoff)..] == rest[Stale(rest, cutoff)..] + [Last(ts)];
      }
    }
  }

  /** The fifth most recent attempt. */
  function Fifth(ts: seq<Time>): Time
    requires |ts| >= MAX_FAILS
  {
    ts[|ts| - MAX_FAILS]
  }

  predicate Blocked(m: Fails, email: string, now: Time) {
    |Recent(AttemptsOf(m, email), now - WINDOW)| >= MAX_FAILS
  }

  /** An email is blocked exactly while its fifth most recent attempt is less than a minute old. */
  lemma BlockedIff(m: Fails, email: string, now: Time)
    requires email in m ==> Ordered(m[email])
    ensures Blocked(m, email, now)
            <==> email in m && |m[email]| >= 5 && now - m[email][|m[email]| - 5] < 60 * 1_000_000_000
  {
    RecentIsSuffix(AttemptsOf(m, email), now - WINDOW);
    StaleOnes(AttemptsOf(m, email), now - WINDOW);
  }

  lemma FewerKeys(m: Fails, m': Fails)
    requires m'.Keys <= m.Keys
    ensures |m'| <= |m|
    ensures |m'| == |m| ==> m'.Keys == m.Keys
  {
    SubsetSize(m'.Keys, m.Keys);
  }

  lemma SubsetSize<T>(a: set<T>, b: set<T>)
    requires a <= b
    ensures |a| <= |b| && (|a| == |b| ==> a == b)
  {
    assert b == a + (b - a);
    assert |b| == |a| + |b - a|;
    if |a| == |b| {
      assert b - a == {};
    }
  }

  lemma MadeRoomKeeps(m: Fails, m': Fails, now: Time, ok: bool)
    requires MadeRoom(m, m', now, ok)
    ensures m'.Keys <= m.Keys && |m'| <= |m| && (ok ==> |m'| < MAX_EMAILS)
    ensures forall e :: e in m' ==> m'[e] == m[e]
  {
    if |m| >= MAX_EMAILS {
      assert Unexpired(m, now).Keys <= m.Keys;
      FewerKeys(m, m');
    }
  }

  lemma RecentEntry(ts: seq<Time>, now: Time)
    requires Entry(ts, now) && Recent(ts, now - WINDOW) != []
    ensures Entry(Recent(ts, now - WINDOW), now)
  {
    RecentIsSuffix(ts, now - WINDOW);
    hide Recent;
  }

  lemma PrunedSize(m: Fails, email: string, now: Time)
    ensures |Pruned(m, email, now)| <= |m|
  {
    var recent := Recent(AttemptsOf(m, email), now - WINDOW);
    assert email !in m ==> recent == [];
    hide Recent;
    if recent == [] {
      FewerKeys(m, m - {email});
    } else {
      assert m[email := recent].Keys == m.Keys;
    }
  }

  lemma PrunedGood(m: Fails, email: string, now: Time)
    requires Good(m, now)
    ensures Good(Pruned(m, email, now), now)
  {
    PrunedSize(m, email, now);
    if email in m && Recent(m[email], now - WINDOW) != [] {
      RecentEntry(m[email], now);
    }
    hide Recent, Entry;
  }

  lemma AddedSize(m: Fails, email: string, ts: seq<Time>)
    ensures |m[email := ts]| <= |m| + 1
    ensures email in m ==> |m[email := ts]| == |m|
  {
    if email in m {
      assert m[email := ts].Keys == m.Keys;
    } else {
      assert m[email := ts].Keys == m.Keys + {email};
    }
  }

  lemma AddedTidy(m: Fails, email: string, ts: seq<Time>, now: Time)
    requires Tidy(m, now) && Entry(ts, now)
    ensures Tidy(m[email := ts], now)
  {
    hide Entry;
  }

  lemma RegisteredGood(m: Fails, m': Fails, email: string, now: Time)
    requires Good(m, now) && Registered(m, m', email, now)
    ensures Good(m', now)
  {
    if email in m {
      AddedSize(m, email, m[email] + [now]);
      AddedTidy(m, email, m[email] + [now], now);
    } else {
      var mid, ok :| MadeRoom(m, mid, now, ok) && m' == if ok then mid[email := [now]] else mid;
      MadeRoomKeeps(m, mid, now, ok);
      hide MadeRoom;
      assert Tidy(mid, now) by {
        hide Entry;
      }
      AddedSize(mid, email, [now]);
      AddedTidy(mid, email, [now], now);
    }
  }

  lemma StepGood(m: Fails, op: Op, m': Fails)
    requires Good(m, op.now) && Step(m, op, m')
    ensures Good(m', op.now)
  {
    hide Good, Pruned, Registered;
    match op
    case Ask(email, at) => PrunedGood(m, email, at);
    case Fail(email, at) => RegisteredGood(m, m', email, at);
  }

  lemma GoodLater(m: Fails, then0: Time, now: Time)
    requires Good(m, then0) && then0 <= now
    ensures Good(m, now)
  {
  }

  lemma EmptyGood(now: Time)
    ensures Good(map[], now)
  {
  }

  /** Every state of a run is bounded and in order, seen from any instant after its last operation. */
  lemma {:induction false} AlwaysGood(states: seq<Fails>, ops: seq<Op>, n: nat, now: Time)
    requires Run(states, ops) && n <= |ops| && (n > 0 ==> ops[n - 1].now <= now)
    ensures Good(states[n], now)
  {
    hide Good, Step;
    if n == 0 {
      EmptyGood(now);
    } else {
      var op := ops[n - 1];
      AlwaysGood(states, ops, n - 1, op.now);
      assert Step(states[n - 1], op, states[n]);
      StepGood(states[n - 1], op, states[n]);
      GoodLater(states[n], op.now, now);
    }
  }

  /** The memory never holds more than 10000 emails. */
  lemma MemoryIsBounded(states: seq<Fails>, ops: seq<Op>, n: nat)
    requires Run(states, ops) && n <= |ops|
    ensures |states[n]| <= 10_000
  {
    AlwaysGood(states, ops, n, if n == 0 then ZERO_TIME else ops[n - 1].now);
  }

  /** Five attempts since `since`: the email blocks while that instant is inside the window. */
  predicate HoldsFive(m: Fails, email: string, since: Time) {
    email in m && |m[email]| >= MAX_FAILS && Fifth(m[email]) >= since
  }

  lemma PrunedHolds(m: Fails, other: string, now: Time, email: string, since: Time)
    requires Good(m, now) && HoldsFive(m, email, since) && now - WINDOW < since
    ensures HoldsFive(Pruned(m, other, now), email, since)
  {
    if other == email {
      RecentIsSuffix(m[email], now - WINDOW);
      StaleOnes(m[email], now - WINDOW);
      assert Stale(m[email], now - WINDOW) <= |m[email]| - MAX_FAILS;
      hide Recent, Stale;
    }
  }

  /** No operation on any email, its own or another, loosens a block before its fifth attempt expires. */
  lemma StepHolds(m: Fails, op: Op, m': Fails, email: string, since: Time)
    requires Good(m, op.now) && Step(m, op, m') && HoldsFive(m, email, since) && op.now - WINDOW < since
    ensures HoldsFive(m', email, since)
  {
    match op
    case Ask(other, now) => PrunedHolds(m, other, now, email, since);
    case Fail(other, now) =>
      if other !in m {
        var mid, ok :| MadeRoom(m, mid, now, ok) && m' == if ok then mid[other := [now]] else mid;
        SurvivesRoom(m, mid, now, ok, email, since);
        hide MadeRoom;
      } else if other == email {
        assert m'[email] == m[email] + [now] && Fifth(m'[email]) == m'[email][|m[email]| - MAX_FAILS + 1];
      }
  }

  lemma SurvivesRoom(m: Fails, m': Fails, now: Time, ok: bool, email: string, since: Time)
    requires Good(m, now) && MadeRoom(m, m', now, ok) && HoldsFive(m, email, since) && now - WINDOW < since
    ensures HoldsFive(m', email, since)
  {
    assert Lives(m[email], now);
    if |m| >= MAX_EMAILS {
      assert email in Unexpired(m, now);
    }
  }

  lemma {:induction false} StaysHeld(states: seq<Fails>, ops: seq<Op>, i: nat, j: nat, email: string, since: Time)
    requires Run(states, ops) && i <= j <= |ops|
    requires HoldsFive(states[i], email, since)
    requires forall k :: i <= k < j ==> ops[k].now - WINDOW < since
    ensures HoldsFive(states[j], email, since)
  {
    if i < j {
      StaysHeld(states, ops, i, j - 1, email, since);
      AlwaysGood(states, ops, j - 1, ops[j - 1].now);
      hide Good, HoldsFive;
      StepHolds(states[j - 1], ops[j - 1], states[j], email, since);
    }
  }

  /**
    A blocked email stays blocked until its fifth most recent attempt expires, whatever is asked and whatever fails
    for this or any other email in the meantime.
  */
  lemma BlockedStaysBlocked(states: seq<Fails>, ops: seq<Op>, i: nat, j: nat, email: string, now: Time, later: Time)
    requires Run(states, ops) && i <= j <= |ops|
    requires Blocked(states[i], email, now)
    requires email in states[i] ==> var ts := states[i][email];
               |ts| >= 5 ==> later < ts[|ts| - 5] + 60 * 1_000_000_000
    requires forall k :: i <= k < j ==> ops[k].now <= later
    ensures Blocked(states[j], email, later)
  {
    OrderedAttempts(states, ops, i, email);
    OrderedAttempts(states, ops, j, email);
    BlockedIff(states[i], email, now);
    BlockedIff(states[j], email, later);
    hide Blocked, Good;
    StaysHeld(states, ops, i, j, email, Fifth(states[i][email]));
  }

  lemma OrderedAttempts(states: seq<Fails>, ops: seq<Op>, n: nat, email: string)
    requires Run(states, ops) && n <= |ops|
    ensures Ordered(AttemptsOf(states[n], email))
  {
    AlwaysGood(states, ops, n, if n == 0 then ZERO_TIME else ops[n - 1].now);
  }

  /** A new email is turned away exactly when all 10000 places are taken by emails that block and are recent. */
  lemma RefusesIff(m: Fails, m': Fails, now: Time, ok: bool)
    requires Good(m, now) && MadeRoom(m, m', now, ok)
    ensures !ok <==> |m| == 10_000 && forall e :: e in m ==> |m[e]| >= 5 && now - m[e][|m[e]| - 1] < 60 * 1_000_000_000
    ensures !ok ==> m' == m
  {
    var taken := forall e :: e in m ==> |m[e]| >= MAX_FAILS && Last(m[e]) > now - WINDOW;
    if |m| >= MAX_EMAILS {
      FewerKeys(m, m');
      assert !ok ==> m'.Keys == m.Keys && m' == m;
      assert taken ==> Unexpired(m, now) == m;
      assert taken ==> m'.Keys == m.Keys;
    }
  }

  // -------- Each operation in plain terms --------

  /** No attempt, or none in the last minute. */
  predicate Expired(ts: seq<Time>, now: Time) {
    ts == [] || now - ts[|ts| - 1] >= 60 * 1_000_000_000
  }

  /**
    Room is made only at 10000 emails. Then the expired ones go; and a recent one goes only if it has fewer than five
    attempts, no other such email that stays has an older last attempt, and at least 9999 emails stay.
  */
  lemma RoomIs(m: Fails, m': Fails, now: Time, ok: bool)
    requires MadeRoom(m, m', now, ok)
    ensures m'.Keys <= m.Keys && forall e :: e in m' ==> m'[e] == m[e]
    ensures |m| < 10_000 ==> m' == m && ok
    ensures |m| >= 10_000 ==>
              && (forall e :: e in m && Expired(m[e], now) ==> e !in m')
              && (forall e :: e in m && !Expired(m[e], now) && e !in m' ==>
                    && |m[e]| < 5 && |m'| >= 9_999
                    && forall f :: f in m' && |m[f]| < 5 ==> m[e][|m[e]| - 1] <= m[f][|m[f]| - 1])
  {
    if |m| >= MAX_EMAILS {
      var kept := Unexpired(m, now);
      assert forall e :: e in m ==> (e in kept <==> !Expired(m[e], now));
      assert forall f :: f in m' ==> f in kept && !Expired(m[f], now);
    }
  }

  /** A failed login of a known email adds its instant to that email; of a new one it is kept if there is room. */
  lemma FailIs(m: Fails, m': Fails, email: string, now: Time)
    requires Registered(m, m', email, now)
    ensures forall e :: e in m' && e != email ==> e in m && m'[e] == m[e]
    ensures email in m ==> m'.Keys == m.Keys && m'[email] == m[email] + [now]
    ensures email !in m && email in m' ==> m'[email] == [now]
    ensures email !in m && |m| < 10_000 ==> email in m' && m.Keys <= m'.Keys
  {
    if email !in m {
      var mid, ok :| MadeRoom(m, mid, now, ok) && m' == if ok then mid[email := [now]] else mid;
      RoomIs(m, mid, now, ok);
    }
  }

  /** Asking forgets what is older than a minute, and the email itself when nothing is left; nothing else. */
  lemma AskIs(m: Fails, email: string, now: Time)
    requires email in m ==> Ordered(m[email])
    ensures var m' := Pruned(m, email, now);
            && (forall e :: e != email ==> (e in m' <==> e in m) && (e in m ==> m'[e] == m[e]))
            && (email in m' ==> email in m && 0 < |m'[email]| <= |m[email]|
                                && m'[email] == m[email][|m[email]| - |m'[email]|..])
            && (email in m ==>
                  forall i :: 0 <= i < |m[email]| ==>
                    (now - m[email][i] < 60 * 1_000_000_000
                     <==> email in m' && |m[email]| - |m'[email]| <= i))
  {
    if email in m {
      RecentIsSuffix(m[email], now - WINDOW);
      StaleOnes(m[email], now - WINDOW);
      hide Recent, Stale;
    }
  }
}
