/** Pages of an append-only log, newest first, and the walk through them while the log grows (internal/store). */
module Pages {
  import opened Base
  import opened Cursors

  const MAX_PAGE := 500
  const DEFAULT_PAGE := 100

  datatype Page<T> = Page(items: seq<T>, next: string) | BadCursor

  function NormalizeLimit(limit: int): (n: nat)
    ensures 1 <= n <= MAX_PAGE
    ensures 1 <= limit <= MAX_PAGE ==> n == limit
  {
    if limit <= 0 then DEFAULT_PAGE else if limit > MAX_PAGE then MAX_PAGE else limit
  }

  function Reversed<T>(s: seq<T>): (r: seq<T>)
    ensures |r| == |s|
  {
    if s == [] then [] else [s[|s| - 1]] + Reversed(s[..|s| - 1])
  }

  /** The lines of a file that hold anything. */
  function NonEmpty(lines: seq<string>): seq<string> {
    if lines == [] then []
    else
      var rest, l := NonEmpty(lines[..|lines| - 1]), lines[|lines| - 1];
      if l == "" then rest else rest + [l]
  }

  /** A line that holds something is kept where it stands, a blank one leaves nothing. */
  lemma {:induction false} NonEmptyConcat(a: seq<string>, b: seq<string>)
    ensures NonEmpty(a + b) == NonEmpty(a) + NonEmpty(b)
  {
    if b == [] {
      assert a + b == a;
    } else {
      NonEmptyConcat(a, b[..|b| - 1]);
      assert (a + b)[..|a + b| - 1] == a + b[..|b| - 1];
    }
  }

  lemma NonEmptySingle(l: string)
    ensures NonEmpty([l]) == if l == "" then [] else [l]
  {
    assert [l][..0] == [];
  }

  function Tail<T>(s: seq<T>, limit: int): seq<T> {
    if 0 < limit < |s| then s[|s| - limit..] else s
  }

  /** `ReadJSONL`: the last `limit` lines in file order, all of them when the limit is not positive. */
  method ReadJSONL(lines: seq<string>, limit: int) returns (out: seq<string>)
    ensures out == Tail(NonEmpty(lines), limit)
    ensures var all := NonEmpty(lines);
            && |out| == (if limit <= 0 || |all| <= limit then |all| else limit)
            && forall i :: 0 <= i < |out| ==> out[i] == all[|all| - |out| + i]
  {
    out := [];
    for i := 0 to |lines|
      invariant out == NonEmpty(lines[..i])
    {
      assert lines[..i + 1][..i] == lines[..i];
      if |lines[i]| == 0 {
        continue;
      }
      out := out + [lines[i]];
    }
    assert lines[..|lines|] == lines;
    if limit > 0 && |out| > limit {
      out := out[|out| - limit..];
    }
  }

  // -------- One page --------

  /** The index a page starts from, going back: the end of the file or the cursor, whichever comes first. */
  function StartOf(n: nat, cursor: string): Option<int> {
    if cursor == "" then Some(n - 1)
    else
      var i := DecodeCursor(cursor);
      if i.None? then None else Some(if i.value < n - 1 then i.value else n - 1)
  }

  /** How many of the lines up to `end` a page takes. */
  function Take(end: int, limit: int): (k: nat)
    requires end >= -1
    ensures k <= end + 1 && (end >= 0 ==> k >= 1)
  {
    var n := NormalizeLimit(limit);
    if end + 1 < n then end + 1 else n
  }

  function PageOf<T>(raws: seq<T>, limit: int, cursor: string): Page<T> {
    var end := StartOf(|raws|, cursor);
    if end.None? then BadCursor
    else
      var k := Take(end.value, limit);
      var e := end.value + 1;
      Page(Reversed(raws[e - k..e]), EncodeCursor(e - k - 1))
  }

  lemma {:induction false} ReversedAt<T>(s: seq<T>, i: nat)
    requires i < |s|
    ensures Reversed(s)[i] == s[|s| - 1 - i]
  {
    if i > 0 {
      ReversedAt(s[..|s| - 1], i - 1);
    }
  }

  /** As many lines as a client asks for: 100 when it does not say, 500 at most. */
  predicate Asks(limit: int, n: nat) {
    if limit <= 0 then n == 100 else if limit >= 500 then n == 500 else n == limit
  }

  /** Without a cursor a page reads the whole file, with one the lines up to it; with a bad one nothing. */
  predicate Reads(n: nat, cursor: string, lines: nat) {
    if cursor == "" then lines == n
    else
      var at := DecodeCursor(cursor);
      at.Some? && lines == if at.value < n then at.value + 1 else n
  }

  lemma BadCursorIff<T>(raws: seq<T>, limit: int, cursor: string)
    ensures PageOf(raws, limit, cursor).BadCursor? <==> cursor != "" && DecodeCursor(cursor).None?
    ensures PageOf(raws, limit, cursor).Page? <==> exists lines :: Reads(|raws|, cursor, lines)
  {
    hide Reversed, EncodeCursor, DecodeCursor, Take;
    if cursor == "" {
      assert Reads(|raws|, cursor, |raws|);
    } else if DecodeCursor(cursor).Some? {
      var at := DecodeCursor(cursor).value;
      assert Reads(|raws|, cursor, if at < |raws| then at + 1 else |raws|);
    }
  }

  /** A page holds the last of the lines it reads, going back, as many as were asked for while there are any. */
  lemma PageIs<T>(raws: seq<T>, limit: int, n: nat, cursor: string, lines: nat)
    requires Asks(limit, n) && Reads(|raws|, cursor, lines)
    ensures var p := PageOf(raws, limit, cursor);
            && p.Page? && lines <= |raws| && |p.items| == (if lines < n then lines else n)
            && (forall i :: 0 <= i < |p.items| ==> p.items[i] == raws[lines - 1 - i])
  {
    PageShape(raws, limit, n, cursor, lines);
    hide PageOf, Asks, Reads, Reversed, EncodeCursor;
    ItemsAre(raws, if lines < n then 0 else lines - n, lines);
  }

  /** The cursor from which so many lines are left: that of the last of them, or empty. */
  predicate Leaves(cursor: string, left: nat) {
    if left == 0 then cursor == "" else cursor != "" && DecodeCursor(cursor) == Some(left - 1)
  }

  /** The next cursor leaves the lines before those of the page. */
  lemma NextIs<T>(raws: seq<T>, limit: int, n: nat, cursor: string, lines: nat)
    requires Asks(limit, n) && Reads(|raws|, cursor, lines) && |raws| <= INT63
    ensures var p := PageOf(raws, limit, cursor);
            p.Page? && Leaves(p.next, if lines < n then 0 else lines - n)
  {
    NextShape(raws, limit, n, cursor, lines);
    hide PageOf, Asks, Reads, EncodeCursor, DecodeCursor, Leaves;
    CursorLeaves(if lines < n then 0 else lines - n);
  }

  lemma PageShape<T>(raws: seq<T>, limit: int, n: nat, cursor: string, lines: nat)
    requires Asks(limit, n) && Reads(|raws|, cursor, lines)
    ensures lines <= |raws|
    ensures var k := if lines < n then lines else n;
            PageOf(raws, limit, cursor) == Page(Reversed(raws[lines - k..lines]), EncodeCursor(lines - k - 1))
  {
    hide Reversed, EncodeCursor, DecodeCursor, StartOf, Take, Asks, Reads;
    StartIs(|raws|, limit, n, cursor, lines);
  }

  lemma NextShape<T>(raws: seq<T>, limit: int, n: nat, cursor: string, lines: nat)
    requires Asks(limit, n) && Reads(|raws|, cursor, lines)
    ensures lines <= |raws|
    ensures var p := PageOf(raws, limit, cursor);
            p.Page? && p.next == EncodeCursor((if lines < n then 0 else lines - n) - 1)
  {
    PageShape(raws, limit, n, cursor, lines);
    hide PageOf, Asks, Reads, Reversed, EncodeCursor;
  }

  lemma CursorLeaves(left: nat)
    requires left <= INT63
    ensures Leaves(EncodeCursor(left - 1), left)
  {
    hide EncodeCursor, DecodeCursor;
    if left > 0 {
      CursorRoundTrip(left - 1);
    } else {
      NoCursorLeft();
    }
  }

  lemma ItemsAre<T>(raws: seq<T>, from: nat, to: nat)
    requires from <= to <= |raws|
    ensures forall i :: 0 <= i < to - from ==> Reversed(raws[from..to])[i] == raws[to - 1 - i]
  {
    forall i | 0 <= i < to - from ensures Reversed(raws[from..to])[i] == raws[to - 1 - i] {
      ReversedAt(raws[from..to], i);
    }
  }

  lemma StartIs(size: nat, limit: int, n: nat, cursor: string, lines: nat)
    requires Asks(limit, n) && Reads(size, cursor, lines)
    ensures lines <= size && StartOf(size, cursor) == Some(lines - 1)
    ensures Take(lines - 1, limit) == if lines < n then lines else n
  {
    hide DecodeCursor;
  }

  /** The lines from `end` back to `start`, one by one. */
  method Backwards<T>(raws: seq<T>, start: nat, end: int) returns (out: seq<T>)
    requires start <= end + 1 <= |raws|
    ensures out == Reversed(raws[start..end + 1])
  {
    out := [];
    var i := end;
    assert raws[end + 1..end + 1] == [];
    while i >= start
      invariant start - 1 <= i <= end
      invariant out == Reversed(raws[i + 1..end + 1])
    {
      PrependOldest(raws[i + 1..end + 1], raws[i]);
      assert [raws[i]] + raws[i + 1..end + 1] == raws[i..end + 1];
      out := out + [raws[i]];
      i := i - 1;
    }
  }

  method PageJSONL<T>(raws: seq<T>, limit: int, cursor: string) returns (p: Page<T>)
    ensures p == PageOf(raws, limit, cursor)
  {
    hide Reversed, EncodeCursor, DecodeCursor, PageOf, Take, NormalizeLimit;
    var end := |raws| - 1;
    if cursor != "" {
      var index := DecodeCursor(cursor);
      if index.None? {
        PageIsBad(raws, limit, cursor);
        return BadCursor;
      }
      if index.value < end {
        end := index.value;
      }
    }
    assert StartOf(|raws|, cursor) == Some(end) && -1 <= end < |raws|;
    hide StartOf;
    PageFrom(raws, limit, cursor, end);
    if end < 0 {
      NoCursorLeft();
      return Page([], "");
    }
    var start := end - NormalizeLimit(limit) + 1;
    if start < 0 {
      start := 0;
    }
    var out := Backwards(raws, start, end);
    return Page(out, EncodeCursor(start - 1));
  }

  lemma PageIsBad<T>(raws: seq<T>, limit: int, cursor: string)
    requires cursor != "" && DecodeCursor(cursor).None?
    ensures PageOf(raws, limit, cursor) == BadCursor
  {
    hide DecodeCursor, EncodeCursor, Reversed, Take;
  }

  lemma StartFrom(end: nat, limit: int)
    ensures var start := if end - NormalizeLimit(limit) + 1 < 0 then 0 else end - NormalizeLimit(limit) + 1;
            Take(end, limit) == end + 1 - start
  {
  }

  lemma NothingTaken(limit: int)
    ensures Take(-1, limit) == 0
  {
  }

  lemma PageFrom<T>(raws: seq<T>, limit: int, cursor: string, end: int)
    requires StartOf(|raws|, cursor) == Some(end) && -1 <= end < |raws|
    ensures end < 0 ==> PageOf(raws, limit, cursor) == Page([], EncodeCursor(-1))
    ensures end >= 0 ==>
              var start := if end - NormalizeLimit(limit) + 1 < 0 then 0 else end - NormalizeLimit(limit) + 1;
              PageOf(raws, limit, cursor) == Page(Reversed(raws[start..end + 1]), EncodeCursor(start - 1))
  {
    hide Reversed, EncodeCursor, StartOf, NormalizeLimit, Take;
    if end < 0 {
      NothingTaken(limit);
      EmptyReversed(raws[0..0]);
    } else {
      StartFrom(end, limit);
    }
  }

  lemma {:induction false} PrependOldest<T>(s: seq<T>, x: T)
    ensures Reversed([x] + s) == Reversed(s) + [x]
  {
    if s == [] {
      assert [x] + s == [x];
    } else {
      PrependOldest(s[..|s| - 1], x);
      assert ([x] + s)[..|s|] == [x] + s[..|s| - 1];
    }
  }

  lemma {:induction false} ReversedConcat<T>(a: seq<T>, b: seq<T>)
    ensures Reversed(a + b) == Reversed(b) + Reversed(a)
  {
    if b == [] {
      assert a + b == a;
    } else {
      ReversedConcat(a, b[..|b| - 1]);
      assert (a + b)[..|a + b| - 1] == a + b[..|b| - 1];
    }
  }

  // -------- A walk --------

  /** Each request sees the log as it is then: some later lines may have been added since the one before. */
  predicate Growing<T(==)>(logs: seq<seq<T>>) {
    forall i :: 0 <= i < |logs| - 1 ==> logs[i] <= logs[i + 1]
  }

  /** What the pages of a walk hold together, and whether it has come to its end. */
  datatype Walk<T> = Walk(items: seq<T>, done: bool)

  function Follow<T>(logs: seq<seq<T>>, limits: seq<int>, cursor: string): Walk<T>
    requires |logs| == |limits|
  {
    if logs == [] then Walk([], false)
    else
      var p := PageOf(logs[0], limits[0], cursor);
      if p.BadCursor? then Walk([], true)
      else if p.next == "" then Walk(p.items, true)
      else
        var rest := Follow(logs[1..], limits[1..], p.next);
        Walk(p.items + rest.items, rest.done)
  }

  lemma PrefixCut<T>(a: seq<T>, b: seq<T>, k: nat)
    requires a <= b && k <= |a|
    ensures a[..k] == b[..k]
  {
  }

  lemma StartOfCursor(n: nat, cursor: string, end: nat)
    requires end < n <= INT63
    requires cursor == EncodeCursor(end) || (cursor == "" && end == n - 1)
    ensures StartOf(n, cursor) == Some(end)
  {
    CursorRoundTrip(end);
  }

  /** One page of a walk that has lines 0..end still to come. */
  lemma PageStep<T>(raws: seq<T>, limit: int, cursor: string, end: nat)
    requires end < |raws| <= INT63
    requires cursor == EncodeCursor(end) || (cursor == "" && end == |raws| - 1)
    ensures var k := Take(end, limit);
            var p := PageOf(raws, limit, cursor);
            && p == Page(Reversed(raws[end + 1 - k..end + 1]), EncodeCursor(end - k))
            && (p.next == "" <==> k == end + 1)
  {
    hide EncodeCursor, Reversed, Take, StartOf;
    StartOfCursor(|raws|, cursor, end);
    LastPage(end, Take(end, limit));
  }

  /** The next cursor is empty exactly when no line is left. */
  lemma LastPage(end: nat, k: nat)
    requires k <= end + 1 && end < INT63
    ensures EncodeCursor(end - k) == "" <==> k == end + 1
  {
    if k <= end {
      CursorRoundTrip(end - k);
    } else {
      NoCursorLeft();
    }
  }

  lemma NoCursorLeft()
    ensures EncodeCursor(-1) == ""
  {
  }

  lemma {:induction false} FollowFrom<T>(logs: seq<seq<T>>, limits: seq<int>, cursor: string, end: nat)
    requires logs != [] && |logs| == |limits| && Growing(logs)
    requires end < |logs[0]| && forall i :: 0 <= i < |logs| ==> |logs[i]| <= INT63
    requires cursor == EncodeCursor(end) || (cursor == "" && end == |logs[0]| - 1)
    ensures Follow(logs, limits, cursor).items <= Reversed(logs[0][..end + 1])
    ensures Follow(logs, limits, cursor).done ==> Follow(logs, limits, cursor).items == Reversed(logs[0][..end + 1])
    ensures |logs| > end ==> Follow(logs, limits, cursor).done
    decreases |logs|
  {
    hide EncodeCursor, PageOf, Reversed, Take;
    PageStep(logs[0], limits[0], cursor, end);
    var k := Take(end, limits[0]);
    var newer, older := logs[0][end + 1 - k..end + 1], logs[0][..end + 1 - k];
    assert logs[0][..end + 1] == older + newer;
    ReversedConcat(older, newer);
    if k == end + 1 {
      EmptyReversed(older);
    } else if |logs| > 1 {
      assert logs[0] <= logs[1];
      assert forall i :: 0 <= i < |logs| - 2 ==> logs[1..][i] <= logs[1..][i + 1];
      FollowFrom(logs[1..], limits[1..], EncodeCursor(end - k), end - k);
      PrefixCut(logs[0], logs[1], end + 1 - k);
    }
  }

  lemma EmptyReversed<T>(s: seq<T>)
    requires |s| == 0
    ensures Reversed(s) == []
  {
  }

  /**
    Whatever is appended meanwhile and whatever the limits, a walk from the empty cursor yields a beginning of the
    lines present at the first request, newest first; when it is done it has yielded them all, each once; and it
    is done after at most as many requests as there were lines.
  */
  lemma WalkIsLossless<T>(logs: seq<seq<T>>, limits: seq<int>)
    requires logs != [] && |logs| == |limits| && Growing(logs)
    requires forall i :: 0 <= i < |logs| ==> |logs[i]| <= INT63
    ensures var w := Follow(logs, limits, "");
            && w.items <= Reversed(logs[0])
            && (w.done ==> w.items == Reversed(logs[0]))
            && (|logs| >= |logs[0]| ==> w.done)
  {
    if logs[0] == [] {
      assert logs[0][0..0] == [] && Take(-1, limits[0]) == 0;
    } else {
      FollowFrom(logs, limits, "", |logs[0]| - 1);
      assert logs[0][..|logs[0]|] == logs[0];
    }
  }

  // -------- Lines that do not decode --------

  /** `decodeLines`: what does not decode is left out. */
  function Decoded<T, U>(raws: seq<T>, decode: T -> Option<U>): seq<U> {
    if raws == [] then []
    else
      var rest, v := Decoded(raws[..|raws| - 1], decode), decode(raws[|raws| - 1]);
      if v.Some? then rest + [v.value] else rest
  }

  method DecodeLines<T, U>(raws: seq<T>, decode: T -> Option<U>) returns (out: seq<U>)
    ensures out == Decoded(raws, decode)
  {
    out := [];
    for i := 0 to |raws|
      invariant out == Decoded(raws[..i], decode)
    {
      assert raws[..i + 1][..i] == raws[..i];
      var v := decode(raws[i]);
      if v.None? {
        continue;
      }
      out := out + [v.value];
    }
    assert raws[..|raws|] == raws;
  }

  lemma {:induction false} DecodedConcat<T, U>(a: seq<T>, b: seq<T>, decode: T -> Option<U>)
    ensures Decoded(a + b, decode) == Decoded(a, decode) + Decoded(b, decode)
  {
    if b == [] {
      assert a + b == a;
    } else {
      DecodedConcat(a, b[..|b| - 1], decode);
      assert (a + b)[..|a + b| - 1] == a + b[..|b| - 1];
    }
  }

  lemma {:induction false} DecodedReversed<T, U>(s: seq<T>, decode: T -> Option<U>)
    ensures Decoded(Reversed(s), decode) == Reversed(Decoded(s, decode))
  {
    if s != [] {
      var rest, x := s[..|s| - 1], s[|s| - 1];
      DecodedReversed(rest, decode);
      DecodedConcat([x], Reversed(rest), decode);
      assert [x][..0] == [];
      if decode(x).Some? {
        assert (Decoded(rest, decode) + [decode(x).value])[..|Decoded(rest, decode)|] == Decoded(rest, decode);
      }
    }
  }

  /** What a client collects that walks decoded pages. */
  function FollowDecoded<T, U>(logs: seq<seq<T>>, limits: seq<int>, cursor: string, decode: T -> Option<U>): Walk<U>
    requires |logs| == |limits|
  {
    if logs == [] then Walk([], false)
    else
      var p := PageOf(logs[0], limits[0], cursor);
      if p.BadCursor? then Walk([], true)
      else if p.next == "" then Walk(Decoded(p.items, decode), true)
      else
        var rest := FollowDecoded(logs[1..], limits[1..], p.next, decode);
        Walk(Decoded(p.items, decode) + rest.items, rest.done)
  }

  /** Leaving lines out page by page is leaving them out of the whole walk. */
  lemma {:induction false} SkippingCommutes<T, U>(logs: seq<seq<T>>, limits: seq<int>, cursor: string, decode: T -> Option<U>)
    requires |logs| == |limits|
    ensures var w, d := Follow(logs, limits, cursor), FollowDecoded(logs, limits, cursor, decode);
            d.items == Decoded(w.items, decode) && d.done == w.done
  {
    hide PageOf;
    if logs != [] {
      var p := PageOf(logs[0], limits[0], cursor);
      if p.Page? && p.next != "" {
        SkippingCommutes(logs[1..], limits[1..], p.next, decode);
        DecodedConcat(p.items, Follow(logs[1..], limits[1..], p.next).items, decode);
      }
    }
  }

  /** A finished walk of decoded pages is the readable lines of the log at its first request, newest first. */
  lemma DecodedWalkIsLossless<T, U>(logs: seq<seq<T>>, limits: seq<int>, decode: T -> Option<U>)
    requires logs != [] && |logs| == |limits| && Growing(logs) && |logs| >= |logs[0]|
    requires forall i :: 0 <= i < |logs| ==> |logs[i]| <= INT63
    ensures FollowDecoded(logs, limits, "", decode) == Walk(Reversed(Decoded(logs[0], decode)), true)
  {
    WalkIsLossless(logs, limits);
    SkippingCommutes(logs, limits, "", decode);
    DecodedReversed(logs[0], decode);
  }
}
