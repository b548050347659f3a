/** Page cursors: the decimal text of a line index in base64url without padding (internal/store/page.go). */
module Cursors {
  import opened Base
  import opened Numerals

  const INT63: nat := 0x8000_0000_0000_0000

  // -------- base64url, section 5 of RFC 4648, without padding --------

  function Letter(v: nat): char
    requires v < 64
  {
    if v < 26 then 'A' + v as char
    else if v < 52 then 'a' + (v - 26) as char
    else if v < 62 then '0' + (v - 52) as char
    else if v == 62 then '-' else '_'
  }

  function LetterValue(c: char): Option<nat> {
    if 'A' <= c <= 'Z' then Some((c - 'A') as nat)
    else if 'a' <= c <= 'z' then Some((c - 'a') as nat + 26)
    else if '0' <= c <= '9' then Some((c - '0') as nat + 52)
    else if c == '-' then Some(62)
    else if c == '_' then Some(63)
    else None
  }

  /** A string whose characters are bytes. */
  predicate Bytes(s: string) {
    forall i :: 0 <= i < |s| ==> s[i] as int < 256
  }

  /** The four six-bit parts of three bytes. */
  function Part0(a: char): (v: nat)
    requires a as int < 256
    ensures v < 64
  {
    a as int / 4
  }

  function Part1(a: char, b: char): (v: nat)
    requires b as int < 256
    ensures v < 64
  {
    a as int % 4 * 16 + b as int / 16
  }

  function Part2(b: char, c: char): (v: nat)
    requires c as int < 256
    ensures v < 64
  {
    b as int % 16 * 4 + c as int / 64
  }

  function Part3(c: char): (v: nat)
    ensures v < 64
  {
    c as int % 64
  }

  const ZERO := 0 as char

  function Encode64(s: string): string
    requires Bytes(s)
  {
    if |s| == 0 then ""
    else if |s| == 1 then [Letter(Part0(s[0])), Letter(Part1(s[0], ZERO))]
    else if |s| == 2 then [Letter(Part0(s[0])), Letter(Part1(s[0], s[1])), Letter(Part2(s[1], ZERO))]
    else [Letter(Part0(s[0])), Letter(Part1(s[0], s[1])), Letter(Part2(s[1], s[2])), Letter(Part3(s[2]))] + Encode64(s[3..])
  }

  /** Line ends inside the text are skipped. */
  function Unbroken(s: string): string {
    if s == "" then "" else (if s[0] == '\r' || s[0] == '\n' then "" else [s[0]]) + Unbroken(s[1..])
  }

  function Byte(n: nat): char {
    (n % 256) as char
  }

  /** The three bytes of four six-bit parts. */
  function Byte0(p: nat, q: nat): char {
    Byte(p * 4 + q / 16)
  }

  function Byte1(q: nat, r: nat): char {
    Byte(q % 16 * 16 + r / 4)
  }

  function Byte2(r: nat, t: nat): char {
    Byte(r % 4 * 64 + t)
  }

  /** The bits left over in the last letter of a short group are ignored. */
  function Decode64(s: string): Option<string> {
    if |s| == 0 then Some("")
    else if |s| == 1 then None
    else
      var p, q := LetterValue(s[0]), LetterValue(s[1]);
      if p.None? || q.None? then None
      else
        var x := Byte0(p.value, q.value);
        if |s| == 2 then Some([x])
        else
          var r := LetterValue(s[2]);
          if r.None? then None
          else
            var y := Byte1(q.value, r.value);
            if |s| == 3 then Some([x, y])
            else
              var t := LetterValue(s[3]);
              if t.None? then None
              else
                var rest := Decode64(s[4..]);
                if rest.None? then None else Some([x, y, Byte2(r.value, t.value)] + rest.value)
  }

  lemma LetterRoundTrip(v: nat)
    requires v < 64
    ensures LetterValue(Letter(v)) == Some(v) && Letter(v) != '\r' && Letter(v) != '\n'
  {
  }

  lemma GroupRoundTrip(a: char, b: char, c: char)
    requires a as int < 256 && b as int < 256 && c as int < 256
    ensures Byte0(Part0(a), Part1(a, b)) == a
    ensures Byte1(Part1(a, b), Part2(b, c)) == b
    ensures Byte2(Part2(b, c), Part3(c)) == c
  {
    Joined(a as int, b as int, c as int);
  }

  lemma Joined(a: nat, b: nat, c: nat)
    requires a < 256 && b < 256 && c < 256
    ensures a / 4 * 4 + (a % 4 * 16 + b / 16) / 16 == a
    ensures (a % 4 * 16 + b / 16) % 16 * 16 + (b % 16 * 4 + c / 64) / 4 == b
    ensures (b % 16 * 4 + c / 64) % 4 * 64 + c % 64 == c
  {
  }

  /** Four letters are three bytes, and fewer at the end are fewer. */
  lemma DecodeGroup(p: nat, q: nat, r: nat, t: nat, rest: string)
    requires p < 64 && q < 64 && r < 64 && t < 64
    ensures Decode64([Letter(p), Letter(q)]) == Some([Byte0(p, q)])
    ensures Decode64([Letter(p), Letter(q), Letter(r)]) == Some([Byte0(p, q), Byte1(q, r)])
    ensures Decode64(rest).Some? ==>
              Decode64([Letter(p), Letter(q), Letter(r), Letter(t)] + rest)
              == Some([Byte0(p, q), Byte1(q, r), Byte2(r, t)] + Decode64(rest).value)
  {
    LetterRoundTrip(p);
    LetterRoundTrip(q);
    LetterRoundTrip(r);
    LetterRoundTrip(t);
    hide Letter, LetterValue, Byte0, Byte1, Byte2;
    var s := [Letter(p), Letter(q), Letter(r), Letter(t)] + rest;
    assert s[4..] == rest;
  }

  lemma ShortRoundTrip(a: char, b: char)
    requires a as int < 256 && b as int < 256
    ensures Decode64(Encode64([a])) == Some([a]) && Decode64(Encode64([a, b])) == Some([a, b])
  {
    GroupRoundTrip(a, ZERO, ZERO);
    GroupRoundTrip(a, b, ZERO);
    DecodeGroup(Part0(a), Part1(a, ZERO), 0, 0, "");
    DecodeGroup(Part0(a), Part1(a, b), Part2(b, ZERO), 0, "");
    hide Letter, Decode64, Part0, Part1, Part2, Byte0, Byte1;
  }

  lemma LongRoundTrip(a: char, b: char, c: char, rest: string)
    requires a as int < 256 && b as int < 256 && c as int < 256 && Bytes(rest)
    requires Decode64(Encode64(rest)) == Some(rest)
    ensures Decode64(Encode64([a, b, c] + rest)) == Some([a, b, c] + rest)
  {
    var s := [a, b, c] + rest;
    assert s[0] == a && s[1] == b && s[2] == c && s[3..] == rest;
    GroupRoundTrip(a, b, c);
    DecodeGroup(Part0(a), Part1(a, b), Part2(b, c), Part3(c), Encode64(rest));
    hide Letter, Decode64, Part0, Part1, Part2, Part3, Byte0, Byte1, Byte2;
  }

  lemma EmptyRoundTrip()
    ensures Decode64(Encode64("")) == Some("")
  {
  }

  lemma {:induction false} Base64RoundTrip(s: string)
    requires Bytes(s)
    ensures Decode64(Encode64(s)) == Some(s)
  {
    hide Encode64, Decode64;
    if |s| == 0 {
      EmptyRoundTrip();
      assert s == "";
    } else if |s| == 1 {
      ShortRoundTrip(s[0], ZERO);
      assert s == [s[0]];
    } else if |s| == 2 {
      ShortRoundTrip(s[0], s[1]);
      assert s == [s[0], s[1]];
    } else {
      Base64RoundTrip(s[3..]);
      LongRoundTrip(s[0], s[1], s[2], s[3..]);
      assert s == [s[0], s[1], s[2]] + s[3..];
    }
  }

  /** Only letters of the alphabet are written, so none of them is skipped on the way back. */
  lemma {:induction false} Encode64Letters(s: string)
    requires Bytes(s)
    ensures forall i :: 0 <= i < |Encode64(s)| ==> LetterValue(Encode64(s)[i]).Some?
    ensures s != "" ==> Encode64(s) != ""
  {
    if s != "" {
      var a, b, c := s[0], if |s| > 1 then s[1] else ZERO, if |s| > 2 then s[2] else ZERO;
      LetterRoundTrip(Part0(a));
      LetterRoundTrip(Part1(a, b));
      LetterRoundTrip(Part2(b, c));
      LetterRoundTrip(Part3(c));
      hide Letter, LetterValue, Part0, Part1, Part2, Part3;
      if |s| > 2 {
        Encode64Letters(s[3..]);
        assert Encode64(s)[4..] == Encode64(s[3..]);
      }
    }
  }

  lemma {:induction false} UnbrokenKeeps(s: string)
    requires forall i :: 0 <= i < |s| ==> s[i] != '\r' && s[i] != '\n'
    ensures Unbroken(s) == s
  {
    if s != "" {
      UnbrokenKeeps(s[1..]);
    }
  }

  lemma {:induction false} UnbrokenConcat(s: string, t: string)
    ensures Unbroken(s + t) == Unbroken(s) + Unbroken(t)
  {
    hide Unbroken;
    if s == "" {
      UnbrokenStep(s);
      assert s + t == t;
    } else {
      UnbrokenConcat(s[1..], t);
      UnbrokenStep(s);
      UnbrokenStep(s + t);
      assert (s + t)[1..] == s[1..] + t;
    }
  }

  /** Only the ends of lines go. */
  lemma UnbrokenStep(s: string)
    ensures Unbroken("") == ""
    ensures s != "" ==> Unbroken(s) == (if s[0] == '\r' || s[0] == '\n' then "" else [s[0]]) + Unbroken(s[1..])
  {
  }

  // -------- What is written and what is read --------

  const A_TO_Z := "ABCDEFGHIJKLM" + "NOPQRSTUVWXYZ"
  const SMALL_A_TO_Z := "abcdefghijklm" + "nopqrstuvwxyz"
  const ALPHABET := A_TO_Z + SMALL_A_TO_Z + "0123456789-_"

  lemma CapitalsAre(v: nat)
    requires v < 26
    ensures A_TO_Z[v] == 'A' + v as char
  {
    if v < 13 {
      assert A_TO_Z[v] == "ABCDEFGHIJKLM"[v];
    } else {
      assert A_TO_Z[v] == "NOPQRSTUVWXYZ"[v - 13];
    }
  }

  lemma SmallAre(v: nat)
    requires v < 26
    ensures SMALL_A_TO_Z[v] == 'a' + v as char
  {
    if v < 13 {
      assert SMALL_A_TO_Z[v] == "abcdefghijklm"[v];
    } else {
      assert SMALL_A_TO_Z[v] == "nopqrstuvwxyz"[v - 13];
    }
  }

  lemma AlphabetIs(v: nat)
    requires v < 64
    ensures |ALPHABET| == 64
    ensures Letter(v) == ALPHABET[v] && LetterValue(ALPHABET[v]) == Some(v)
  {
    assert |A_TO_Z| == 26 && |SMALL_A_TO_Z| == 26;
    if v < 26 {
      CapitalsAre(v);
    } else if v < 52 {
      SmallAre(v - 26);
    } else {
      assert ALPHABET[v] == "0123456789-_"[v - 52];
    }
  }

  lemma LetterValueIs(c: char)
    requires LetterValue(c).Some?
    ensures LetterValue(c).value < 64 && c == Letter(LetterValue(c).value) == ALPHABET[LetterValue(c).value]
  {
    AlphabetIs(LetterValue(c).value);
  }

  /** Three bytes are one number of 24 bits, written as four letters; one or two at the end as two or three. */
  lemma GroupIsNumber(a: char, b: char, c: char)
    requires a as int < 256 && b as int < 256 && c as int < 256
    ensures Part0(a) * 0x4_0000 + Part1(a, b) * 0x1000 + Part2(b, c) * 64 + Part3(c)
         == a as int * 0x1_0000 + b as int * 0x100 + c as int
    ensures Encode64([a, b, c]) == [ALPHABET[Part0(a)], ALPHABET[Part1(a, b)], ALPHABET[Part2(b, c)], ALPHABET[Part3(c)]]
    ensures Part0(a) * 64 + Part1(a, ZERO) == a as int * 16
    ensures Encode64([a]) == [ALPHABET[Part0(a)], ALPHABET[Part1(a, ZERO)]]
    ensures Part0(a) * 0x1000 + Part1(a, b) * 64 + Part2(b, ZERO) == (a as int * 0x100 + b as int) * 4
    ensures Encode64([a, b]) == [ALPHABET[Part0(a)], ALPHABET[Part1(a, b)], ALPHABET[Part2(b, ZERO)]]
  {
    AlphabetIs(Part0(a));
    AlphabetIs(Part1(a, b));
    AlphabetIs(Part1(a, ZERO));
    AlphabetIs(Part2(b, c));
    AlphabetIs(Part2(b, ZERO));
    AlphabetIs(Part3(c));
    hide Letter;
    assert [a, b, c][3..] == "";
  }

  lemma EncodeStep(s: string)
    requires Bytes(s) && |s| >= 3
    ensures Encode64(s) == Encode64(s[..3]) + Encode64(s[3..])
  {
    hide Letter, Part0, Part1, Part2, Part3;
    assert s[..3][3..] == "";
  }

  /** Groups of three bytes are written one after the other. */
  lemma {:induction false} EncodeConcat(s: string, t: string)
    requires Bytes(s) && Bytes(t) && |s| % 3 == 0
    ensures Bytes(s + t) && Encode64(s + t) == Encode64(s) + Encode64(t)
  {
    hide Encode64;
    if s == "" {
      EmptyEncoded();
      assert s + t == t;
    } else {
      assert (s + t)[..3] == s[..3] && (s + t)[3..] == s[3..] + t;
      EncodeStep(s);
      EncodeStep(s + t);
      EncodeConcat(s[3..], t);
    }
  }

  lemma EmptyEncoded()
    ensures Encode64("") == ""
  {
  }

  predicate Readable(s: string) {
    forall i :: 0 <= i < |s| ==> LetterValue(s[i]).Some?
  }

  lemma ReadableFrom(s: string)
    requires |s| >= 4
    ensures Readable(s) <==> Readable(s[..4]) && Readable(s[4..])
  {
    hide LetterValue;
    assert forall i :: 4 <= i < |s| ==> s[i] == s[4..][i - 4];
    assert forall i :: 0 <= i < 4 ==> s[i] == s[..4][i];
  }

  lemma ReadableShort(s: string)
    requires |s| <= 4
    ensures Readable(s)
            <==> (|s| > 0 ==> LetterValue(s[0]).Some?) && (|s| > 1 ==> LetterValue(s[1]).Some?)
                 && (|s| > 2 ==> LetterValue(s[2]).Some?) && (|s| > 3 ==> LetterValue(s[3]).Some?)
  {
    hide LetterValue;
  }

  /** A text is read exactly when its last group has more than one letter and all are of the alphabet. */
  lemma {:induction false} DecodesIff(s: string)
    ensures Decode64(s).Some? <==> |s| % 4 != 1 && Readable(s)
  {
    hide LetterValue, Readable, Decode64;
    if |s| >= 4 {
      ReadableFrom(s);
      ReadableShort(s[..4]);
      DecodeStep(s);
      DecodesIff(s[4..]);
      assert |s| % 4 == |s[4..]| % 4;
    } else {
      ReadableShort(s);
      DecodeShort(s);
    }
  }

  lemma DecodeStep(s: string)
    requires |s| >= 4
    ensures Decode64(s).Some?
            <==> LetterValue(s[0]).Some? && LetterValue(s[1]).Some? && LetterValue(s[2]).Some? && LetterValue(s[3]).Some?
                 && Decode64(s[4..]).Some?
  {
    hide LetterValue, Byte0, Byte1, Byte2;
  }

  lemma DecodeShort(s: string)
    requires |s| < 4
    ensures Decode64(s).Some?
            <==> |s| != 1 && (|s| > 1 ==> LetterValue(s[0]).Some? && LetterValue(s[1]).Some?)
                 && (|s| > 2 ==> LetterValue(s[2]).Some?)
  {
    hide LetterValue, Byte0, Byte1, Byte2;
  }

  lemma ReadableIff(s: string)
    ensures Readable(s) <==> forall i :: 0 <= i < |s| ==> s[i] in ALPHABET
  {
    forall i | 0 <= i < |s| ensures s[i] in ALPHABET <==> LetterValue(s[i]).Some? {
      InAlphabet(s[i]);
    }
    hide LetterValue;
  }

  lemma InAlphabet(c: char)
    ensures c in ALPHABET <==> LetterValue(c).Some?
  {
    AlphabetIs(0);
    if LetterValue(c).Some? {
      LetterValueIs(c);
    }
    if c in ALPHABET {
      var v :| 0 <= v < |ALPHABET| && ALPHABET[v] == c;
      AlphabetIs(v);
    }
  }

  // -------- strconv.Atoi --------

  /** Decimal digits after an optional sign, within 64 bits. */
  function Atoi(s: string): Option<int> {
    if s == "" then None
    else
      var signed := s[0] == '-' || s[0] == '+';
      var digits := if signed then s[1..] else s;
      if digits == "" then None
      else
        var v := Digits(digits, 10);
        if v.None? then None
        else
          var n: int := v.value;
          if s[0] == '-' then (if n <= INT63 then Some(-n) else None)
          else if n < INT63 then Some(n) else None
  }

  /** What `Atoi` reads: the number of the digits, with its sign, when it fits 64 bits. */
  lemma AtoiIs(d: string, n: nat)
    requires d != "" && Digits(d, 10) == Some(n)
    ensures Atoi(d) == Atoi("+" + d) == if n < 0x8000_0000_0000_0000 then Some(n) else None
    ensures Atoi("-" + d).Some? <==> n <= 0x8000_0000_0000_0000
    ensures Atoi("-" + d).Some? ==> Atoi("-" + d).value + n == 0
  {
    DigitsIff(d, 10);
    assert DigitValue(d[0]).Some?;
    assert ("+" + d)[1..] == d && ("-" + d)[1..] == d;
    hide Digits;
  }

  /** Nothing else is a number. */
  lemma AtoiOnly(s: string)
    requires Atoi(s).Some?
    ensures s != "" && exists d :: d != "" && Digits(d, 10).Some? && (s == d || s == "+" + d || s == "-" + d)
  {
    hide Digits;
    var d := if s[0] == '-' || s[0] == '+' then s[1..] else s;
    assert s == d || s == [s[0]] + d;
  }

  // -------- Cursors --------

  function EncodeCursor(index: int): string {
    if index < 0 then "" else ItoaIsBytes(index); Encode64(Itoa(index))
  }

  function DecodeCursor(cursor: string): Option<nat> {
    var raw := Decode64(Unbroken(cursor));
    if raw.None? then None
    else
      var n := Atoi(raw.value);
      if n.None? || n.value < 0 then None else Some(n.value)
  }

  /** A cursor is read exactly when it is the text of a number that is not negative. */
  lemma CursorReads(cursor: string, text: string, n: int)
    requires Decode64(Unbroken(cursor)) == Some(text) && Atoi(text) == Some(n)
    ensures n >= 0 ==> DecodeCursor(cursor) == Some(n)
    ensures n < 0 ==> DecodeCursor(cursor).None?
  {
    hide Decode64, Atoi;
  }

  lemma NotACursor(cursor: string)
    requires var raw := Decode64(Unbroken(cursor)); raw.None? || Atoi(raw.value).None?
    ensures DecodeCursor(cursor).None?
  {
    hide Decode64, Atoi;
  }

  lemma ItoaIsBytes(n: nat)
    ensures Bytes(Itoa(n))
  {
    DigitsOfRender(n, 10);
    var s := Itoa(n);
    assert forall i :: 0 <= i < |s| ==> LowerDigit(s[i], 10);
  }

  lemma AtoiOfItoa(n: nat)
    requires n < INT63
    ensures Atoi(Itoa(n)) == Some(n)
  {
    DigitsOfRender(n, 10);
    assert LowerDigit(Itoa(n)[0], 10);
  }

  /** Every index a file can have survives the trip through its cursor, and no such cursor is the empty one. */
  lemma CursorRoundTrip(index: nat)
    requires index < INT63
    ensures DecodeCursor(EncodeCursor(index)) == Some(index) && EncodeCursor(index) != ""
    ensures Decode64(EncodeCursor(index)) == Some(Itoa(index))
  {
    ItoaIsBytes(index);
    Base64RoundTrip(Itoa(index));
    Encode64Letters(Itoa(index));
    var cursor := EncodeCursor(index);
    assert forall i :: 0 <= i < |cursor| ==> LetterValue(cursor[i]).Some?;
    UnbrokenKeeps(cursor);
    AtoiOfItoa(index);
  }
}
