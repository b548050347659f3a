/** Hosts written as numbers, the way inet_addr reads them (internal/notify/addr.go). */
module NumericHosts {
  import opened Base
  import opened Keys
  import opened Numerals

  const BYTE := 0x100
  const WORD := 0x1_0000_0000

  // -------- Text --------

  /** Parts between dots; always at least one. */
  function Split(s: string): (r: seq<string>)
    ensures |r| >= 1
  {
    if s == "" then [""]
    else
      var rest := Split(s[..|s| - 1]);
      var c := s[|s| - 1];
      if c == '.' then rest + [""] else rest[|rest| - 1 := rest[|rest| - 1] + [c]]
  }

  function Dotted(parts: seq<string>): string
    requires parts != []
  {
    if |parts| == 1 then parts[0] else Dotted(parts[..|parts| - 1]) + "." + parts[|parts| - 1]
  }

  /** The last part, longer by some text. */
  function Longer(r: seq<string>, t: string): seq<string>
    requires r != []
  {
    r[..|r| - 1] + [r[|r| - 1] + t]
  }

  lemma SplitSnoc(s: string, c: char)
    ensures Split(s + [c]) == if c == '.' then Split(s) + [""] else Longer(Split(s), [c])
  {
    assert (s + [c])[..|s|] == s;
  }

  lemma LongerTwice(r: seq<string>, t: string, u: string)
    requires r != []
    ensures Longer(Longer(r, t), u) == Longer(r, t + u)
  {
    assert r[|r| - 1] + t + u == r[|r| - 1] + (t + u);
  }

  lemma SplitPlainStep(s: string, t: string, front: string, c: char)
    requires c != '.' && t == s + front && Split(t) == Longer(Split(s), front)
    ensures Split(t + [c]) == Longer(Split(s), front + [c])
  {
    SplitSnoc(t, c);
    LongerTwice(Split(s), front, [c]);
  }

  lemma {:induction false} SplitPlain(s: string, part: string)
    requires Free(part, '.')
    ensures Split(s + part) == Longer(Split(s), part)
  {
    if part == "" {
      LongerNothing(Split(s), part);
      assert s + part == s;
    } else {
      var front, c := part[..|part| - 1], part[|part| - 1];
      hide Split, Longer;
      SplitPlain(s, front);
      SplitPlainStep(s, s + front, front, c);
      assert front + [c] == part;
      assert s + front + [c] == s + part;
    }
  }

  lemma LongerNothing(r: seq<string>, t: string)
    requires r != [] && t == ""
    ensures Longer(r, t) == r
  {
    var last := r[|r| - 1];
    assert last + t == last;
    assert r == r[..|r| - 1] + [last];
  }

  lemma LongerEmpty(r: seq<string>, t: string)
    ensures Longer(r + [""], t) == r + [t]
  {
    assert "" + t == t;
  }

  lemma {:induction false} SplitDotted(parts: seq<string>)
    requires parts != [] && forall i :: 0 <= i < |parts| ==> Free(parts[i], '.')
    ensures Split(Dotted(parts)) == parts
  {
    var front, part := parts[..|parts| - 1], parts[|parts| - 1];
    assert parts == front + [part];
    LongerEmpty(front, part);
    hide Free;
    if front == [] {
      SplitPlain("", part);
      assert "" + part == part && Split("") == front + [""];
    } else {
      SplitDotted(front);
      hide Split, Longer;
      SplitSnoc(Dotted(front), '.');
      SplitPlain(Dotted(front) + ".", part);
    }
  }

  // -------- One part --------

  /** 0x for hexadecimal, a leading 0 for octal, decimal otherwise. */
  function ParseNumericPart(p: string): Option<nat> {
    if p == "" then None
    else if |p| >= 2 && p[0] == '0' && p[1] == 'x' then ParseUint(p[2..], 16)
    else if |p| > 1 && p[0] == '0' then ParseUint(p[1..], 8)
    else ParseUint(p, 10)
  }

  function PartText(v: nat, radix: nat): string
    requires Radix(radix)
  {
    if radix == 16 then "0x" + Render(v, 16) else if radix == 8 then "0" + Render(v, 8) else Render(v, 10)
  }

  lemma PartRoundTrip(v: nat, radix: nat)
    requires Radix(radix) && v < UINT64
    ensures ParseNumericPart(PartText(v, radix)) == Some(v)
    ensures Free(PartText(v, radix), '.')
  {
    var d := Render(v, radix);
    var p := PartText(v, radix);
    DigitsOfRender(v, radix);
    assert forall i :: 0 <= i < |d| ==> LowerDigit(d[i], radix);
    hide Digits, Render;
    if radix == 16 {
      assert p[2..] == d;
    } else if radix == 8 {
      assert p[1..] == d && p[1] == d[0];
    } else {
      TenIsPlain(v);
    }
  }

  /** Decimal text starts with a zero only when it is that zero. */
  lemma TenIsPlain(v: nat)
    ensures var p := Render(v, 10); |p| > 1 ==> p[0] != '0'
  {
    DigitsOfRender(v, 10);
  }

  // -------- The parts together --------

  /** What the first `i` parts are worth: a byte each, from the top. */
  function Weight(i: nat): nat
    requires i < 4
  {
    match i
    case 0 => 0x100_0000
    case 1 => 0x1_0000
    case 2 => 0x100
    case 3 => 1
  }

  function Leading(vs: seq<nat>): nat
    requires |vs| <= 3
  {
    if vs == [] then 0 else Leading(vs[..|vs| - 1]) + vs[|vs| - 1] * Weight(|vs| - 1)
  }

  /** The room the last part has: all that the leading bytes leave. */
  function Room(last: nat): nat
    requires last < 4
  {
    if last == 0 then WORD else Weight(last - 1)
  }

  /** All parts but the last are bytes from the top; the last one fills what is left. */
  function Address(vs: seq<nat>): Option<nat>
    requires 1 <= |vs| <= 4
  {
    var last := |vs| - 1;
    if (forall i :: 0 <= i < last ==> vs[i] < BYTE) && vs[last] < Room(last)
    then Some(Leading(vs[..last]) + vs[last])
    else None
  }

  function Values(ps: seq<string>): Option<seq<nat>> {
    if ps == [] then Some([])
    else
      var rest, v := Values(ps[..|ps| - 1]), ParseNumericPart(ps[|ps| - 1]);
      if rest.Some? && v.Some? then Some(rest.value + [v.value]) else None
  }

  lemma {:induction false} ValuesLength(ps: seq<string>)
    ensures Values(ps).Some? ==> |Values(ps).value| == |ps|
  {
    if ps != [] {
      ValuesLength(ps[..|ps| - 1]);
    }
  }

  function InetAton(host: string): Option<nat> {
    var ps := Split(host);
    if |ps| > 4 then None
    else
      ValuesLength(ps);
      if Values(ps).Some? then Address(Values(ps).value) else None
  }

  // -------- Bits --------

  function Pow2(k: nat): (p: nat)
    ensures p >= 1
  {
    if k == 0 then 1 else 2 * Pow2(k - 1)
  }

  /** `|` on natural numbers. */
  function Or(a: nat, b: nat): nat {
    if a == 0 then b else if b == 0 then a
    else 2 * Or(a / 2, b / 2) + (if a % 2 == 1 || b % 2 == 1 then 1 else 0)
  }

  /** Bits that do not meet add up. */
  lemma {:induction false} OrIsSum(c: nat, b: nat, k: nat)
    requires b < Pow2(k)
    ensures Or(c * Pow2(k), b) == c * Pow2(k) + b
  {
    var a := c * Pow2(k);
    if k > 0 && a != 0 && b != 0 {
      var m := Pow2(k - 1);
      assert a == 2 * (c * m);
      OrIsSum(c, b / 2, k - 1);
    }
  }

  lemma Powers()
    ensures Pow2(8) == 0x100 && Pow2(16) == 0x1_0000 && Pow2(24) == 0x100_0000 && Pow2(32) == WORD
  {
    assert Pow2(4) == 16 && Pow2(8) == 16 * Pow2(4) && Pow2(12) == 16 * Pow2(8) && Pow2(16) == 16 * Pow2(12);
    assert Pow2(20) == 16 * Pow2(16) && Pow2(24) == 16 * Pow2(20) && Pow2(28) == 16 * Pow2(24) && Pow2(32) == 16 * Pow2(28);
  }

  function Top(vs: seq<nat>): nat {
    if vs == [] then 0 else Top(vs[..|vs| - 1]) * BYTE + vs[|vs| - 1]
  }

  /** The leading bytes are a multiple of the weight of the last of them. */
  lemma {:induction false} LeadingIsTop(vs: seq<nat>)
    requires 1 <= |vs| <= 3
    ensures Leading(vs) == Top(vs) * Weight(|vs| - 1)
  {
    var n := |vs| - 1;
    if n == 0 {
      assert Leading(vs[..0]) == 0 && Top(vs[..0]) == 0;
    } else {
      LeadingIsTop(vs[..n]);
      assert Weight(n - 1) == BYTE * Weight(n);
      var t := Top(vs[..n]);
      assert t * (BYTE * Weight(n)) == (t * BYTE) * Weight(n);
      assert (t * BYTE + vs[n]) * Weight(n) == (t * BYTE) * Weight(n) + vs[n] * Weight(n);
    }
  }

  /** Or-ing a value into the room the leading bytes leave is adding it. */
  lemma OrIntoRoom(vs: seq<nat>, b: nat)
    requires |vs| <= 3 && b < Room(|vs|)
    ensures Or(Leading(vs), b) == Leading(vs) + b
  {
    if |vs| > 0 {
      Powers();
      LeadingIsTop(vs);
      OrIsSum(Top(vs), b, 8 * (4 - |vs|));
    }
  }

  /** The first loop of `parseInetAton`: every part is a number, or there is no address. */
  method ParseParts(parts: seq<string>) returns (values: Option<seq<nat>>)
    ensures values == Values(parts)
  {
    hide ParseNumericPart;
    var vs: seq<nat> := [];
    for i := 0 to |parts|
      invariant Values(parts[..i]) == Some(vs)
    {
      assert parts[..i + 1][..i] == parts[..i];
      var v := ParseNumericPart(parts[i]);
      if v.None? {
        NoValues(parts, i);
        return None;
      }
      vs := vs + [v.value];
    }
    assert parts[..|parts|] == parts;
    return Some(vs);
  }

  /** The second loop: the bytes are or-ed together from the top, in a word wide enough never to wrap. */
  method Assemble(values: seq<nat>) returns (addr: Option<nat>)
    requires 1 <= |values| <= 4
    ensures addr == Address(values)
  {
    hide Or, Leading, Weight;
    var last := |values| - 1;
    var word: nat := 0;
    NothingLeads(values[..0]);
    for i := 0 to last
      invariant word == Leading(values[..i])
      invariant forall k :: 0 <= k < i ==> values[k] < BYTE
    {
      if values[i] >= BYTE {
        return None;
      }
      LeadingSnoc(values, i);
      word := Or(word, values[i] * Weight(i));
    }
    if values[last] >= Room(last) {
      return None;
    }
    OrIntoRoom(values[..last], values[last]);
    return Some(Or(word, values[last]));
  }

  lemma NothingLeads(vs: seq<nat>)
    requires vs == []
    ensures Leading(vs) == 0
  {
  }

  lemma LeadingSnoc(vs: seq<nat>, i: nat)
    requires i < |vs| <= 4 && i < 3 && vs[i] < BYTE
    ensures Or(Leading(vs[..i]), vs[i] * Weight(i)) == Leading(vs[..i + 1])
  {
    hide Or;
    assert vs[..i + 1][..i] == vs[..i];
    OrIntoRoom(vs[..i], vs[i] * Weight(i));
  }

  /** `parseInetAton`: split at the dots, read the parts, put the address together. */
  method ParseInetAton(host: string) returns (r: Option<nat>)
    ensures r == InetAton(host)
  {
    hide Split, Values, Address;
    var parts := Split(host);
    if |parts| > 4 {
      return None;
    }
    var values := ParseParts(parts);
    ValuesLength(parts);
    if values.None? {
      return None;
    }
    r := Assemble(values.value);
  }

  lemma {:induction false} NoValues(ps: seq<string>, i: nat)
    requires i < |ps| && ParseNumericPart(ps[i]).None?
    ensures Values(ps).None?
  {
    hide ParseNumericPart;
    if i < |ps| - 1 {
      NoValues(ps[..|ps| - 1], i);
    }
  }

  // -------- Every rendering of every address --------

  /** The i-th value of an address in `n` parts: a byte from the top, or all that is left. */
  function PartOf(addr: nat, n: nat, i: nat): (v: nat)
    requires i < n <= 4
    ensures v < WORD
  {
    if n == 1 then addr % WORD
    else if i == n - 1 then addr % Weight(n - 2)
    else addr / Weight(i) % BYTE
  }

  function PartsOf(addr: nat, n: nat): seq<nat>
    requires 1 <= n <= 4
  {
    seq(n, i requires 0 <= i < n => PartOf(addr, n, i))
  }

  lemma Bytewise(addr: nat)
    requires addr < WORD
    ensures addr == addr / 0x100_0000 % BYTE * 0x100_0000 + addr % 0x100_0000
    ensures addr % 0x100_0000 == addr / 0x1_0000 % BYTE * 0x1_0000 + addr % 0x1_0000
    ensures addr % 0x1_0000 == addr / 0x100 % BYTE * 0x100 + addr % 0x100
  {
  }

  lemma PartsFit(addr: nat, n: nat)
    requires addr < WORD && 1 <= n <= 4
    ensures PartOf(addr, n, n - 1) < Room(n - 1)
    ensures forall i :: 0 <= i < n - 1 ==> PartOf(addr, n, i) == addr / Weight(i) % BYTE < BYTE
  {
  }

  lemma BytesAddUp(addr: nat, n: nat, vs: seq<nat>)
    requires addr < WORD && 1 <= n <= 4 && |vs| == n - 1
    requires forall i :: 0 <= i < n - 1 ==> vs[i] == addr / Weight(i) % BYTE
    ensures Leading(vs) == addr - (if n == 1 then addr else addr % Weight(n - 2))
  {
    Bytewise(addr);
    LeadingOf(vs);
    hide Leading;
  }

  lemma PartsAddUp(addr: nat, n: nat)
    requires addr < WORD && 1 <= n <= 4
    ensures Address(PartsOf(addr, n)) == Some(addr)
  {
    var vs := PartsOf(addr, n);
    PartsFit(addr, n);
    assert PartOf(addr, n, n - 1) == if n == 1 then addr else addr % Weight(n - 2);
    hide PartOf, Leading, Room, Weight;
    BytesAddUp(addr, n, vs[..n - 1]);
  }

  lemma LeadingOf(vs: seq<nat>)
    requires |vs| <= 3
    ensures Leading(vs) == (if |vs| > 0 then vs[0] * 0x100_0000 else 0) + (if |vs| > 1 then vs[1] * 0x1_0000 else 0)
                         + (if |vs| > 2 then vs[2] * 0x100 else 0)
  {
    if |vs| > 0 {
      LeadingOf(vs[..|vs| - 1]);
    }
  }

  function Texts(vs: seq<nat>, radices: seq<nat>): seq<string>
    requires |radices| == |vs| && forall i :: 0 <= i < |radices| ==> Radix(radices[i])
  {
    seq(|vs|, i requires 0 <= i < |vs| => PartText(vs[i], radices[i]))
  }

  lemma {:induction false} ValuesOfTexts(vs: seq<nat>, radices: seq<nat>)
    requires |radices| == |vs| && forall i :: 0 <= i < |radices| ==> Radix(radices[i])
    requires forall i :: 0 <= i < |vs| ==> vs[i] < UINT64
    ensures Values(Texts(vs, radices)) == Some(vs)
    ensures forall i :: 0 <= i < |vs| ==> Free(Texts(vs, radices)[i], '.')
  {
    hide ParseNumericPart, PartText, Free, Radix;
    if vs != [] {
      var n := |vs| - 1;
      ValuesOfTexts(vs[..n], radices[..n]);
      PartRoundTrip(vs[n], radices[n]);
      var ts, before := Texts(vs, radices), Texts(vs[..n], radices[..n]);
      assert ts[..n] == before;
      assert forall i :: 0 <= i < n ==> ts[i] == before[i];
      assert vs == vs[..n] + [vs[n]];
    }
  }

  /** Each of the 32-bit addresses, in one to four parts, each part in any radix, is read as that address. */
  lemma EveryRenderingParses(addr: nat, n: nat, radices: seq<nat>)
    requires addr < WORD && 1 <= n <= 4 && |radices| == n && forall i :: 0 <= i < n ==> Radix(radices[i])
    ensures InetAton(Dotted(Texts(PartsOf(addr, n), radices))) == Some(addr)
  {
    var vs := PartsOf(addr, n);
    var ts := Texts(vs, radices);
    PartsAddUp(addr, n);
    assert forall i :: 0 <= i < n ==> vs[i] < UINT64;
    ValuesOfTexts(vs, radices);
    SplitDotted(ts);
    hide Split, Dotted, Values, Address, PartText;
  }

  // -------- What a host is read as --------

  /** Every host is the parts between its dots. */
  lemma {:induction false} DottedSplit(s: string)
    ensures Dotted(Split(s)) == s
  {
    if s != "" {
      var front, c := s[..|s| - 1], s[|s| - 1];
      DottedSplit(front);
      SplitSnoc(front, c);
      assert s == front + [c];
      hide Split, Dotted;
      if c == '.' {
        DottedNext(Split(front), "");
        assert front + "." + "" == s;
      } else {
        DottedLonger(Split(front), c);
      }
    }
  }

  lemma DottedNext(r: seq<string>, part: string)
    requires r != []
    ensures Dotted(r + [part]) == Dotted(r) + "." + part
  {
    assert (r + [part])[..|r|] == r;
  }

  lemma {:induction false} PartsAreFree(s: string)
    ensures forall i :: 0 <= i < |Split(s)| ==> Free(Split(s)[i], '.')
  {
    if s != "" {
      PartsAreFree(s[..|s| - 1]);
    }
  }

  lemma DottedLonger(r: seq<string>, c: char)
    requires r != []
    ensures Dotted(Longer(r, [c])) == Dotted(r) + [c]
  {
    var n := |r| - 1;
    if n > 0 {
      var front, last := r[..n], r[n];
      assert r == front + [last];
      DottedNext(front, last);
      DottedNext(front, last + [c]);
      hide Dotted;
      assert Dotted(front) + "." + (last + [c]) == Dotted(front) + "." + last + [c];
    }
  }

  /** 0x starts a hexadecimal part, any other leading zero an octal one. */
  lemma PartIs(p: string, d: string)
    ensures p == "0x" + d ==> ParseNumericPart(p) == ParseUint(d, 16)
    ensures p == "0" + d && d != "" && d[0] != 'x' ==> ParseNumericPart(p) == ParseUint(d, 8)
    ensures p == d && d != "" && (d[0] != '0' || d == "0") ==> ParseNumericPart(p) == ParseUint(d, 10)
    ensures p == "" ==> ParseNumericPart(p).None?
  {
    hide ParseUint;
    if p == "0x" + d {
      assert p[2..] == d;
    }
    if p == "0" + d {
      assert p[1..] == d;
    }
  }

  /** A number is one digit or more of its base, and less than two to the 64th. */
  lemma UintIs(d: string, base: nat, v: nat)
    requires Radix(base)
    ensures ParseUint(d, base) == Some(v) <==> d != "" && Digits(d, base) == Some(v) && v < 0x1_0000_0000_0000_0000
  {
  }

  /** The one to four values of an address: bytes from the top, and the last one all that is left. */
  predicate Spells(vs: seq<nat>, addr: nat) {
    || (|vs| == 1 && vs[0] == addr < 0x1_0000_0000)
    || (|vs| == 2 && vs[0] < 256 && vs[1] < 0x100_0000 && addr == vs[0] * 0x100_0000 + vs[1])
    || (|vs| == 3 && vs[0] < 256 && vs[1] < 256 && vs[2] < 0x1_0000
        && addr == vs[0] * 0x100_0000 + vs[1] * 0x1_0000 + vs[2])
    || (|vs| == 4 && vs[0] < 256 && vs[1] < 256 && vs[2] < 256 && vs[3] < 256
        && addr == vs[0] * 0x100_0000 + vs[1] * 0x1_0000 + vs[2] * 0x100 + vs[3])
  }

  lemma AddressIs(vs: seq<nat>, addr: nat)
    requires 1 <= |vs| <= 4
    ensures Address(vs) == Some(addr) <==> Spells(vs, addr)
  {
    var last := |vs| - 1;
    LeadingOf(vs[..last]);
    hide Leading;
  }

  /** The parts are these numbers. */
  predicate ReadAs(ps: seq<string>, vs: seq<nat>) {
    |vs| == |ps| && forall i :: 0 <= i < |ps| ==> ParseNumericPart(ps[i]) == Some(vs[i])
  }

  lemma {:induction false} ValuesAre(ps: seq<string>, vs: seq<nat>)
    ensures Values(ps) == Some(vs) <==> ReadAs(ps, vs)
  {
    hide ParseNumericPart;
    if ps != [] {
      var n := |ps| - 1;
      ValuesLength(ps);
      if |vs| == |ps| {
        ValuesAre(ps[..n], vs[..n]);
        assert forall i :: 0 <= i < n ==> ps[..n][i] == ps[i] && vs[..n][i] == vs[i];
        assert vs == vs[..n] + [vs[n]];
      }
    }
  }

  lemma InetAtonOf(ps: seq<string>)
    requires ps != [] && forall i :: 0 <= i < |ps| ==> Free(ps[i], '.')
    ensures |ps| > 4 ==> InetAton(Dotted(ps)).None?
    ensures |ps| <= 4 ==>
              (Values(ps).Some? ==> |Values(ps).value| == |ps|)
              && InetAton(Dotted(ps)) == if Values(ps).Some? then Address(Values(ps).value) else None
  {
    SplitDotted(ps);
    ValuesLength(ps);
    hide Split, Dotted, Values, Address, Free;
  }

  /** A host is an address exactly when it is one to four numbers between dots that spell it. */
  lemma HostIs(ps: seq<string>, addr: nat)
    requires ps != [] && forall i :: 0 <= i < |ps| ==> Free(ps[i], '.')
    ensures InetAton(Dotted(ps)) == Some(addr) <==> exists vs :: ReadAs(ps, vs) && Spells(vs, addr)
  {
    InetAtonOf(ps);
    hide Free, InetAton, Dotted, Values, Address, Spells;
    if InetAton(Dotted(ps)) == Some(addr) {
      ValuesAre(ps, Values(ps).value);
      AddressIs(Values(ps).value, addr);
    }
    if vs :| ReadAs(ps, vs) && Spells(vs, addr) {
      ValuesAre(ps, vs);
      if |vs| > 4 {
        TooMany(vs, addr);
      } else {
        AddressIs(vs, addr);
      }
    }
  }

  lemma TooMany(vs: seq<nat>, addr: nat)
    requires |vs| > 4
    ensures !Spells(vs, addr)
  {
  }
}
