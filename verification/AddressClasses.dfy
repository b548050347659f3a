/** Which addresses a delivery may reach, whatever IPv6 dress an IPv4 address wears (internal/notify/addr.go). */
module AddressClasses {
  import opened Base
  import opened Numerals
  import opened NumericHosts

  type Octet = n: nat | n < 256

  /** Any sequence of bytes; an address has 4 or 16 of them. */
  type IP = seq<Octet>

  datatype Net = Net(addr: IP, bits: nat)

  // -------- net.IP --------

  const ZEROS10: IP := [0, 0, 0, 0, 0, 0, 0, 0, 0, 0]

  /** The four bytes of an IPv4 address, written in four bytes or mapped into sixteen. */
  function To4(ip: IP): Option<IP> {
    if |ip| == 4 then Some(ip)
    else if |ip| == 16 && ip[..10] == ZEROS10 && ip[10] == 255 && ip[11] == 255 then Some(ip[12..])
    else None
  }

  /** The leading bits are those of the net, byte by byte and then within the next byte. */
  predicate SameBits(a: IP, b: IP, bits: nat)
    requires |a| == |b| && bits <= 8 * |a|
  {
    var k := bits / 8;
    a[..k] == b[..k] && (bits % 8 != 0 ==> a[k] / Shift(bits % 8) == b[k] / Shift(bits % 8))
  }

  function Shift(r: nat): (d: nat)
    requires 0 < r < 8
    ensures d > 0
  {
    match r case 1 => 128 case 2 => 64 case 3 => 32 case 4 => 16 case 5 => 8 case 6 => 4 case 7 => 2
  }

  predicate Contains(n: Net, ip: IP) {
    var x := if To4(ip).Some? then To4(ip).value else ip;
    |x| == |n.addr| && n.bits <= 8 * |x| && SameBits(x, n.addr, n.bits)
  }

  predicate InAny(nets: seq<Net>, ip: IP) {
    exists i :: 0 <= i < |nets| && Contains(nets[i], ip)
  }

  method InAnyOf(nets: seq<Net>, ip: IP) returns (hit: bool)
    ensures hit == InAny(nets, ip)
  {
    for i := 0 to |nets|
      invariant forall k :: 0 <= k < i ==> !Contains(nets[k], ip)
    {
      if Contains(nets[i], ip) {
        return true;
      }
    }
    return false;
  }

  const BLOCKED: seq<Net> :=
    [Net([169, 254, 0, 0], 16),
     Net([0xfe, 0x80, 0, 0, 0, 0, 0, 0, 0, 0, 0, 0, 0, 0, 0, 0], 10),
     Net([0xfd, 0, 0x0e, 0xc2, 0, 0, 0, 0, 0, 0, 0, 0, 0, 0, 0, 0], 64)]

  const RESERVED: seq<Net> :=
    [Net([0, 0, 0, 0], 8), Net([100, 64, 0, 0], 10), Net([192, 0, 0, 0], 24), Net([192, 0, 2, 0], 24),
     Net([198, 18, 0, 0], 15), Net([198, 51, 100, 0], 24), Net([203, 0, 113, 0], 24), Net([240, 0, 0, 0], 4),
     Net([0, 0x64, 0xff, 0x9b, 0, 0, 0, 0, 0, 0, 0, 0, 0, 0, 0, 0], 96),
     Net([0x01, 0, 0, 0, 0, 0, 0, 0, 0, 0, 0, 0, 0, 0, 0, 0], 64),
     Net([0x20, 0x01, 0x0d, 0xb8, 0, 0, 0, 0, 0, 0, 0, 0, 0, 0, 0, 0], 32)]

  const UNSPECIFIED6: IP := [0, 0, 0, 0, 0, 0, 0, 0, 0, 0, 0, 0, 0, 0, 0, 0]
  const LOOPBACK6: IP := [0, 0, 0, 0, 0, 0, 0, 0, 0, 0, 0, 0, 0, 0, 0, 1]

  predicate IsUnspecified(ip: IP) {
    To4(ip) == Some([0, 0, 0, 0]) || ip == UNSPECIFIED6
  }

  predicate IsLoopback(ip: IP) {
    if To4(ip).Some? then To4(ip).value[0] == 127 else ip == LOOPBACK6
  }

  predicate IsUniqueLocal(ip: IP) {
    var v := To4(ip);
    if v.Some? then
      var a := v.value;
      a[0] == 10 || (a[0] == 172 && a[1] / 16 == 1) || (a[0] == 192 && a[1] == 168)
    else |ip| == 16 && ip[0] / 2 == 0x7e
  }

  predicate IsLinkLocalUnicast(ip: IP) {
    var v := To4(ip);
    if v.Some? then v.value[0] == 169 && v.value[1] == 254
    else |ip| == 16 && ip[0] == 0xfe && ip[1] / 64 == 2
  }

  predicate IsMulticast(ip: IP) {
    var v := To4(ip);
    if v.Some? then v.value[0] / 16 == 14 else |ip| == 16 && ip[0] == 0xff
  }

  // -------- The verdicts --------

  function Usable(ip: IP): Option<IP> {
    if |ip| != 4 && |ip| != 16 then None else if To4(ip).Some? then To4(ip) else Some(ip)
  }

  const WRAPPERS: seq<IP> :=
    [[0, 0, 0, 0, 0, 0, 0, 0, 0, 0, 0, 0],
     [0, 0x64, 0xff, 0x9b, 0, 0, 0, 0, 0, 0, 0, 0],
     [0, 0, 0, 0, 0, 0, 0, 0, 0xff, 0xff, 0, 0]]

  /** The IPv4 address inside a 6to4, compatible, NAT64 or translated address; `::` and `::1` hold none. */
  function EmbeddedV4(ip: IP): Option<IP> {
    if |ip| != 16 || To4(ip).Some? || IsUnspecified(ip) || IsLoopback(ip) then None
    else if ip[0] == 0x20 && ip[1] == 0x02 then Some(ip[2..6])
    else if ip[..12] == WRAPPERS[0] || ip[..12] == WRAPPERS[1] || ip[..12] == WRAPPERS[2] then Some(ip[12..])
    else None
  }

  predicate AlwaysBlocked(ip: IP) {
    var norm := Usable(ip);
    norm.None? || InAny(BLOCKED, norm.value)
    || (EmbeddedV4(norm.value).Some? && InAny(BLOCKED, EmbeddedV4(norm.value).value))
  }

  /** Multicast of the link and of the interface is multicast, so one test covers the three. */
  predicate PrivateAddr(ip: IP) {
    || IsUnspecified(ip) || IsLoopback(ip) || IsUniqueLocal(ip) || IsLinkLocalUnicast(ip) || IsMulticast(ip)
    || InAny(RESERVED, ip) || InAny(BLOCKED, ip)
  }

  predicate IsPrivate(ip: IP) {
    var norm := Usable(ip);
    norm.None? || PrivateAddr(norm.value)
    || (EmbeddedV4(norm.value).Some? && PrivateAddr(EmbeddedV4(norm.value).value))
  }

  // -------- The dresses of an IPv4 address --------

  /** Mapped (section 2.5.5.2 of RFC 4291), what `net.IPv4` builds. */
  function Mapped(v4: IP): IP {
    ZEROS10 + [255, 255] + v4
  }

  /** 6to4 (section 2 of RFC 3056): any tail. */
  function SixToFour(v4: IP, tail: IP): IP {
    [0x20, 0x02] + v4 + tail
  }

  /** Compatible (section 2.5.5.1 of RFC 4291), NAT64 (section 2.1 of RFC 6052), translated (section 2.1 of RFC 2765). */
  function Wrapped(k: nat, v4: IP): IP
    requires k < 3
  {
    WRAPPERS[k] + v4
  }

  lemma MappedIs(v4: IP)
    requires |v4| == 4
    ensures Usable(Mapped(v4)) == Some(v4) && To4(Mapped(v4)) == Some(v4)
  {
    var ip := Mapped(v4);
    assert ip[..10] == ZEROS10 && ip[12..] == v4;
  }

  lemma SixToFourIs(v4: IP, tail: IP)
    requires |v4| == 4 && |tail| == 10
    ensures var ip := SixToFour(v4, tail);
            Usable(ip) == Some(ip) && EmbeddedV4(ip) == Some(v4) && To4(ip).None?
  {
    var ip := SixToFour(v4, tail);
    assert ip[0] == 0x20 && ip[1] == 0x02 && ip[2..6] == v4;
    assert ip[..10][0] != ZEROS10[0];
  }

  /** A wrapped address is not an IPv4 one; it gives up its IPv4 address unless it is `::` or `::1`. */
  lemma WrappedIs(k: nat, v4: IP)
    requires |v4| == 4 && k < 3
    ensures var ip := Wrapped(k, v4);
            && Usable(ip) == Some(ip) && To4(ip).None?
            && (EmbeddedV4(ip) == Some(v4) || (k == 0 && v4[0] == 0 && v4[1] == 0 && v4[2] == 0 && EmbeddedV4(ip).None?))
  {
    var ip := Wrapped(k, v4);
    assert ip[..12] == WRAPPERS[k] && ip[12..] == v4;
    assert ip[10] == 0;
    if k == 0 && v4 != [0, 0, 0, 0] && v4 != [0, 0, 0, 1] {
      assert ip != UNSPECIFIED6 && ip != LOOPBACK6 by {
        assert UNSPECIFIED6[12..] == [0, 0, 0, 0] && LOOPBACK6[12..] == [0, 0, 0, 1];
      }
    }
    if k == 1 {
      assert ip[1] == 0x64;
    }
    if k == 2 {
      assert ip[8] == 0xff;
    }
  }

  /** On plain IPv4 addresses only the IPv4 net decides. */
  lemma BlockedV4(v4: IP)
    requires |v4| == 4
    ensures AlwaysBlocked(v4) <==> v4[0] == 169 && v4[1] == 254
    ensures InAny(BLOCKED, v4) <==> v4[0] == 169 && v4[1] == 254
  {
    assert Contains(BLOCKED[0], v4) <==> v4[..2] == [169, 254, 0, 0][..2];
    assert !Contains(BLOCKED[1], v4) && !Contains(BLOCKED[2], v4);
    assert v4[..2] == [v4[0], v4[1]] && [169, 254, 0, 0][..2] == [169, 254];
    assert v4[0] == 169 && v4[1] == 254 ==> Contains(BLOCKED[0], v4);
  }

  lemma OtherFirstByte(n: Net, ip: IP)
    requires |ip| == 16 == |n.addr| && To4(ip).None? && 8 <= n.bits <= 128 && ip[0] != n.addr[0]
    ensures !Contains(n, ip)
  {
    var k := n.bits / 8;
    assert ip[..k][0] != n.addr[..k][0];
  }

  lemma OtherSecondByte(n: Net, ip: IP)
    requires |ip| == 16 == |n.addr| && To4(ip).None? && 16 <= n.bits <= 128 && ip[1] != n.addr[1]
    ensures !Contains(n, ip)
  {
    var k := n.bits / 8;
    assert ip[..k][1] != n.addr[..k][1];
  }

  /** An IPv6 address of none of the two blocked prefixes is not in the list. */
  lemma NotBlocked6(ip: IP)
    requires |ip| == 16 && To4(ip).None? && ip[0] != 0xfe && ip[0] != 0xfd
    ensures !InAny(BLOCKED, ip)
  {
    OtherFirstByte(BLOCKED[1], ip);
    OtherFirstByte(BLOCKED[2], ip);
    assert !Contains(BLOCKED[0], ip);
  }

  /** The always-blocked verdict is that of the IPv4 address, in each of its five dresses. */
  lemma BlockedInEveryDress(v4: IP, tail: IP, k: nat)
    requires |v4| == 4 && |tail| == 10 && k < 3
    ensures AlwaysBlocked(Mapped(v4)) == AlwaysBlocked(v4)
    ensures AlwaysBlocked(SixToFour(v4, tail)) == AlwaysBlocked(v4)
    ensures AlwaysBlocked(Wrapped(k, v4)) == AlwaysBlocked(v4)
  {
    MappedIs(v4);
    SixToFourIs(v4, tail);
    WrappedIs(k, v4);
    BlockedV4(v4);
    NotBlocked6(SixToFour(v4, tail));
    NotBlocked6(Wrapped(k, v4));
    hide InAny, EmbeddedV4, Mapped;
  }

  /** Nothing that is always blocked counts as public. */
  lemma BlockedIsPrivate(ip: IP)
    requires AlwaysBlocked(ip)
    ensures IsPrivate(ip)
  {
    hide InAny, EmbeddedV4, Usable;
  }

  lemma NotReserved6(ip: IP)
    requires |ip| == 16 && To4(ip).None?
    requires (ip[0] == 0 && ip[1] == 0) || (ip[0] == 0x20 && ip[1] == 0x02)
    ensures !InAny(RESERVED, ip)
  {
    OtherSecondByte(RESERVED[8], ip);
    OtherFirstByte(RESERVED[9], ip);
    OtherSecondByte(RESERVED[10], ip);
    forall i | 0 <= i < |RESERVED| ensures !Contains(RESERVED[i], ip) {
      if i < 8 {
        assert |RESERVED[i].addr| == 4;
      }
    }
  }

  /** A wrapping prefix says nothing by itself: only `::` and `::1` are private in their own right. */
  lemma PlainWrapper(ip: IP)
    requires |ip| == 16 && To4(ip).None? && !IsUnspecified(ip) && !IsLoopback(ip)
    requires (ip[0] == 0 && ip[1] == 0) || (ip[0] == 0x20 && ip[1] == 0x02)
    ensures !PrivateAddr(ip)
  {
    NotReserved6(ip);
    NotBlocked6(ip);
    hide InAny;
  }

  lemma Nat64IsReserved(v4: IP)
    requires |v4| == 4
    ensures InAny(RESERVED, Wrapped(1, v4))
  {
    var ip, n := Wrapped(1, v4), RESERVED[8];
    WrappedIs(1, v4);
    assert ip[..12] == WRAPPERS[1] && n.addr[..12] == WRAPPERS[1];
    hide To4;
    assert SameBits(ip, n.addr, 96);
    assert Contains(n, ip);
  }

  lemma ZeroNetIsPrivate(v4: IP)
    requires |v4| == 4 && v4[0] == 0
    ensures PrivateAddr(v4)
  {
    assert v4[..1] == [0] && RESERVED[0].addr[..1] == [0];
    assert Contains(RESERVED[0], v4);
  }

  lemma OnlyTwoSpecial(v4: IP)
    requires |v4| == 4 && (IsUnspecified(Wrapped(0, v4)) || IsLoopback(Wrapped(0, v4)))
    ensures v4[0] == 0
  {
    WrappedIs(0, v4);
    var ip := Wrapped(0, v4);
    assert ip[12] == v4[0] && UNSPECIFIED6[12] == 0 && LOOPBACK6[12] == 0;
  }

  lemma NotSpecial(k: nat, v4: IP)
    requires |v4| == 4 && 0 < k < 3
    ensures !IsUnspecified(Wrapped(k, v4)) && !IsLoopback(Wrapped(k, v4))
  {
    WrappedIs(k, v4);
    var ip := Wrapped(k, v4);
    assert ip[1] == WRAPPERS[k][1] && ip[8] == WRAPPERS[k][8];
    assert UNSPECIFIED6[1] == 0 && UNSPECIFIED6[8] == 0 && LOOPBACK6[1] == 0 && LOOPBACK6[8] == 0;
  }

  /** Internal or not is a matter of the IPv4 address in every dress but NAT64, which is always internal. */
  lemma PrivateInEveryDress(v4: IP, tail: IP)
    requires |v4| == 4 && |tail| == 10
    ensures IsPrivate(Mapped(v4)) == IsPrivate(v4)
    ensures IsPrivate(SixToFour(v4, tail)) == IsPrivate(v4)
    ensures IsPrivate(Wrapped(0, v4)) == IsPrivate(v4)
    ensures IsPrivate(Wrapped(1, v4))
    ensures IsPrivate(Wrapped(2, v4)) == IsPrivate(v4)
  {
    MappedIs(v4);
    SixToFourIs(v4, tail);
    WrappedIs(0, v4);
    WrappedIs(1, v4);
    WrappedIs(2, v4);
    PlainWrapper(SixToFour(v4, tail));
    NotSpecial(2, v4);
    PlainWrapper(Wrapped(2, v4));
    Nat64IsReserved(v4);
    assert EmbeddedV4(v4).None? && Usable(v4) == Some(v4);
    if IsUnspecified(Wrapped(0, v4)) || IsLoopback(Wrapped(0, v4)) {
      OnlyTwoSpecial(v4);
      ZeroNetIsPrivate(v4);
    } else {
      PlainWrapper(Wrapped(0, v4));
      assert EmbeddedV4(Wrapped(0, v4)) == Some(v4) by {
        assert Wrapped(0, v4)[..12] == WRAPPERS[0] && Wrapped(0, v4)[12..] == v4;
      }
    }
    hide InAny, EmbeddedV4, To4, Mapped, SixToFour, Wrapped;
  }

  // -------- Numeric hosts --------

  /** The bytes `parseInetAton` cuts an address into. */
  function BytesOf(addr: nat): (v4: IP)
    ensures |v4| == 4
  {
    [addr / 0x100_0000 % 256, addr / 0x1_0000 % 256, addr / 0x100 % 256, addr % 256]
  }

  /** The bytes are those of the address, from the top. */
  lemma BytesAre(addr: nat)
    requires addr < WORD
    ensures var b := BytesOf(addr); addr == b[0] as int * 0x100_0000 + b[1] as int * 0x1_0000 + b[2] as int * 0x100 + b[3] as int
  {
    Bytewise(addr);
  }

  /** What a host that is written as numbers stands for. */
  function HostIP(host: string): Option<IP> {
    var a := InetAton(host);
    if a.None? then None else Some(Mapped(BytesOf(a.value)))
  }

  /** However the address of a host is spelled, in parts and radices, it is judged as that address. */
  lemma SpellingDoesNotMatter(addr: nat, n: nat, radices: seq<nat>)
    requires addr < WORD && 1 <= n <= 4 && |radices| == n && forall i :: 0 <= i < n ==> Radix(radices[i])
    ensures var ip := HostIP(Dotted(Texts(PartsOf(addr, n), radices)));
            && ip.Some?
            && AlwaysBlocked(ip.value) == AlwaysBlocked(BytesOf(addr))
            && IsPrivate(ip.value) == IsPrivate(BytesOf(addr))
  {
    EveryRenderingParses(addr, n, radices);
    BlockedInEveryDress(BytesOf(addr), ZEROS10, 0);
    PrivateInEveryDress(BytesOf(addr), ZEROS10);
    hide AlwaysBlocked, IsPrivate, InetAton;
  }

  // -------- The classes in plain numbers --------

  lemma PrefixIs(a: IP, b: IP, k: nat)
    requires k <= |a| && k <= |b|
    ensures a[..k] == b[..k] <==> forall i :: 0 <= i < k ==> a[i] == b[i]
  {
    if a[..k] == b[..k] {
      assert forall i :: 0 <= i < k ==> a[i] == a[..k][i] == b[..k][i] == b[i];
    }
  }

  /** An address is in a net when it agrees with it byte by byte, and in the leading bits of the next byte. */
  lemma InNet(n: Net, ip: IP)
    requires |ip| == |n.addr| && n.bits <= 8 * |ip| && (|ip| == 4 || To4(ip).None?)
    ensures Contains(n, ip)
            <==> (forall i :: 0 <= i < n.bits / 8 ==> ip[i] == n.addr[i])
                 && (n.bits % 8 != 0 ==> ip[n.bits / 8] / Shift(n.bits % 8) == n.addr[n.bits / 8] / Shift(n.bits % 8))
  {
    PrefixIs(ip, n.addr, n.bits / 8);
    hide Shift;
  }

  /** The reserved IPv4 nets. */
  predicate Reserved4(a: Octet, b: Octet, c: Octet) {
    || a == 0
    || (a == 100 && 64 <= b < 128)
    || (a == 192 && b == 0 && (c == 0 || c == 2))
    || (a == 198 && (b == 18 || b == 19))
    || (a == 198 && b == 51 && c == 100)
    || (a == 203 && b == 0 && c == 113)
    || a >= 240
  }

  lemma Reserved4Is(v4: IP)
    requires |v4| == 4
    ensures InAny(RESERVED, v4) <==> Reserved4(v4[0], v4[1], v4[2])
  {
    FirstFour(v4);
    LastFour(v4);
    hide Contains;
    forall i | 8 <= i < |RESERVED| ensures !Contains(RESERVED[i], v4) {
      OtherLength(RESERVED[i], v4);
    }
    assert InAny(RESERVED, v4) ==> exists i :: 0 <= i < 8 && Contains(RESERVED[i], v4);
  }

  lemma OtherLength(n: Net, ip: IP)
    requires |ip| == 4 && |n.addr| == 16
    ensures !Contains(n, ip)
  {
  }

  lemma FirstFour(v4: IP)
    requires |v4| == 4
    ensures Contains(RESERVED[0], v4) <==> v4[0] == 0
    ensures Contains(RESERVED[1], v4) <==> v4[0] == 100 && 64 <= v4[1] < 128
    ensures Contains(RESERVED[2], v4) <==> v4[0] == 192 && v4[1] == 0 && v4[2] == 0
    ensures Contains(RESERVED[3], v4) <==> v4[0] == 192 && v4[1] == 0 && v4[2] == 2
  {
    InNet(RESERVED[0], v4);
    InNet(RESERVED[1], v4);
    InNet(RESERVED[2], v4);
    InNet(RESERVED[3], v4);
    hide Contains;
  }

  lemma LastFour(v4: IP)
    requires |v4| == 4
    ensures Contains(RESERVED[4], v4) <==> v4[0] == 198 && (v4[1] == 18 || v4[1] == 19)
    ensures Contains(RESERVED[5], v4) <==> v4[0] == 198 && v4[1] == 51 && v4[2] == 100
    ensures Contains(RESERVED[6], v4) <==> v4[0] == 203 && v4[1] == 0 && v4[2] == 113
    ensures Contains(RESERVED[7], v4) <==> v4[0] >= 240
  {
    InNet(RESERVED[4], v4);
    InNet(RESERVED[5], v4);
    InNet(RESERVED[6], v4);
    InNet(RESERVED[7], v4);
    hide Contains;
  }

  /**
    An IPv4 address is internal exactly when it is of this network (0), private (10, 172.16 to 172.31, 192.168),
    loopback (127), link-local (169.254), reserved, multicast or above (224 on).
  */
  lemma InternalV4(v4: IP)
    requires |v4| == 4
    ensures IsPrivate(v4)
            <==> var a, b := v4[0], v4[1];
                 || a == 10 || a == 127 || a >= 224
                 || (a == 169 && b == 254) || (a == 172 && 16 <= b < 32) || (a == 192 && b == 168)
                 || Reserved4(a, b, v4[2])
  {
    Reserved4Is(v4);
    BlockedV4(v4);
    NotSixteen(v4);
    hide InAny;
  }

  lemma NotSixteen(v4: IP)
    requires |v4| == 4
    ensures EmbeddedV4(v4).None? && Usable(v4) == Some(v4)
    ensures IsUnspecified(v4) ==> v4[0] == 0
    ensures IsLoopback(v4) <==> v4[0] == 127
  {
  }

  /** An address of neither 4 nor 16 bytes is always refused. */
  lemma OddLengths(ip: IP)
    requires |ip| != 4 && |ip| != 16
    ensures AlwaysBlocked(ip) && IsPrivate(ip)
  {
    hide InAny;
  }

  /** An IPv6 address that is no dress of an IPv4 one. */
  predicate Pure6(ip: IP) {
    |ip| == 16 && To4(ip).None? && EmbeddedV4(ip).None?
  }

  predicate LinkLocal6(ip: IP)
    requires |ip| == 16
  {
    ip[0] == 0xfe && 0x80 <= ip[1] < 0xc0
  }

  /** The metadata address of a cloud, fd00:ec2::/64. */
  predicate Metadata6(ip: IP)
    requires |ip| == 16
  {
    ip[0] == 0xfd && ip[1] == 0 && ip[2] == 0x0e && ip[3] == 0xc2 && ip[4] == 0 && ip[5] == 0 && ip[6] == 0 && ip[7] == 0
  }

  lemma LinkLocalNet(ip: IP)
    requires |ip| == 16 && To4(ip).None?
    ensures Contains(BLOCKED[1], ip) <==> LinkLocal6(ip)
  {
    InNet(BLOCKED[1], ip);
    hide To4, Contains;
  }

  lemma MetadataNet(ip: IP)
    requires |ip| == 16 && To4(ip).None?
    ensures Contains(BLOCKED[2], ip) <==> Metadata6(ip)
  {
    InNet(BLOCKED[2], ip);
    hide To4, Contains;
  }

  lemma Blocked6Is(ip: IP)
    requires |ip| == 16 && To4(ip).None?
    ensures InAny(BLOCKED, ip) <==> LinkLocal6(ip) || Metadata6(ip)
  {
    LinkLocalNet(ip);
    MetadataNet(ip);
    assert !Contains(BLOCKED[0], ip);
    hide Contains, To4, LinkLocal6, Metadata6;
    assert InAny(BLOCKED, ip) <==> Contains(BLOCKED[1], ip) || Contains(BLOCKED[2], ip);
  }

  /** Always refused among them: link-local addresses and the metadata one. */
  lemma BlockedV6(ip: IP)
    requires Pure6(ip)
    ensures AlwaysBlocked(ip) <==> LinkLocal6(ip) || Metadata6(ip)
  {
    Blocked6Is(ip);
    hide InAny, EmbeddedV4, To4;
  }

  /** Every byte of the range is this one. */
  predicate All(ip: IP, from: nat, to: nat, byte: Octet)
    requires from <= to <= |ip|
  {
    forall i :: from <= i < to ==> ip[i] == byte
  }

  /** The reserved IPv6 nets: NAT64, 100::/64 and the one for documentation. */
  predicate Reserved6(ip: IP)
    requires |ip| == 16
  {
    || (ip[0] == 0 && ip[1] == 0x64 && ip[2] == 0xff && ip[3] == 0x9b && All(ip, 4, 12, 0))
    || (ip[0] == 0x01 && All(ip, 1, 8, 0))
    || (ip[0] == 0x20 && ip[1] == 0x01 && ip[2] == 0x0d && ip[3] == 0xb8)
  }

  lemma Nat64Net(ip: IP)
    requires |ip| == 16 && To4(ip).None?
    ensures Contains(RESERVED[8], ip)
            <==> ip[0] == 0 && ip[1] == 0x64 && ip[2] == 0xff && ip[3] == 0x9b && All(ip, 4, 12, 0)
  {
    InNet(RESERVED[8], ip);
    hide Contains, To4;
  }

  lemma OtherNets6(ip: IP)
    requires |ip| == 16 && To4(ip).None?
    ensures Contains(RESERVED[9], ip) <==> ip[0] == 0x01 && All(ip, 1, 8, 0)
    ensures Contains(RESERVED[10], ip) <==> ip[0] == 0x20 && ip[1] == 0x01 && ip[2] == 0x0d && ip[3] == 0xb8
  {
    InNet(RESERVED[9], ip);
    InNet(RESERVED[10], ip);
    hide Contains, To4;
  }

  lemma Reserved6Is(ip: IP)
    requires |ip| == 16 && To4(ip).None?
    ensures InAny(RESERVED, ip) <==> Reserved6(ip)
  {
    Nat64Net(ip);
    OtherNets6(ip);
    forall i | 0 <= i < 8 ensures !Contains(RESERVED[i], ip) {
      assert |RESERVED[i].addr| == 4;
    }
    hide Contains, To4;
    assert InAny(RESERVED, ip)
      <==> Contains(RESERVED[8], ip) || Contains(RESERVED[9], ip) || Contains(RESERVED[10], ip);
  }

  lemma Special6(ip: IP)
    requires |ip| == 16 && To4(ip).None?
    ensures IsUnspecified(ip) || IsLoopback(ip) <==> All(ip, 0, 15, 0) && ip[15] <= 1
  {
    if All(ip, 0, 15, 0) && ip[15] == 0 {
      assert ip == UNSPECIFIED6;
    }
    if All(ip, 0, 15, 0) && ip[15] == 1 {
      assert ip == LOOPBACK6;
    }
  }

  /** Internal among them: `::` and `::1`, unique local, link-local, multicast and reserved addresses. */
  lemma InternalV6(ip: IP)
    requires Pure6(ip)
    ensures IsPrivate(ip)
            <==> || (All(ip, 0, 15, 0) && ip[15] <= 1)
                 || ip[0] == 0xfc || ip[0] == 0xfd || LinkLocal6(ip) || ip[0] == 0xff || Reserved6(ip)
  {
    Special6(ip);
    Blocked6Is(ip);
    Reserved6Is(ip);
    hide InAny, EmbeddedV4, To4, All, Reserved6, IsUnspecified, IsLoopback;
  }

  /** The dresses, byte by byte. */
  lemma DressesAre(a: Octet, b: Octet, c: Octet, d: Octet, tail: IP)
    requires |tail| == 10
    ensures Mapped([a, b, c, d]) == [0, 0, 0, 0, 0, 0, 0, 0, 0, 0, 255, 255, a, b, c, d]
    ensures SixToFour([a, b, c, d], tail) == [0x20, 0x02, a, b, c, d] + tail
    ensures Wrapped(0, [a, b, c, d]) == [0, 0, 0, 0, 0, 0, 0, 0, 0, 0, 0, 0, a, b, c, d]
    ensures Wrapped(1, [a, b, c, d]) == [0, 0x64, 0xff, 0x9b, 0, 0, 0, 0, 0, 0, 0, 0, a, b, c, d]
    ensures Wrapped(2, [a, b, c, d]) == [0, 0, 0, 0, 0, 0, 0, 0, 0xff, 0xff, 0, 0, a, b, c, d]
  {
  }

  /** Only the dresses hide an IPv4 address. */
  lemma OnlyDresses(ip: IP)
    requires |ip| == 16 && To4(ip).None? && EmbeddedV4(ip).Some?
    ensures var v4 := EmbeddedV4(ip).value;
            |v4| == 4 && (ip == SixToFour(v4, ip[6..]) || exists k: nat :: k < 3 && ip == Wrapped(k, v4))
  {
    var v4 := EmbeddedV4(ip).value;
    if ip[0] == 0x20 && ip[1] == 0x02 {
      assert ip == SixToFour(v4, ip[6..]);
    } else {
      assert ip == ip[..12] + ip[12..];
      assert ip == Wrapped(0, v4) || ip == Wrapped(1, v4) || ip == Wrapped(2, v4);
    }
  }

  lemma OnlyMapped(ip: IP)
    requires |ip| == 16 && To4(ip).Some?
    ensures |To4(ip).value| == 4 && ip == Mapped(To4(ip).value)
  {
    assert ip == ip[..10] + [ip[10], ip[11]] + ip[12..];
  }
}
