// Abstract network addresses and their comparison (lib/addr.c:187-240, 494-503, 586-643).

module Addresses {

  type Byte = bv8

  const AF_INET := 2
  const AF_INET6 := 10
  const AF_MPLS := 28

  // The contents of a struct nl_addr: len is the length of bytes.
  datatype Addr = Addr(family: int, bytes: seq<Byte>, prefixlen: nat)

  class NlAddr {
    var family: int            // a_family
    var len: nat               // a_len
    var prefixlen: nat         // a_prefixlen
    var refcnt: int            // a_refcnt
    const addr: array<Byte>    // a_addr, of a_maxsize bytes

    // nl_addr_alloc
    constructor (maxsize: nat)
      ensures fresh(addr) && addr.Length == maxsize && len == 0 && prefixlen == 0 && refcnt == 1 && family == 0
    {
      addr := new Byte[maxsize](_ => 0);
      family, len, prefixlen, refcnt := 0, 0, 0, 1;
    }

    ghost predicate Valid()
      reads this
    {
      len <= addr.Length
    }

    ghost function View(): Addr
      requires Valid()
      reads this, addr
    {
      Addr(family, addr[..len], prefixlen)
    }
  }

  // nl_addr_build: every bit counts, but an MPLS address is one 20-bit label.
  method AddrBuild(family: int, buf: seq<Byte>) returns (a: NlAddr)
    ensures fresh(a) && fresh(a.addr) && a.Valid() && a.refcnt == 1
    ensures a.View() == Addr(family, buf, if family == 28 then 20 else |Bits(buf)|)
  {
    a := new NlAddr(|buf|);
    a.family, a.len := family, |buf|;
    a.prefixlen := if family == AF_MPLS then 20 else |buf| * 8;
    forall i | 0 <= i < |buf| {
      a.addr[i] := buf[i];
    }
    assert a.addr[..a.len] == buf;
  }

  // nl_addr_clone: the same contents in storage of its own
  method AddrClone(a: NlAddr) returns (c: NlAddr)
    requires a.Valid()
    ensures fresh(c) && fresh(c.addr) && c.Valid() && c.refcnt == 1
    ensures c.View() == a.View()
  {
    c := AddrBuild(a.family, a.addr[..a.len]);
    c.prefixlen := a.prefixlen;
  }

  // ---------- comparison ----------

  function Num(x: Byte): (n: nat)
    ensures n < 256
  {
    x as int
  }

  // memcmp: the difference of the first bytes that differ
  function MemCmp(s: seq<Byte>, t: seq<Byte>): (d: int)
    requires |s| == |t|
    ensures d == 0 <==> s == t
  {
    if s == [] then 0
    else if s[0] != t[0] then
      Num(s[0]) - Num(t[0])
    else
      assert s == [s[0]] + s[1..] && t == [t[0]] + t[1..];
      MemCmp(s[1..], t[1..])
  }

  // nl_addr_cmp of two addresses
  function Cmp(a: Addr, b: Addr): int
  {
    if a.family != b.family then a.family - b.family
    else if |a.bytes| != |b.bytes| then |a.bytes| - |b.bytes|
    else if |a.bytes| == 0 then 0
    else if a.bytes != b.bytes then MemCmp(a.bytes, b.bytes)
    else a.prefixlen - b.prefixlen
  }

  // Addresses compare equal exactly when they are equal, except that the
  // prefix length of an empty address does not matter.
  lemma CmpZero(a: Addr, b: Addr)
    ensures Cmp(a, b) == 0 <==>
            a.family == b.family && a.bytes == b.bytes && (a.prefixlen == b.prefixlen || a.bytes == [])
  {}

  // (0xFF00 >> bits) & 0xFF: the top bits of a byte
  function TopMask(bits: nat): Byte
    requires bits <= 8
  {
    ((0xFF00 as bv16 >> bits) & 0xFF) as Byte
  }

  // The difference of two bytes' top bits
  function TopDifference(x: Byte, y: Byte, bits: nat): int
    requires bits <= 8
  {
    Num(x & TopMask(bits)) - Num(y & TopMask(bits))
  }

  // nl_addr_cmp_prefix; defined for prefixes within the addresses
  function CmpPrefix(a: Addr, b: Addr): int
    requires a.prefixlen <= 8 * |a.bytes| && b.prefixlen <= 8 * |b.bytes|
  {
    if a.family != b.family then a.family - b.family
    else
      var len := if a.prefixlen <= b.prefixlen then a.prefixlen else b.prefixlen;
      var bytes := len / 8;
      var d := MemCmp(a.bytes[..bytes], b.bytes[..bytes]);
      if d == 0 && len % 8 != 0 then
        TopDifference(a.bytes[bytes], b.bytes[bytes], len % 8)
      else
        d
  }

  // ---------- the order of bit strings ----------

  // Bit j of a byte, the most significant one first
  function Bit(x: Byte, j: nat): bool
    requires j < 8
  {
    (x >> (7 - j)) & 1 == 1
  }

  function ByteBits(x: Byte): (r: seq<bool>)
    ensures |r| == 8
  {
    seq(8, j requires 0 <= j < 8 => Bit(x, j))
  }

  function Bits(bytes: seq<Byte>): (r: seq<bool>)
    ensures |r| == 8 * |bytes|
  {
    if bytes == [] then [] else ByteBits(bytes[0]) + Bits(bytes[1..])
  }

  // Which of two bit strings of one length comes first: -1, 0 or 1
  function Order(s: seq<bool>, t: seq<bool>): (d: int)
    requires |s| == |t|
    ensures d == 0 <==> s == t
    ensures -1 <= d <= 1
  {
    if s == [] then 0
    else if s[0] != t[0] then
      if t[0] then -1 else 1
    else
      assert s == [s[0]] + s[1..] && t == [t[0]] + t[1..];
      Order(s[1..], t[1..])
  }

  function Sign(d: int): int
  {
    if d < 0 then -1 else if d > 0 then 1 else 0
  }

  lemma {:induction false} OrderAppend(s: seq<bool>, t: seq<bool>, u: seq<bool>, v: seq<bool>)
    requires |s| == |t| && |u| == |v|
    ensures Order(s + u, t + v) == if s != t then Order(s, t) else Order(u, v)
  {
    if s == [] {
      assert s + u == u && t + v == v;
    } else {
      assert (s + u)[1..] == s[1..] + u && (t + v)[1..] == t[1..] + v;
      assert s == [s[0]] + s[1..] && t == [t[0]] + t[1..];
      OrderAppend(s[1..], t[1..], u, v);
    }
  }

  lemma {:induction false} BitsAppend(s: seq<Byte>, t: seq<Byte>)
    ensures Bits(s + t) == Bits(s) + Bits(t)
  {
    if s == [] {
      assert s + t == t;
    } else {
      assert (s + t)[1..] == s[1..] + t;
      BitsAppend(s[1..], t);
    }
  }

  // ---------- one byte ----------

  lemma TopMasks()
    ensures TopMask(0) == 0 && TopMask(1) == 0x80 && TopMask(2) == 0xC0 && TopMask(3) == 0xE0 && TopMask(4) == 0xF0
    ensures TopMask(5) == 0xF8 && TopMask(6) == 0xFC && TopMask(7) == 0xFE && TopMask(8) == 0xFF
  {}

  // One more bit decides between bytes whose top bits are equal.
  predicate StepOrders(x: Byte, y: Byte, m: Byte, m': Byte, bx: bool, by': bool)
  {
    && ((x & m' < y & m') <==> (x & m < y & m) || (x & m == y & m && !bx && by'))
    && (x & m' == y & m' <==> x & m == y & m && bx == by')
  }

  lemma Step0(x: Byte, y: Byte)
    ensures StepOrders(x, y, 0, 0x80, (x >> 7) & 1 == 1, (y >> 7) & 1 == 1)
  {}

  lemma Step1(x: Byte, y: Byte)
    ensures StepOrders(x, y, 0x80, 0xC0, (x >> 6) & 1 == 1, (y >> 6) & 1 == 1)
  {}

  lemma Step2(x: Byte, y: Byte)
    ensures StepOrders(x, y, 0xC0, 0xE0, (x >> 5) & 1 == 1, (y >> 5) & 1 == 1)
  {}

  lemma Step3(x: Byte, y: Byte)
    ensures StepOrders(x, y, 0xE0, 0xF0, (x >> 4) & 1 == 1, (y >> 4) & 1 == 1)
  {}

  lemma Step4(x: Byte, y: Byte)
    ensures StepOrders(x, y, 0xF0, 0xF8, (x >> 3) & 1 == 1, (y >> 3) & 1 == 1)
  {}

  lemma Step5(x: Byte, y: Byte)
    ensures StepOrders(x, y, 0xF8, 0xFC, (x >> 2) & 1 == 1, (y >> 2) & 1 == 1)
  {}

  lemma Step6(x: Byte, y: Byte)
    ensures StepOrders(x, y, 0xFC, 0xFE, (x >> 1) & 1 == 1, (y >> 1) & 1 == 1)
  {}

  lemma Step7(x: Byte, y: Byte)
    ensures StepOrders(x, y, 0xFE, 0xFF, (x >> 0) & 1 == 1, (y >> 0) & 1 == 1)
  {}

  lemma MaskStep(x: Byte, y: Byte, m: nat)
    requires m < 8
    ensures StepOrders(x, y, TopMask(m), TopMask(m + 1), Bit(x, m), Bit(y, m))
  {
    hide StepOrders;
    TopMasks();
    if m == 0 { Step0(x, y); }
    else if m == 1 { Step1(x, y); }
    else if m == 2 { Step2(x, y); }
    else if m == 3 { Step3(x, y); }
    else if m == 4 { Step4(x, y); }
    else if m == 5 { Step5(x, y); }
    else if m == 6 { Step6(x, y); }
    else { Step7(x, y); }
  }

  function Compare(x: Byte, y: Byte): int
  {
    if x < y then -1 else if x == y then 0 else 1
  }

  function CompareTop(x: Byte, y: Byte, m: nat): int
    requires m <= 8
  {
    Compare(x & TopMask(m), y & TopMask(m))
  }

  lemma CompareStep(x: Byte, y: Byte, m: nat)
    requires m < 8
    ensures CompareTop(x, y, m + 1) == if CompareTop(x, y, m) != 0 then CompareTop(x, y, m)
                                       else if Bit(x, m) == Bit(y, m) then 0 else if Bit(y, m) then -1 else 1
  {
    hide TopMask; hide Bit;
    MaskStep(x, y, m);
    var p, q, p', q' := x & TopMask(m), y & TopMask(m), x & TopMask(m + 1), y & TopMask(m + 1);
  }

  // Masking the top bits compares them as a bit string.
  lemma {:induction false} MaskedOrder(x: Byte, y: Byte, m: nat)
    requires m <= 8
    ensures Order(ByteBits(x)[..m], ByteBits(y)[..m]) == CompareTop(x, y, m)
  {
    hide Bit; hide CompareTop;
    if m == 0 {
      ZeroMask(x, y);
    } else {
      var s, t := ByteBits(x)[..m - 1], ByteBits(y)[..m - 1];
      MaskedOrder(x, y, m - 1);
      CompareStep(x, y, m - 1);
      assert ByteBits(x)[..m] == s + [Bit(x, m - 1)] && ByteBits(y)[..m] == t + [Bit(y, m - 1)];
      OrderAppend(s, t, [Bit(x, m - 1)], [Bit(y, m - 1)]);
    }
  }

  lemma ZeroMask(x: Byte, y: Byte)
    ensures CompareTop(x, y, 0) == 0
  {
    TopMasks();
    assert x & 0 == 0 && y & 0 == 0;
  }

  lemma ByteDifference(x: Byte, y: Byte)
    ensures Sign(Num(x) - Num(y)) == Compare(x, y)
  {}

  lemma TopSign(x: Byte, y: Byte, m: nat)
    requires m <= 8
    ensures Sign(TopDifference(x, y, m)) == CompareTop(x, y, m)
  {
    hide TopMask; hide Compare; hide Sign; hide Num;
    var p, q := x & TopMask(m), y & TopMask(m);
    ByteDifference(p, q);
  }

  lemma WholeMask(x: Byte)
    ensures x & TopMask(8) == x
  {}

  lemma WholeDifference(x: Byte, y: Byte)
    ensures TopDifference(x, y, 8) == Num(x) - Num(y)
  {
    hide TopMask; hide Num;
    WholeMask(x);
    WholeMask(y);
  }

  lemma WholeByteOrder(x: Byte, y: Byte)
    ensures Order(ByteBits(x), ByteBits(y)) == Sign(Num(x) - Num(y))
  {
    hide Bit; hide Order; hide TopDifference; hide CompareTop;
    MaskedOrder(x, y, 8);
    TopSign(x, y, 8);
    WholeDifference(x, y);
    assert ByteBits(x)[..8] == ByteBits(x) && ByteBits(y)[..8] == ByteBits(y);
  }

  lemma NumInjective(x: Byte, y: Byte)
    ensures Num(x) == Num(y) ==> x == y
  {}

  // ---------- whole addresses ----------

  // memcmp orders bytes as bit strings.
  lemma {:induction false} MemCmpOrder(s: seq<Byte>, t: seq<Byte>)
    requires |s| == |t|
    ensures Sign(MemCmp(s, t)) == Order(Bits(s), Bits(t))
  {
    hide Bit; hide Order; hide Num;
    if s == [] {
      assert Bits(s) == Bits(t);
      assert Order(Bits(s), Bits(t)) == 0;
    } else {
      WholeByteOrder(s[0], t[0]);
      NumInjective(s[0], t[0]);
      MemCmpOrder(s[1..], t[1..]);
      OrderAppend(ByteBits(s[0]), ByteBits(t[0]), Bits(s[1..]), Bits(t[1..]));
      if s[0] == t[0] {
        assert ByteBits(s[0]) == ByteBits(t[0]);
      } else {
        assert Order(ByteBits(s[0]), ByteBits(t[0])) != 0;
      }
    }
  }

  // The first n bits: whole bytes, and the top bits of the next.
  lemma FirstBits(bytes: seq<Byte>, n: nat)
    requires n <= 8 * |bytes|
    ensures Bits(bytes)[..n] == Bits(bytes[..n / 8]) + if n % 8 == 0 then [] else ByteBits(bytes[n / 8])[..n % 8]
  {
    hide ByteBits;
    FirstBitsAt(bytes, n / 8, n % 8);
  }

  lemma FirstBitsAt(bytes: seq<Byte>, k: nat, r: nat)
    requires r < 8 && k <= |bytes| && (r > 0 ==> k < |bytes|)
    ensures 8 * k + r <= |Bits(bytes)|
    ensures Bits(bytes)[..8 * k + r] == Bits(bytes[..k]) + if r == 0 then [] else ByteBits(bytes[k])[..r]
  {
    hide ByteBits; hide Bits;
    assert bytes == bytes[..k] + bytes[k..];
    BitsAppend(bytes[..k], bytes[k..]);
    TakeAppend(Bits(bytes[..k]), Bits(bytes[k..]), r);
    if r != 0 {
      FirstByte(bytes[k..]);
      assert (ByteBits(bytes[k]) + Bits(bytes[k..][1..]))[..r] == ByteBits(bytes[k])[..r];
    }
  }

  lemma TakeAppend(s: seq<bool>, t: seq<bool>, r: nat)
    requires r <= |t|
    ensures (s + t)[..|s| + r] == s + t[..r]
  {}

  lemma FirstByte(bytes: seq<Byte>)
    requires bytes != []
    ensures Bits(bytes) == ByteBits(bytes[0]) + Bits(bytes[1..])
  {}

  // For prefix lengths within the addresses, equal families are compared by the
  // bits both prefixes cover: zero exactly when these agree, otherwise their order.
  lemma CmpPrefixOrdersBits(a: Addr, b: Addr)
    requires a.prefixlen <= 8 * |a.bytes| && b.prefixlen <= 8 * |b.bytes| && a.family == b.family
    ensures var n := if a.prefixlen <= b.prefixlen then a.prefixlen else b.prefixlen;
            && Sign(CmpPrefix(a, b)) == Order(Bits(a.bytes)[..n], Bits(b.bytes)[..n])
            && (CmpPrefix(a, b) == 0 <==> Bits(a.bytes)[..n] == Bits(b.bytes)[..n])
  {
    hide Bits; hide ByteBits; hide TopDifference; hide Order; hide CompareTop;
    var n := if a.prefixlen <= b.prefixlen then a.prefixlen else b.prefixlen;
    var k := n / 8;
    FirstBits(a.bytes, n);
    FirstBits(b.bytes, n);
    MemCmpOrder(a.bytes[..k], b.bytes[..k]);
    if n % 8 != 0 {
      var x, y := a.bytes[k], b.bytes[k];
      MaskedOrder(x, y, n % 8);
      TopSign(x, y, n % 8);
      OrderAppend(Bits(a.bytes[..k]), Bits(b.bytes[..k]), ByteBits(x)[..n % 8], ByteBits(y)[..n % 8]);
    } else {
      OrderAppend(Bits(a.bytes[..k]), Bits(b.bytes[..k]), [], []);
    }
  }

  // What the order of bit strings is: the first place they differ decides.
  lemma {:induction false} OrderFirstDifference(s: seq<bool>, t: seq<bool>, i: nat)
    requires |s| == |t| && i < |s| && s[..i] == t[..i] && s[i] != t[i]
    ensures Order(s, t) == if t[i] then -1 else 1
  {
    if i > 0 {
      assert s[0] == s[..i][0] == t[..i][0] == t[0];
      assert s[1..][..i - 1] == s[..i][1..] == t[..i][1..] == t[1..][..i - 1];
      OrderFirstDifference(s[1..], t[1..], i - 1);
    }
  }

  // Which of two addresses comes first: the one of the smaller family, then the
  // shorter one, then the first as a bit string, then that of the shorter prefix.
  lemma CmpDecides(a: Addr, b: Addr)
    ensures Cmp(a, b) < 0 <==>
      || a.family < b.family
      || (a.family == b.family && |a.bytes| < |b.bytes|)
      || (a.family == b.family && |a.bytes| == |b.bytes| && Order(Bits(a.bytes), Bits(b.bytes)) < 0)
      || (a.family == b.family && a.bytes == b.bytes && a.bytes != [] && a.prefixlen < b.prefixlen)
    ensures Cmp(a, b) < 0 <==> Cmp(b, a) > 0
  {
    hide Bits; hide Order; hide MemCmp;
    if |a.bytes| == |b.bytes| {
      MemCmpOrder(a.bytes, b.bytes);
      MemCmpOrder(b.bytes, a.bytes);
      OrderTurned(Bits(a.bytes), Bits(b.bytes));
    }
  }

  lemma {:induction false} OrderTurned(s: seq<bool>, t: seq<bool>)
    requires |s| == |t|
    ensures Order(t, s) == -Order(s, t)
  {
    if s != [] { OrderTurned(s[1..], t[1..]); }
  }

  lemma {:induction false} OrderTransitive(s: seq<bool>, t: seq<bool>, u: seq<bool>)
    requires |s| == |t| == |u| && Order(s, t) <= 0 && Order(t, u) <= 0
    ensures Order(s, u) <= 0 && (Order(s, u) == 0 ==> s == t)
  {
    if s != [] && s[0] == t[0] == u[0] {
      OrderTransitive(s[1..], t[1..], u[1..]);
      assert s == [s[0]] + s[1..] && t == [t[0]] + t[1..];
    }
  }

  // So the comparison puts addresses in order.
  lemma CmpTransitive(a: Addr, b: Addr, c: Addr)
    requires Cmp(a, b) <= 0 && Cmp(b, c) <= 0
    ensures Cmp(a, c) <= 0
  {
    hide Bits; hide Order; hide MemCmp;
    if a.family == c.family && |a.bytes| == |c.bytes| == |b.bytes| {
      MemCmpOrder(a.bytes, b.bytes);
      MemCmpOrder(b.bytes, c.bytes);
      MemCmpOrder(a.bytes, c.bytes);
      OrderTransitive(Bits(a.bytes), Bits(b.bytes), Bits(c.bytes));
    }
  }
}
