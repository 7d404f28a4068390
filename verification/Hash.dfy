// The Jenkins lookup3 hash of lib/hash.c.  hashlittle reads its key in one of
// three widths and hashbig in one of two, depending on the alignment of the
// key; every reading is proved to compute the same digests.  The mixers are
// proved reversible, so that two keys differing in one block never collide in
// the internal state.

module JenkinsHash {

  type Word = bv32  // uint32_t
  type Byte = bv8   // uint8_t

  // The internal state: the three words a, b, c.
  datatype State = State(a: Word, b: Word, c: Word)

  // What the hash hands back: the return value and the word left in *val2.
  datatype Digests = Digests(primary: Word, secondary: Word)

  // ---------- 32-bit arithmetic ----------

  function Add(x: Word, y: Word): Word { x + y }
  function Sub(x: Word, y: Word): Word { x - y }
  function Xor(x: Word, y: Word): Word { x ^ y }
  function Rot(x: Word, k: Word): Word
    requires 0 < k < 32
  {
    (x << k) | (x >> (32 - k))
  }

  lemma AddThenSub(x: Word, y: Word)
    ensures Sub(Add(x, y), y) == x
  {
    assert Sub(x + y, y) == x;
  }
  lemma SubThenAdd(x: Word, y: Word)
    ensures Add(Sub(x, y), y) == x
  {
    assert Add(x - y, y) == x;
  }
  lemma AddSub(x: Word, y: Word)
    ensures Sub(Add(x, y), y) == x && Add(Sub(x, y), y) == x
  {
    hide *;
    AddThenSub(x, y);
    SubThenAdd(x, y);
  }
  lemma XorTwice(x: Word, r: Word)
    ensures Xor(Xor(x, r), r) == x
  {}

  function MixLine(x: Word, z: Word, y: Word, k: Word): (Word, Word)
    requires 0 < k < 32
  {
    (Xor(Sub(x, z), Rot(z, k)), Add(z, y))
  }

  function UnmixLine(x: Word, z: Word, y: Word, k: Word): (Word, Word)
    requires 0 < k < 32
  {
    var z0 := Sub(z, y);
    (Add(Xor(x, Rot(z0, k)), z0), z0)
  }

  lemma MixLineReversible(x: Word, z: Word, y: Word, k: Word)
    requires 0 < k < 32
    ensures var (x', z') := MixLine(x, z, y, k); UnmixLine(x', z', y, k) == (x, z)
    ensures var (x', z') := UnmixLine(x, z, y, k); MixLine(x', z', y, k) == (x, z)
  {
    hide Add; hide Sub; hide Xor; hide Rot;
    AddSub(z, y);
    AddSub(x, z);
    XorTwice(Sub(x, z), Rot(z, k));
    var z0 := Sub(z, y);
    XorTwice(x, Rot(z0, k));
    AddSub(Xor(x, Rot(z0, k)), z0);
  }
  function FinalLine(x: Word, y: Word, k: Word): Word
    requires 0 < k < 32
  {
    Sub(Xor(x, y), Rot(y, k))
  }

  function UnfinalLine(x: Word, y: Word, k: Word): Word
    requires 0 < k < 32
  {
    Xor(Add(x, Rot(y, k)), y)
  }

  lemma FinalLineReversible(x: Word, y: Word, k: Word)
    requires 0 < k < 32
    ensures UnfinalLine(FinalLine(x, y, k), y, k) == x
    ensures FinalLine(UnfinalLine(x, y, k), y, k) == x
  {
    hide Add; hide Sub; hide Xor; hide Rot;
    AddSub(Xor(x, y), Rot(y, k));
    AddSub(x, Rot(y, k));
    XorTwice(x, y);
    XorTwice(Add(x, Rot(y, k)), y);
  }

  function Mix(s: State): State
  {
    var (a, b, c) := (s.a, s.b, s.c);
    var (a, c) := MixLine(a, c, b, 4);
    var (b, a) := MixLine(b, a, c, 6);
    var (c, b) := MixLine(c, b, a, 8);
    var (a, c) := MixLine(a, c, b, 16);
    var (b, a) := MixLine(b, a, c, 19);
    var (c, b) := MixLine(c, b, a, 4);
    State(a, b, c)
  }
  function Unmix(s: State): State
  {
    var (a, b, c) := (s.a, s.b, s.c);
    var (c, b) := UnmixLine(c, b, a, 4);
    var (b, a) := UnmixLine(b, a, c, 19);
    var (a, c) := UnmixLine(a, c, b, 16);
    var (c, b) := UnmixLine(c, b, a, 8);
    var (b, a) := UnmixLine(b, a, c, 6);
    var (a, c) := UnmixLine(a, c, b, 4);
    State(a, b, c)
  }
  function Final(s: State): State
  {
    var (a, b, c) := (s.a, s.b, s.c);
    var c := FinalLine(c, b, 14);
    var a := FinalLine(a, c, 11);
    var b := FinalLine(b, a, 25);
    var c := FinalLine(c, b, 16);
    var a := FinalLine(a, c, 4);
    var b := FinalLine(b, a, 14);
    var c := FinalLine(c, b, 24);
    State(a, b, c)
  }
  function Unfinal(s: State): State
  {
    var (a, b, c) := (s.a, s.b, s.c);
    var c := UnfinalLine(c, b, 24);
    var b := UnfinalLine(b, a, 14);
    var a := UnfinalLine(a, c, 4);
    var c := UnfinalLine(c, b, 16);
    var b := UnfinalLine(b, a, 25);
    var a := UnfinalLine(a, c, 11);
    var c := UnfinalLine(c, b, 14);
    State(a, b, c)
  }

  lemma AllLinesReversible()
    ensures forall x, z, y, k: Word {:trigger MixLine(x, z, y, k)} | 0 < k < 32 ::
              var (x', z') := MixLine(x, z, y, k); UnmixLine(x', z', y, k) == (x, z)
    ensures forall x, z, y, k: Word {:trigger UnmixLine(x, z, y, k)} | 0 < k < 32 ::
              var (x', z') := UnmixLine(x, z, y, k); MixLine(x', z', y, k) == (x, z)
    ensures forall x, y, k: Word {:trigger FinalLine(x, y, k)} | 0 < k < 32 ::
              UnfinalLine(FinalLine(x, y, k), y, k) == x
    ensures forall x, y, k: Word {:trigger UnfinalLine(x, y, k)} | 0 < k < 32 ::
              FinalLine(UnfinalLine(x, y, k), y, k) == x
  {
    hide *;
    forall x, z, y, k: Word | 0 < k < 32 ensures var (x', z') := MixLine(x, z, y, k); UnmixLine(x', z', y, k) == (x, z)
    { MixLineReversible(x, z, y, k); }
    forall x, z, y, k: Word | 0 < k < 32 ensures var (x', z') := UnmixLine(x, z, y, k); MixLine(x', z', y, k) == (x, z)
    { MixLineReversible(x, z, y, k); }
    forall x, y, k: Word | 0 < k < 32 ensures UnfinalLine(FinalLine(x, y, k), y, k) == x && FinalLine(UnfinalLine(x, y, k), y, k) == x
    { FinalLineReversible(x, y, k); }
  }

  lemma MixReversible(s: State)
    ensures Unmix(Mix(s)) == s
    ensures Mix(Unmix(s)) == s
  {
    hide MixLine; hide UnmixLine;
    AllLinesReversible();
  }
  lemma FinalReversible(s: State)
    ensures Unfinal(Final(s)) == s
    ensures Final(Unfinal(s)) == s
  {
    hide FinalLine; hide UnfinalLine;
    AllLinesReversible();
  }

  // ---------- loads ----------

  lemma AddAssoc(x: Word, y: Word, z: Word)
    ensures Add(Add(x, y), z) == Add(x, Add(y, z))
  {
    assert Add(x + y, z) == Add(x, y + z);
  }

  lemma AddComm(x: Word, y: Word)
    ensures Add(x, y) == Add(y, x)
  {}

  lemma AddZero(x: Word)
    ensures Add(x, 0) == x == Add(0, x)
  {}

  lemma AddCancel(x: Word, y: Word, z: Word)
    requires Add(x, z) == Add(y, z)
    ensures x == y
  {
    hide *;
    AddThenSub(x, z);
    AddThenSub(y, z);
  }

  // A byte moved to bit position k, as in ((uint32_t)k[1])<<8.
  function At(b: Byte, k: Word): Word
    requires k < 32
  {
    (b as Word) << k
  }

  lemma AtZero(k: Word)
    requires k < 32
    ensures At(0, k) == 0
  {}

  // A 32-bit load on a little-endian machine.
  function Le32(b0: Byte, b1: Byte, b2: Byte, b3: Byte): Word
  {
    ((b0 as Word) << 0) | ((b1 as Word) << 8) | ((b2 as Word) << 16) | ((b3 as Word) << 24)
  }

  // A 16-bit load on a little-endian machine.
  function Le16(b0: Byte, b1: Byte): bv16
  {
    (b0 as bv16) | ((b1 as bv16) << 8)
  }

  // A 16-bit load widened and moved to the low or the high half.
  function Low(h: bv16): Word { h as Word }
  function High(h: bv16): Word { (h as Word) << 16 }

  // The shifted bytes share no bit, so or-ing them is adding them.
  lemma Le32ShiftSum(b0: Byte, b1: Byte, b2: Byte, b3: Byte)
    ensures ((b0 as Word) << 0) + ((b1 as Word) << 8) + ((b2 as Word) << 16) + ((b3 as Word) << 24) == Le32(b0, b1, b2, b3)
  {}

  lemma Le32AddSum(b0: Byte, b1: Byte, b2: Byte, b3: Byte)
    ensures Add(Add(Add((b0 as Word) << 0, (b1 as Word) << 8), (b2 as Word) << 16), (b3 as Word) << 24) == Le32(b0, b1, b2, b3)
  {
    hide Le32;
    Le32ShiftSum(b0, b1, b2, b3);
  }

  lemma Le32Sum(b0: Byte, b1: Byte, b2: Byte, b3: Byte)
    ensures Le32(b0, b1, b2, b3) == Add(Add(Add(At(b0, 0), At(b1, 8)), At(b2, 16)), At(b3, 24))
  {
    hide Add; hide Le32;
    Le32AddSum(b0, b1, b2, b3);
  }

  lemma Le16Sum(b0: Byte, b1: Byte)
    ensures Low(Le16(b0, b1)) == Add(At(b0, 0), At(b1, 8))
    ensures High(Le16(b0, b1)) == Add(At(b0, 16), At(b1, 24))
  {}

  lemma Le32Injective(b0: Byte, b1: Byte, b2: Byte, b3: Byte, d0: Byte, d1: Byte, d2: Byte, d3: Byte)
    requires Le32(b0, b1, b2, b3) == Le32(d0, d1, d2, d3)
    ensures b0 == d0 && b1 == d1 && b2 == d2 && b3 == d3
  {}

  // Adding bytes one at a time, low byte first, adds the whole word.
  lemma LowFirst(x: Word, b0: Byte, b1: Byte, b2: Byte, b3: Byte)
    ensures Add(Add(Add(Add(x, At(b0, 0)), At(b1, 8)), At(b2, 16)), At(b3, 24)) == Add(x, Le32(b0, b1, b2, b3))
  {
    hide *;
    Le32Sum(b0, b1, b2, b3);
    var (p, q, r, s) := (At(b0, 0), At(b1, 8), At(b2, 16), At(b3, 24));
    AddAssoc(x, p, q);
    AddAssoc(x, Add(p, q), r);
    AddAssoc(x, Add(Add(p, q), r), s);
  }

  // ... and so does adding them high byte first.
  lemma HighFirst(x: Word, b0: Byte, b1: Byte, b2: Byte, b3: Byte)
    ensures Add(Add(Add(Add(x, At(b3, 24)), At(b2, 16)), At(b1, 8)), At(b0, 0)) == Add(x, Le32(b0, b1, b2, b3))
  {
    hide *;
    Le32Sum(b0, b1, b2, b3);
    var (p, q, r, s) := (At(b0, 0), At(b1, 8), At(b2, 16), At(b3, 24));
    AddAssoc(x, s, r);
    AddAssoc(x, Add(s, r), q);
    AddAssoc(x, Add(Add(s, r), q), p);
    AddComm(s, r);
    AddComm(Add(r, s), q);
    AddAssoc(q, r, s);
    AddComm(Add(Add(q, r), s), p);
    AddAssoc(p, Add(q, r), s);
    AddAssoc(p, q, r);
  }

  // Adding two half words adds the whole word.
  lemma HalvesFirst(x: Word, b0: Byte, b1: Byte, b2: Byte, b3: Byte)
    ensures Add(x, Add(Low(Le16(b0, b1)), High(Le16(b2, b3)))) == Add(x, Le32(b0, b1, b2, b3))
  {
    hide *;
    Le32Sum(b0, b1, b2, b3);
    Le16Sum(b0, b1);
    Le16Sum(b2, b3);
    AddAssoc(Add(At(b0, 0), At(b1, 8)), At(b2, 16), At(b3, 24));
  }

  // ---------- the digest all read widths must compute ----------

  // Byte i of the key, with zero bytes after its end.
  function Padded(key: seq<Byte>, i: nat): Byte
  {
    if i < |key| then key[i] else 0
  }

  function Load(big: bool, key: seq<Byte>, i: nat): Word
  {
    if big
    then Le32(Padded(key, i + 3), Padded(key, i + 2), Padded(key, i + 1), Padded(key, i))
    else Le32(Padded(key, i), Padded(key, i + 1), Padded(key, i + 2), Padded(key, i + 3))
  }

  function AddBlock(big: bool, key: seq<Byte>, s: State): State
  {
    State(Add(s.a, Load(big, key, 0)), Add(s.b, Load(big, key, 4)), Add(s.c, Load(big, key, 8)))
  }

  // The internal triple after the whole key: every block of twelve bytes is
  // added and mixed, the last one (one to twelve bytes) is added and finished.
  function Triple(big: bool, key: seq<Byte>, s: State): State
  {
    if |key| > 12 then Triple(big, key[12..], Mix(AddBlock(big, key, s)))
    else if |key| == 0 then s
    else Final(AddBlock(big, key, s))
  }

  function Start(length: nat, base: Word): State
  {
    var w := Add(Add(0xdeadbeef, (length % 0x1_0000_0000) as Word), base);
    State(w, w, w)
  }

  function Digest(big: bool, key: seq<Byte>, base: Word): Digests
  {
    var t := Triple(big, key, Start(|key|, base));
    Digests(t.c, if |key| == 0 then base else t.b)
  }

  // A zero byte adds nothing.
  lemma ZeroByte(k: Word)
    requires k < 32
    ensures forall x: Word {:trigger Add(x, At(0, k))} :: Add(x, At(0, k)) == x
  {
    hide *;
    AtZero(k);
    forall x: Word ensures Add(x, At(0, k)) == x { AddZero(x); }
  }

  lemma ZeroBytes()
    ensures forall x: Word {:trigger Add(x, At(0, 0))} :: Add(x, At(0, 0)) == x
    ensures forall x: Word {:trigger Add(x, At(0, 8))} :: Add(x, At(0, 8)) == x
    ensures forall x: Word {:trigger Add(x, At(0, 16))} :: Add(x, At(0, 16)) == x
    ensures forall x: Word {:trigger Add(x, At(0, 24))} :: Add(x, At(0, 24)) == x
  {
    hide *;
    ZeroByte(0);
    ZeroByte(8);
    ZeroByte(16);
    ZeroByte(24);
  }

  // ---------- hashlittle, one byte at a time (lib/hash.c:299-340) ----------

  method LittleBytes(key: seq<Byte>, base: Word) returns (d: Digests)
    ensures d == Digest(false, key, base)
  {
    hide Add; hide At; hide Le32; hide Mix; hide Final; hide Start;
    var s0 := Start(|key|, base);
    var a, b, c := s0.a, s0.b, s0.c;
    var k, length := 0, |key|;
    while length > 12
      invariant 0 <= length && 0 <= k && k + length == |key| && (length == 0 ==> key == [])
      invariant Triple(false, key[k..], State(a, b, c)) == Triple(false, key, s0)
    {
      LowFirst(a, key[k], key[k + 1], key[k + 2], key[k + 3]);
      LowFirst(b, key[k + 4], key[k + 5], key[k + 6], key[k + 7]);
      LowFirst(c, key[k + 8], key[k + 9], key[k + 10], key[k + 11]);
      ghost var before := State(a, b, c);
      a := Add(a, At(key[k], 0));
      a := Add(a, At(key[k + 1], 8));
      a := Add(a, At(key[k + 2], 16));
      a := Add(a, At(key[k + 3], 24));
      b := Add(b, At(key[k + 4], 0));
      b := Add(b, At(key[k + 5], 8));
      b := Add(b, At(key[k + 6], 16));
      b := Add(b, At(key[k + 7], 24));
      c := Add(c, At(key[k + 8], 0));
      c := Add(c, At(key[k + 9], 8));
      c := Add(c, At(key[k + 10], 16));
      c := Add(c, At(key[k + 11], 24));
      assert State(a, b, c) == AddBlock(false, key[k..], before);
      var m := Mix(State(a, b, c));
      a, b, c := m.a, m.b, m.c;
      assert key[k..][12..] == key[k + 12..];
      length, k := length - 12, k + 12;
    }
    if length == 0 {
      return Digests(c, base);
    }
    ghost var rest, before := key[k..], State(a, b, c);
    ZeroBytes();
    HighFirst(a, Padded(rest, 0), Padded(rest, 1), Padded(rest, 2), Padded(rest, 3));
    HighFirst(b, Padded(rest, 4), Padded(rest, 5), Padded(rest, 6), Padded(rest, 7));
    HighFirst(c, Padded(rest, 8), Padded(rest, 9), Padded(rest, 10), Padded(rest, 11));
    // the cases of the switch fall through
    if length >= 12 { c := Add(c, At(key[k + 11], 24)); }
    if length >= 11 { c := Add(c, At(key[k + 10], 16)); }
    if length >= 10 { c := Add(c, At(key[k + 9], 8)); }
    if length >= 9 { c := Add(c, At(key[k + 8], 0)); }
    if length >= 8 { b := Add(b, At(key[k + 7], 24)); }
    if length >= 7 { b := Add(b, At(key[k + 6], 16)); }
    if length >= 6 { b := Add(b, At(key[k + 5], 8)); }
    if length >= 5 { b := Add(b, At(key[k + 4], 0)); }
    if length >= 4 { a := Add(a, At(key[k + 3], 24)); }
    if length >= 3 { a := Add(a, At(key[k + 2], 16)); }
    if length >= 2 { a := Add(a, At(key[k + 1], 8)); }
    a := Add(a, At(key[k], 0));
    assert State(a, b, c) == AddBlock(false, rest, before);
    var f := Final(State(a, b, c));
    return Digests(f.c, f.b);
  }

  // ---------- hashlittle, sixteen bits at a time (lib/hash.c:252-297) ----------

  // k[i] of a uint16_t pointer, the pair of them that makes up a word
  function Half(key: seq<Byte>, i: nat): bv16
    requires i + 1 < |key|
  {
    Le16(key[i], key[i + 1])
  }

  function TwoHalves(key: seq<Byte>, i: nat): Word
    requires i + 3 < |key|
  {
    Add(Low(Half(key, i)), High(Half(key, i + 2)))
  }

  method LittleHalves(key: seq<Byte>, base: Word) returns (d: Digests)
    ensures d == Digest(false, key, base)
  {
    hide Add; hide At; hide Le32; hide Le16; hide Low; hide High; hide Mix; hide Final; hide Start;
    var s0 := Start(|key|, base);
    var a, b, c := s0.a, s0.b, s0.c;
    var k, length := 0, |key|;
    while length > 12
      invariant 0 <= length && 0 <= k && k + length == |key| && (length == 0 ==> key == [])
      invariant Triple(false, key[k..], State(a, b, c)) == Triple(false, key, s0)
    {
      HalvesFirst(a, key[k], key[k + 1], key[k + 2], key[k + 3]);
      HalvesFirst(b, key[k + 4], key[k + 5], key[k + 6], key[k + 7]);
      HalvesFirst(c, key[k + 8], key[k + 9], key[k + 10], key[k + 11]);
      ghost var before := State(a, b, c);
      a := Add(a, TwoHalves(key, k));
      b := Add(b, TwoHalves(key, k + 4));
      c := Add(c, TwoHalves(key, k + 8));
      assert State(a, b, c) == AddBlock(false, key[k..], before);
      var m := Mix(State(a, b, c));
      a, b, c := m.a, m.b, m.c;
      assert key[k..][12..] == key[k + 12..];
      length, k := length - 12, k + 12;
    }
    if length == 0 {
      return Digests(c, base);
    }
    ghost var rest, before := key[k..], State(a, b, c);
    ZeroBytes();
    TailHalves(a, rest, 0);
    TailHalves(b, rest, 4);
    TailHalves(c, rest, 8);
    if length == 12 {
      c := Add(c, TwoHalves(key, k + 8));
      b := Add(b, TwoHalves(key, k + 4));
      a := Add(a, TwoHalves(key, k));
    } else if length >= 10 {
      if length == 11 { c := Add(c, At(key[k + 10], 16)); }
      c := Add(c, Low(Half(key, k + 8)));
      b := Add(b, TwoHalves(key, k + 4));
      a := Add(a, TwoHalves(key, k));
    } else if length >= 8 {
      if length == 9 { c := Add(c, At(key[k + 8], 0)); }
      b := Add(b, TwoHalves(key, k + 4));
      a := Add(a, TwoHalves(key, k));
    } else if length >= 6 {
      if length == 7 { b := Add(b, At(key[k + 6], 16)); }
      b := Add(b, Low(Half(key, k + 4)));
      a := Add(a, TwoHalves(key, k));
    } else if length >= 4 {
      if length == 5 { b := Add(b, At(key[k + 4], 0)); }
      a := Add(a, TwoHalves(key, k));
    } else if length >= 2 {
      if length == 3 { a := Add(a, At(key[k + 2], 16)); }
      a := Add(a, Low(Half(key, k)));
    } else {
      a := Add(a, At(key[k], 0));
    }
    assert State(a, b, c) == AddBlock(false, rest, before);
    var f := Final(State(a, b, c));
    return Digests(f.c, f.b);
  }

  // What the last, partial word adds when it is read in half words.
  lemma TailHalves(x: Word, rest: seq<Byte>, i: nat)
    ensures i + 3 < |rest| ==> Add(x, TwoHalves(rest, i)) == Add(x, Load(false, rest, i))
    ensures i + 3 == |rest| ==> Add(Add(x, At(rest[i + 2], 16)), Low(Half(rest, i))) == Add(x, Load(false, rest, i))
    ensures i + 2 == |rest| ==> Add(x, Low(Half(rest, i))) == Add(x, Load(false, rest, i))
    ensures i + 1 == |rest| ==> Add(x, At(rest[i], 0)) == Add(x, Load(false, rest, i))
    ensures i >= |rest| ==> x == Add(x, Load(false, rest, i))
  {
    hide Add; hide At; hide Le32; hide Le16; hide Low; hide High;
    var (b0, b1, b2, b3) := (Padded(rest, i), Padded(rest, i + 1), Padded(rest, i + 2), Padded(rest, i + 3));
    ZeroBytes();
    HighFirst(x, b0, b1, b2, b3);
    HalvesFirst(x, b0, b1, b2, b3);
    Le16Sum(b0, b1);
    AddAssoc(x, At(b2, 16), Add(At(b0, 0), At(b1, 8)));
    AddComm(At(b2, 16), Add(At(b0, 0), At(b1, 8)));
    Le32Sum(b0, b1, b2, b3);
  }

  // ---------- hashlittle, thirty-two bits at a time (lib/hash.c:185-250) ----------

  // k[i / 4] of a uint32_t pointer
  function LittleWord(key: seq<Byte>, i: nat): Word
    requires i + 3 < |key|
  {
    Le32(key[i], key[i + 1], key[i + 2], key[i + 3])
  }

  method LittleWords(key: seq<Byte>, base: Word) returns (d: Digests)
    ensures d == Digest(false, key, base)
  {
    hide Add; hide At; hide Le32; hide Le16; hide Low; hide High; hide Mix; hide Final; hide Start;
    var s0 := Start(|key|, base);
    var a, b, c := s0.a, s0.b, s0.c;
    var k, length := 0, |key|;
    while length > 12
      invariant 0 <= length && 0 <= k && k + length == |key| && (length == 0 ==> key == [])
      invariant Triple(false, key[k..], State(a, b, c)) == Triple(false, key, s0)
    {
      ghost var before := State(a, b, c);
      a := Add(a, LittleWord(key, k));
      b := Add(b, LittleWord(key, k + 4));
      c := Add(c, LittleWord(key, k + 8));
      assert State(a, b, c) == AddBlock(false, key[k..], before);
      var m := Mix(State(a, b, c));
      a, b, c := m.a, m.b, m.c;
      assert key[k..][12..] == key[k + 12..];
      length, k := length - 12, k + 12;
    }
    if length == 0 {
      return Digests(c, base);
    }
    ghost var rest, before := key[k..], State(a, b, c);
    ZeroBytes();
    HighFirst(a, Padded(rest, 0), Padded(rest, 1), Padded(rest, 2), Padded(rest, 3));
    HighFirst(b, Padded(rest, 4), Padded(rest, 5), Padded(rest, 6), Padded(rest, 7));
    HighFirst(c, Padded(rest, 8), Padded(rest, 9), Padded(rest, 10), Padded(rest, 11));
    if length == 12 {
      c := Add(c, LittleWord(key, k + 8));
      b := Add(b, LittleWord(key, k + 4));
      a := Add(a, LittleWord(key, k));
    } else if length >= 8 {
      if length >= 11 { c := Add(c, At(key[k + 10], 16)); }
      if length >= 10 { c := Add(c, At(key[k + 9], 8)); }
      if length >= 9 { c := Add(c, At(key[k + 8], 0)); }
      b := Add(b, LittleWord(key, k + 4));
      a := Add(a, LittleWord(key, k));
    } else if length >= 4 {
      if length >= 7 { b := Add(b, At(key[k + 6], 16)); }
      if length >= 6 { b := Add(b, At(key[k + 5], 8)); }
      if length >= 5 { b := Add(b, At(key[k + 4], 0)); }
      a := Add(a, LittleWord(key, k));
    } else {
      if length >= 3 { a := Add(a, At(key[k + 2], 16)); }
      if length >= 2 { a := Add(a, At(key[k + 1], 8)); }
      a := Add(a, At(key[k], 0));
    }
    assert State(a, b, c) == AddBlock(false, rest, before);
    var f := Final(State(a, b, c));
    return Digests(f.c, f.b);
  }

  // hashlittle: the width is chosen by the address of the key on a
  // little-endian machine, bytes are read everywhere else.
  method HashLittle(littleEndian: bool, address: nat, key: seq<Byte>, base: Word) returns (d: Digests)
    ensures d == Digest(false, key, base)
  {
    if littleEndian && address % 4 == 0 {
      d := LittleWords(key, base);
    } else if littleEndian && address % 2 == 0 {
      d := LittleHalves(key, base);
    } else {
      d := LittleBytes(key, base);
    }
  }

  // ---------- hashbig (lib/hash.c:353-475) ----------

  method BigBytes(key: seq<Byte>, base: Word) returns (d: Digests)
    ensures d == Digest(true, key, base)
  {
    hide Add; hide At; hide Le32; hide Le16; hide Low; hide High; hide Mix; hide Final; hide Start;
    var s0 := Start(|key|, base);
    var a, b, c := s0.a, s0.b, s0.c;
    var k, length := 0, |key|;
    while length > 12
      invariant 0 <= length && 0 <= k && k + length == |key| && (length == 0 ==> key == [])
      invariant Triple(true, key[k..], State(a, b, c)) == Triple(true, key, s0)
    {
      HighFirst(a, key[k + 3], key[k + 2], key[k + 1], key[k]);
      HighFirst(b, key[k + 7], key[k + 6], key[k + 5], key[k + 4]);
      HighFirst(c, key[k + 11], key[k + 10], key[k + 9], key[k + 8]);
      ghost var before := State(a, b, c);
      a := Add(a, At(key[k], 24));
      a := Add(a, At(key[k + 1], 16));
      a := Add(a, At(key[k + 2], 8));
      a := Add(a, At(key[k + 3], 0));
      b := Add(b, At(key[k + 4], 24));
      b := Add(b, At(key[k + 5], 16));
      b := Add(b, At(key[k + 6], 8));
      b := Add(b, At(key[k + 7], 0));
      c := Add(c, At(key[k + 8], 24));
      c := Add(c, At(key[k + 9], 16));
      c := Add(c, At(key[k + 10], 8));
      c := Add(c, At(key[k + 11], 0));
      assert State(a, b, c) == AddBlock(true, key[k..], before);
      var m := Mix(State(a, b, c));
      a, b, c := m.a, m.b, m.c;
      assert key[k..][12..] == key[k + 12..];
      length, k := length - 12, k + 12;
    }
    if length == 0 {
      return Digests(c, base);
    }
    ghost var rest, before := key[k..], State(a, b, c);
    ZeroBytes();
    LowFirst(a, Padded(rest, 3), Padded(rest, 2), Padded(rest, 1), Padded(rest, 0));
    LowFirst(b, Padded(rest, 7), Padded(rest, 6), Padded(rest, 5), Padded(rest, 4));
    LowFirst(c, Padded(rest, 11), Padded(rest, 10), Padded(rest, 9), Padded(rest, 8));
    if length >= 12 { c := Add(c, At(key[k + 11], 0)); }
    if length >= 11 { c := Add(c, At(key[k + 10], 8)); }
    if length >= 10 { c := Add(c, At(key[k + 9], 16)); }
    if length >= 9 { c := Add(c, At(key[k + 8], 24)); }
    if length >= 8 { b := Add(b, At(key[k + 7], 0)); }
    if length >= 7 { b := Add(b, At(key[k + 6], 8)); }
    if length >= 6 { b := Add(b, At(key[k + 5], 16)); }
    if length >= 5 { b := Add(b, At(key[k + 4], 24)); }
    if length >= 4 { a := Add(a, At(key[k + 3], 0)); }
    if length >= 3 { a := Add(a, At(key[k + 2], 8)); }
    if length >= 2 { a := Add(a, At(key[k + 1], 16)); }
    a := Add(a, At(key[k], 24));
    assert State(a, b, c) == AddBlock(true, rest, before);
    var f := Final(State(a, b, c));
    return Digests(f.c, f.b);
  }

  // k[i / 4] of a uint32_t pointer on a big-endian machine
  function BigWord(key: seq<Byte>, i: nat): Word
    requires i + 3 < |key|
  {
    Le32(key[i + 3], key[i + 2], key[i + 1], key[i])
  }

  method BigWords(key: seq<Byte>, base: Word) returns (d: Digests)
    ensures d == Digest(true, key, base)
  {
    hide Add; hide At; hide Le32; hide Le16; hide Low; hide High; hide Mix; hide Final; hide Start;
    var s0 := Start(|key|, base);
    var a, b, c := s0.a, s0.b, s0.c;
    var k, length := 0, |key|;
    while length > 12
      invariant 0 <= length && 0 <= k && k + length == |key| && (length == 0 ==> key == [])
      invariant Triple(true, key[k..], State(a, b, c)) == Triple(true, key, s0)
    {
      ghost var before := State(a, b, c);
      a := Add(a, BigWord(key, k));
      b := Add(b, BigWord(key, k + 4));
      c := Add(c, BigWord(key, k + 8));
      assert State(a, b, c) == AddBlock(true, key[k..], before);
      var m := Mix(State(a, b, c));
      a, b, c := m.a, m.b, m.c;
      assert key[k..][12..] == key[k + 12..];
      length, k := length - 12, k + 12;
    }
    if length == 0 {
      return Digests(c, base);
    }
    ghost var rest, before := key[k..], State(a, b, c);
    ZeroBytes();
    LowFirst(a, Padded(rest, 3), Padded(rest, 2), Padded(rest, 1), Padded(rest, 0));
    LowFirst(b, Padded(rest, 7), Padded(rest, 6), Padded(rest, 5), Padded(rest, 4));
    LowFirst(c, Padded(rest, 11), Padded(rest, 10), Padded(rest, 9), Padded(rest, 8));
    if length == 12 {
      c := Add(c, BigWord(key, k + 8));
      b := Add(b, BigWord(key, k + 4));
      a := Add(a, BigWord(key, k));
    } else if length >= 8 {
      if length >= 11 { c := Add(c, At(key[k + 10], 8)); }
      if length >= 10 { c := Add(c, At(key[k + 9], 16)); }
      if length >= 9 { c := Add(c, At(key[k + 8], 24)); }
      b := Add(b, BigWord(key, k + 4));
      a := Add(a, BigWord(key, k));
    } else if length >= 4 {
      if length >= 7 { b := Add(b, At(key[k + 6], 8)); }
      if length >= 6 { b := Add(b, At(key[k + 5], 16)); }
      if length >= 5 { b := Add(b, At(key[k + 4], 24)); }
      a := Add(a, BigWord(key, k));
    } else {
      if length >= 3 { a := Add(a, At(key[k + 2], 8)); }
      if length >= 2 { a := Add(a, At(key[k + 1], 16)); }
      a := Add(a, At(key[k], 24));
    }
    assert State(a, b, c) == AddBlock(true, rest, before);
    var f := Final(State(a, b, c));
    return Digests(f.c, f.b);
  }

  method HashBig(bigEndian: bool, address: nat, key: seq<Byte>, base: Word) returns (d: Digests)
    ensures d == Digest(true, key, base)
  {
    if bigEndian && address % 4 == 0 {
      d := BigWords(key, base);
    } else {
      d := BigBytes(key, base);
    }
  }

  // nl_hash_any: neither the machine's word size nor the address of the key
  // shows in the result.
  method HashAny(bigEndian: bool, address: nat, key: seq<Byte>, base: Word) returns (h: Word)
    ensures h == Digest(bigEndian, key, base).primary
  {
    var d: Digests;
    if bigEndian {
      d := HashBig(true, address, key, base);
    } else {
      d := HashLittle(true, address, key, base);
    }
    return d.primary;
  }

  // ---------- no two keys that differ in one block collide internally ----------

  lemma MixInjective(s: State, t: State)
    requires Mix(s) == Mix(t)
    ensures s == t
  {
    hide *;
    MixReversible(s);
    MixReversible(t);
  }

  lemma FinalInjective(s: State, t: State)
    requires Final(s) == Final(t)
    ensures s == t
  {
    hide *;
    FinalReversible(s);
    FinalReversible(t);
  }

  // A difference in the state survives any further blocks.
  lemma {:induction false} DifferenceSurvives(big: bool, key: seq<Byte>, s: State, t: State)
    requires s != t
    ensures Triple(big, key, s) != Triple(big, key, t)
    decreases |key|
  {
    hide Add; hide Mix; hide Final; hide Load;
    var s', t' := AddBlock(big, key, s), AddBlock(big, key, t);
    if s' == t' {
      AddCancel(s.a, t.a, Load(big, key, 0));
      AddCancel(s.b, t.b, Load(big, key, 4));
      AddCancel(s.c, t.c, Load(big, key, 8));
    }
    if |key| > 12 {
      if Mix(s') == Mix(t') { MixInjective(s', t'); }
      DifferenceSurvives(big, key[12..], Mix(s'), Mix(t'));
    } else if |key| > 0 {
      if Final(s') == Final(t') { FinalInjective(s', t'); }
    }
  }

  // Two different first blocks leave different states.
  lemma BlockInjective(big: bool, k1: seq<Byte>, k2: seq<Byte>, s: State)
    requires |k1| == |k2|
    requires AddBlock(big, k1, s) == AddBlock(big, k2, s)
    ensures forall i :: 0 <= i < 12 && i < |k1| ==> k1[i] == k2[i]
  {
    hide Add; hide Le32;
    LoadInjective(big, k1, k2, 0, s.a);
    LoadInjective(big, k1, k2, 4, s.b);
    LoadInjective(big, k1, k2, 8, s.c);
    forall i | 0 <= i < 12 && i < |k1| ensures k1[i] == k2[i] {
      assert Padded(k1, i) == Padded(k2, i);
    }
  }

  lemma LoadInjective(big: bool, k1: seq<Byte>, k2: seq<Byte>, i: nat, x: Word)
    requires Add(x, Load(big, k1, i)) == Add(x, Load(big, k2, i))
    ensures forall j :: i <= j < i + 4 ==> Padded(k1, j) == Padded(k2, j)
  {
    hide Add; hide Le32; hide Padded;
    AddComm(x, Load(big, k1, i));
    AddComm(x, Load(big, k2, i));
    AddCancel(Load(big, k1, i), Load(big, k2, i), x);
    if big {
      Le32Injective(Padded(k1, i + 3), Padded(k1, i + 2), Padded(k1, i + 1), Padded(k1, i),
                    Padded(k2, i + 3), Padded(k2, i + 2), Padded(k2, i + 1), Padded(k2, i));
    } else {
      Le32Injective(Padded(k1, i), Padded(k1, i + 1), Padded(k1, i + 2), Padded(k1, i + 3),
                    Padded(k2, i), Padded(k2, i + 1), Padded(k2, i + 2), Padded(k2, i + 3));
    }
  }

  // Keys of one length that agree outside block j, and only there differ, are
  // kept apart by the internal triple.
  lemma {:induction false} OneBlockApart(big: bool, k1: seq<Byte>, k2: seq<Byte>, s: State, j: nat)
    requires |k1| == |k2| && k1 != k2
    requires forall i :: 0 <= i < |k1| && i / 12 != j ==> k1[i] == k2[i]
    ensures Triple(big, k1, s) != Triple(big, k2, s)
    decreases j
  {
    hide Add; hide Mix; hide Final; hide Load;
    var s1, s2 := AddBlock(big, k1, s), AddBlock(big, k2, s);
    var i :| 0 <= i < |k1| && k1[i] != k2[i];
    if j == 0 {
      if s1 == s2 { BlockInjective(big, k1, k2, s); }
      if |k1| > 12 {
        assert k1[12..] == k2[12..];
        if Mix(s1) == Mix(s2) { MixInjective(s1, s2); }
        DifferenceSurvives(big, k1[12..], Mix(s1), Mix(s2));
      } else {
        if Final(s1) == Final(s2) { FinalInjective(s1, s2); }
      }
    } else {
      SameBlock(big, k1, k2, s);
      var r1, r2 := k1[12..], k2[12..];
      assert r1[i - 12] != r2[i - 12];
      forall i | 0 <= i < |r1| && i / 12 != j - 1 ensures r1[i] == r2[i] {
        assert (i + 12) / 12 == i / 12 + 1;
      }
      OneBlockApart(big, r1, r2, Mix(s1), j - 1);
    }
  }

  lemma SameBlock(big: bool, k1: seq<Byte>, k2: seq<Byte>, s: State)
    requires |k1| == |k2|
    requires forall i :: 0 <= i < 12 && i < |k1| ==> k1[i] == k2[i]
    ensures AddBlock(big, k1, s) == AddBlock(big, k2, s)
  {
    hide Add; hide Le32;
    assert forall i :: 0 <= i < 12 ==> Padded(k1, i) == Padded(k2, i);
  }
}
