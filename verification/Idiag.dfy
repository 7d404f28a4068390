// The one hashed object type of lib/idiag/idiag_msg_obj.c: its id attributes
// (:938-958) and its key generator (:901-936).

module Idiag {
  import opened Types
  import opened Objects
  import opened JenkinsHash
  import opened Addresses

  // IDIAGNL_ATTR_*: bit positions in the mask
  const FAMILY: Attr := 1
  const SPORT: Attr := 5
  const DPORT: Attr := 6
  const SRC: Attr := 7
  const DST: Attr := 8

  const ID_ATTRS: set<Attr> := {FAMILY, SRC, DST, SPORT, DPORT}

  // idiagnl_compare has a term for every attribute (:867-899).
  const COMPARED: set<Attr> := set attr: Attr | 1 <= attr <= 22

  // An address as an attribute's value.  nl_addr_cmp looks at the prefix
  // length only when there are bytes.
  function AddrValue(family: bv8, prefixlen: bv8, bytes: seq<bv8>): Value
  {
    if bytes == [] then [family] else [family, prefixlen] + bytes
  }

  function AddrBytes(v: Value): seq<bv8>
  {
    if |v| <= 2 then [] else v[2..]
  }

  // Values are equal exactly when nl_addr_cmp is zero.
  lemma AddrValueIffCmp(f: bv8, p: bv8, bytes: seq<bv8>, f': bv8, p': bv8, bytes': seq<bv8>)
    ensures AddrValue(f, p, bytes) == AddrValue(f', p', bytes')
            <==> Cmp(Addr(Num(f), bytes, Num(p)), Addr(Num(f'), bytes', Num(p'))) == 0
  {
    hide Num;
    var v, v' := AddrValue(f, p, bytes), AddrValue(f', p', bytes');
    CmpZero(Addr(Num(f), bytes, Num(p)), Addr(Num(f'), bytes', Num(p')));
    NumInjective(f, f');
    NumInjective(p, p');
    if v == v' {
      assert v[0] == f && v'[0] == f';
      if bytes != [] {
        assert v[2..] == bytes && v'[2..] == bytes' && v[1] == p && v'[1] == p';
      }
    }
  }

  // The value of an attribute, or what calloc left in its place.
  function Field(d: Data, attr: Attr): Value
  {
    if attr in d.attrs then d.attrs[attr] else []
  }

  // A 32-bit word in memory
  function WordBytes(big: bool, w: Word): seq<Byte>
  {
    var b0, b1, b2, b3 := (w & 0xFF) as Byte, ((w >> 8) & 0xFF) as Byte, ((w >> 16) & 0xFF) as Byte, ((w >> 24) & 0xFF) as Byte;
    if big then [b3, b2, b1, b0] else [b0, b1, b2, b3]
  }

  // The hash of an address, or zero without one
  function AddrHash(big: bool, d: Data, attr: Attr): Word
  {
    if attr in d.attrs then Digest(big, AddrBytes(d.attrs[attr]), 0).primary else 0
  }

  function PortBytes(d: Data, attr: Attr): seq<Byte>
  {
    [Padded(Field(d, attr), 0), Padded(Field(d, attr), 1)]
  }

  // struct idiagnl_hash_key, packed
  function PackedKey(big: bool, d: Data): (key: seq<Byte>)
    ensures |key| == 13
  {
    [Padded(Field(d, FAMILY), 0)]
    + WordBytes(big, AddrHash(big, d, SRC)) + WordBytes(big, AddrHash(big, d, DST))
    + PortBytes(d, SPORT) + PortBytes(d, DPORT)
  }

  function IdiagKey(big: bool, d: Data, size: nat): nat
  {
    if size == 0 then 0 else Digest(big, PackedKey(big, d), 0).primary as nat % size
  }

  // Where malloc and the stack happened to put the three hashed areas
  datatype Places = Places(src: nat, dst: nat, key: nat)

  // idiagnl_keygen.  The key does not depend on where the object's addresses
  // and the packed key lie in memory.
  method IdiagKeygen(big: bool, d: Data, size: nat, at: Places) returns (hashkey: nat)
    requires size > 0
    ensures hashkey == IdiagKey(big, d, size)
  {
    hide Digest; hide WordBytes; hide Padded; hide AddrBytes;
    var srcHash, dstHash: Word := 0, 0;
    if SRC in d.attrs {
      srcHash := HashAny(big, at.src, AddrBytes(d.attrs[SRC]), 0);
    }
    if DST in d.attrs {
      dstHash := HashAny(big, at.dst, AddrBytes(d.attrs[DST]), 0);
    }
    var key := [Padded(Field(d, FAMILY), 0)] + WordBytes(big, srcHash) + WordBytes(big, dstHash)
               + PortBytes(d, SPORT) + PortBytes(d, DPORT);
    var h := HashAny(big, at.key, key, 0);
    hashkey := h as nat % size;
  }

  // idiagnl_msg_obj_ops, as far as identity and keys go
  ghost predicate IsIdiag(ops: ObjectOps, big: bool)
  {
    && ops.comparable && ops.hashes && ops.compares == COMPARED
    && (forall d :: ops.idAttrs(d) == Listed(ID_ATTRS))
    && (forall d, size :: ops.keygen(d, size) == IdiagKey(big, d, size))
  }

  method IdiagOps(big: bool) returns (ops: ObjectOps)
    ensures fresh(ops) && IsIdiag(ops, big)
  {
    ops := new ObjectOps(d => Listed(ID_ATTRS), true, COMPARED, (attr, a, b) => false, true, (d, size) => IdiagKey(big, d, size));
  }

  // Objects with the same identity get the same key.
  lemma SameIdentitySameKey(ops: ObjectOps, big: bool, a: Data, b: Data, size: nat)
    requires IsIdiag(ops, big) && Identical(ops, a, b)
    ensures ops.keygen(a, size) == ops.keygen(b, size)
  {
    hide Digest; hide WordBytes; hide Padded; hide AddrBytes;
    forall attr | attr in ID_ATTRS ensures attr in a.attrs && attr in b.attrs && a.attrs[attr] == b.attrs[attr] {
      assert !Mismatch(a, b, attr);
    }
    assert PackedKey(big, a) == PackedKey(big, b);
  }

  // The hashed bytes tell objects apart that differ in family, ports or the
  // hashes of their addresses.
  lemma PackedApart(big: bool, a: Data, b: Data)
    ensures PackedKey(big, a) == PackedKey(big, b) <==>
      && Padded(Field(a, 1), 0) == Padded(Field(b, 1), 0)
      && AddrHash(big, a, 7) == AddrHash(big, b, 7) && AddrHash(big, a, 8) == AddrHash(big, b, 8)
      && PortBytes(a, 5) == PortBytes(b, 5) && PortBytes(a, 6) == PortBytes(b, 6)
  {
    hide Padded; hide AddrHash; hide WordBytes; hide PortBytes; hide Field;
    Parts(big, a);
    Parts(big, b);
    WordBytesApart(big, AddrHash(big, a, SRC), AddrHash(big, b, SRC));
    WordBytesApart(big, AddrHash(big, a, DST), AddrHash(big, b, DST));
  }

  lemma Parts(big: bool, d: Data)
    ensures var key := PackedKey(big, d);
            && key[..1] == [Padded(Field(d, FAMILY), 0)]
            && key[1..5] == WordBytes(big, AddrHash(big, d, SRC)) && key[5..9] == WordBytes(big, AddrHash(big, d, DST))
            && key[9..11] == PortBytes(d, SPORT) && key[11..] == PortBytes(d, DPORT)
            && key == key[..1] + key[1..5] + key[5..9] + key[9..11] + key[11..]
  {
    var a, b, c := [Padded(Field(d, FAMILY), 0)], WordBytes(big, AddrHash(big, d, SRC)), WordBytes(big, AddrHash(big, d, DST));
    Slices(a, b, c, PortBytes(d, SPORT), PortBytes(d, DPORT));
  }

  lemma Slices(a: seq<Byte>, b: seq<Byte>, c: seq<Byte>, d: seq<Byte>, e: seq<Byte>)
    requires |a| == 1 && |b| == |c| == 4 && |d| == |e| == 2
    ensures var s := a + b + c + d + e;
            s[..1] == a && s[1..5] == b && s[5..9] == c && s[9..11] == d && s[11..] == e
  {}

  lemma WordBytesApart(big: bool, x: Word, y: Word)
    ensures WordBytes(big, x) == WordBytes(big, y) <==> x == y
  {
    var u, v := WordBytes(big, x), WordBytes(big, y);
    if u == v {
      assert u[0] == v[0] && u[1] == v[1] && u[2] == v[2] && u[3] == v[3];
      ByteAt(x, y);
    }
  }

  lemma ByteAt(x: Word, y: Word)
    requires (x & 0xFF) as Byte == (y & 0xFF) as Byte && ((x >> 8) & 0xFF) as Byte == ((y >> 8) & 0xFF) as Byte
    requires ((x >> 16) & 0xFF) as Byte == ((y >> 16) & 0xFF) as Byte && ((x >> 24) & 0xFF) as Byte == ((y >> 24) & 0xFF) as Byte
    ensures x == y
  {}

  // So the hash index of a cache of such objects is sound.
  lemma IdiagKeygenSound(ops: ObjectOps, big: bool, size: nat)
    requires IsIdiag(ops, big) && size > 0
    ensures KeygenSound(ops, size)
  {
    hide Digest; hide PackedKey;
    forall a, b | Identical(ops, a, b) ensures Keygen(ops, a, size) == Keygen(ops, b, size) {
      SameIdentitySameKey(ops, big, a, b, size);
    }
  }
}
