// Neighbours, a hashed object type whose id attributes vary and whose comparison
// leaves attributes out (lib/route/neigh.c:163-332, 1110-1121).

module Neighbours {
  import opened Types
  import opened List
  import opened Objects
  import opened HashTables
  import opened CacheIndex
  import opened Caches
  import opened CacheSearch
  import opened CacheSync
  import opened CacheRuns
  import opened JenkinsHash
  import Idiag

  // NEIGH_ATTR_*: bit positions in the mask
  const FLAGS: Attr := 0
  const STATE: Attr := 1
  const LLADDR: Attr := 2
  const DST: Attr := 3
  const IFINDEX: Attr := 5
  const FAMILY: Attr := 6
  const TYPE: Attr := 7
  const PROBES: Attr := 8
  const MASTER: Attr := 9
  const VLAN: Attr := 10

  const AF_BRIDGE: Byte := 7
  const NTF_SELF: Byte := 2

  // neigh_compare has no term for CACHEINFO, PROBES and ENTRY_STATE.
  const COMPARED: set<Attr> := {FLAGS, STATE, LLADDR, DST, IFINDEX, FAMILY, TYPE, MASTER, VLAN}

  predicate Bridge(d: Data)
  {
    Padded(Idiag.Field(d, FAMILY), 0) == AF_BRIDGE
  }

  predicate Self(d: Data)
  {
    Padded(Idiag.Field(d, FLAGS), 0) & NTF_SELF != 0
  }

  // neigh_id_attrs_get
  function IdsOf(d: Data): set<Attr>
  {
    if !Bridge(d) then {IFINDEX, DST, FAMILY}
    else if !Self(d) then {LLADDR, FAMILY, MASTER, VLAN}
    else {LLADDR, FAMILY, IFINDEX} + (if DST in d.attrs then {DST} else {}) + (if VLAN in d.attrs then {VLAN} else {})
  }

  // A number field of n bytes
  function NumBytes(d: Data, attr: Attr, n: nat): seq<Byte>
  {
    seq(n, i requires 0 <= i < n => Padded(Idiag.Field(d, attr), i))
  }

  function FieldBytes(d: Data, attr: Attr): seq<Byte>
  {
    if attr in d.attrs then Idiag.AddrBytes(d.attrs[attr]) else []
  }

  // struct neigh_hash_key, packed, with the address behind it
  function PackedKey(d: Data): seq<Byte>
  {
    if !Bridge(d) then NumBytes(d, FAMILY, 4) + NumBytes(d, IFINDEX, 4) + [0, 0] + FieldBytes(d, DST)
    else NumBytes(d, FAMILY, 4) + NumBytes(d, if Self(d) then IFINDEX else MASTER, 4) + NumBytes(d, VLAN, 2)
         + FieldBytes(d, LLADDR)
  }

  // neigh_keygen
  function NeighKey(big: bool, d: Data, size: nat): nat
  {
    if size == 0 then 0 else Digest(big, PackedKey(d), 0).primary as nat % size
  }

  // neigh_obj_ops: the masked comparison of state and flags may pass over a difference.
  ghost predicate IsNeigh(ops: ObjectOps, big: bool)
  {
    && ops.comparable && ops.hashes && ops.compares == COMPARED
    && (forall d :: ops.idAttrs(d) == Listed(IdsOf(d)))
    && (forall attr, a, b :: ops.forgives(attr, a, b) ==> attr == STATE || attr == FLAGS)
    && (forall d, size :: ops.keygen(d, size) == NeighKey(big, d, size))
  }

  method NeighOps(big: bool) returns (ops: ObjectOps)
    ensures fresh(ops) && IsNeigh(ops, big)
  {
    ops := new ObjectOps(d => Listed(IdsOf(d)), true, COMPARED, (attr, a, b) => false, true,
                         (d, size) => NeighKey(big, d, size));
  }

  // ---------- the index ----------

  // Which id attributes there are tells the branch of the key generator.
  lemma IdsTell(a: Data, b: Data)
    requires IdsOf(a) == IdsOf(b)
    ensures Bridge(a) == Bridge(b) && (Bridge(a) ==> Self(a) == Self(b))
    ensures Bridge(a) && Self(a) ==> (VLAN in IdsOf(a) <==> VLAN in a.attrs) && (VLAN in IdsOf(b) <==> VLAN in b.attrs)
  {
    hide Bridge; hide Self;
    assert MASTER in IdsOf(a) <==> Bridge(a) && !Self(a);
    assert MASTER in IdsOf(b) <==> Bridge(b) && !Self(b);
    assert LLADDR in IdsOf(a) <==> Bridge(a);
    assert LLADDR in IdsOf(b) <==> Bridge(b);
  }

  // Objects with the same identity get the same key.
  lemma SameIdentitySameKey(ops: ObjectOps, big: bool, a: Data, b: Data, size: nat)
    requires IsNeigh(ops, big) && Identical(ops, a, b)
    ensures ops.keygen(a, size) == ops.keygen(b, size)
  {
    hide Digest; hide Padded; hide Bridge; hide Self; hide Idiag.AddrBytes;
    IdsTell(a, b);
    forall attr | attr in IdsOf(a) ensures attr in a.attrs && attr in b.attrs && a.attrs[attr] == b.attrs[attr] {
      assert attr in COMPARED;
      assert !Mismatch(a, b, attr);
    }
    SamePart(a, b, FAMILY, 4);
    if !Bridge(a) {
      SamePart(a, b, IFINDEX, 4);
    } else {
      SamePart(a, b, if Self(a) then IFINDEX else MASTER, 4);
      SamePart(a, b, VLAN, 2);
    }
  }

  lemma SamePart(a: Data, b: Data, attr: Attr, n: nat)
    requires Idiag.Field(a, attr) == Idiag.Field(b, attr)
    ensures NumBytes(a, attr, n) == NumBytes(b, attr, n)
  {}

  // The hashed bytes tell neighbours of one kind apart that differ in family,
  // device, address or VLAN.
  lemma PackedApart(a: Data, b: Data)
    requires Bridge(a) == Bridge(b) && (Bridge(a) ==> Self(a) == Self(b))
    ensures PackedKey(a) == PackedKey(b) <==>
      && NumBytes(a, 6, 4) == NumBytes(b, 6, 4)
      && (var dev := if Bridge(a) && !Self(a) then 9 else 5; NumBytes(a, dev, 4) == NumBytes(b, dev, 4))
      && (if Bridge(a) then NumBytes(a, 10, 2) == NumBytes(b, 10, 2) && FieldBytes(a, 2) == FieldBytes(b, 2)
          else FieldBytes(a, 3) == FieldBytes(b, 3))
  {
    hide Bridge; hide Self; hide Idiag.AddrBytes; hide Padded;
    Parts(a);
    Parts(b);
  }

  lemma Parts(d: Data)
    ensures var key := PackedKey(d);
            && |key| >= 10 && key[..4] == NumBytes(d, FAMILY, 4)
            && key[4..8] == NumBytes(d, if Bridge(d) && !Self(d) then MASTER else IFINDEX, 4)
            && key[8..10] == (if Bridge(d) then NumBytes(d, VLAN, 2) else [0, 0])
            && key[10..] == FieldBytes(d, if Bridge(d) then LLADDR else DST)
            && key == key[..4] + key[4..8] + key[8..10] + key[10..]
  {
    hide Bridge; hide Self; hide Idiag.AddrBytes; hide Padded; hide FieldBytes;
  }

  // So the hash index of a cache of neighbours is sound.
  lemma NeighKeygenSound(ops: ObjectOps, big: bool, size: nat)
    requires IsNeigh(ops, big) && size > 0
    ensures KeygenSound(ops, size)
  {
    hide Digest; hide PackedKey;
    forall a, b | Identical(ops, a, b) ensures Keygen(ops, a, size) == Keygen(ops, b, size) {
      SameIdentitySameKey(ops, big, a, b, size);
    }
  }

  // ---------- attributes that are not compared ----------

  // An event that changes only the probes of a neighbour overwrites it in the
  // cache, and no callback tells.
  lemma ProbesUnseen(ops: ObjectOps, big: bool, old': NlObject, obj: NlObject, probes: Value, cb: Callback)
    requires IsNeigh(ops, big) && old'.ops == ops && obj.ops == ops && Complete(ops, old'.data) && old' != obj
    requires obj.data == Data(old'.data.attrs[PROBES := probes]) && obj.data != old'.data
    ensures EventFor(ActNew, cb, [old'], obj) == Quiet
    ensures Content(ops, [old']) == map[Key(ops, obj.data) := old'.data]
    ensures Content(ops, Included(ActNew, [old'], obj)) == map[Key(ops, obj.data) := obj.data]
  {
    ProbesOnly(ops, big, old'.data, obj.data, probes);
    hide IsNeigh; hide Complete; hide Differ; hide Key; hide EventFor; hide Included;
    assert [old'][..0] == [];
    IncludeIsMapUpdate(ops, [old'], obj, ActNew, cb);
  }

  lemma ProbesOnly(ops: ObjectOps, big: bool, a: Data, b: Data, probes: Value)
    requires IsNeigh(ops, big) && Complete(ops, a) && b == Data(a.attrs[PROBES := probes])
    ensures Complete(ops, b) && Key(ops, a) == Key(ops, b) && !Differ(ops, a, b)
  {
    hide Padded;
    assert Idiag.Field(a, FAMILY) == Idiag.Field(b, FAMILY) && Idiag.Field(a, FLAGS) == Idiag.Field(b, FLAGS);
    assert IdsOf(a) == IdsOf(b);
  }

  // ---------- a filter the fast path misses ----------

  // An entry of a bridge port itself, and a filter that carries exactly the id
  // attributes of an entry that is not
  const SELF_ENTRY := Data(map[FLAGS := [2], LLADDR := [1], IFINDEX := [3], FAMILY := [7], MASTER := [4], VLAN := [5]])
  const PORT_FILTER := Data(map[LLADDR := [1], FAMILY := [7], MASTER := [4], VLAN := [5]])

  // A cache of neighbours with one entry
  method CacheOfOne(big: bool, ops: ObjectOps, entry: NlObject) returns (c: NlCache)
    requires IsNeigh(ops, big) && Usable(entry) && NeverListed(entry) && entry.ops == ops && Complete(ops, entry.data)
    modifies entry`cache, entry`refcnt, entry`freed, entry.list`next, entry.list`prev
    ensures fresh(c) && CacheOk(c) && c.Items == [entry] && c.objOps == ops && c.hashtable != null
  {
    hide CacheOk; hide FirstIdentical; hide Complete; hide Usable;
    NeighKeygenSound(ops, big, 1024);
    hide IsNeigh; hide KeygenSound;
    c := AllocCache(ops, [], 1024);
    EmptyRing(c);
    var st := AddFirst(c, entry);
  }

  lemma EmptyRing(c: NlCache)
    requires CacheOk(c) && c.Items == []
    ensures c.items.prev == c.items
  {
    TailInRing(c);
  }

  // The entry matches the filter, a scan would find it, and nl_cache_find does not.
  method PortFilterMisses(big: bool) returns (c: NlCache, entry: NlObject, filter: NlObject, r: NlObject?)
    ensures CacheOk(c) && c.Items == [entry] && entry.data == SELF_ENTRY && filter.data == PORT_FILTER
    ensures FirstMatching(c.Items, filter) == entry && r == null
  {
    hide CacheOk; hide IsNeigh; hide FirstIdentical; hide FirstMatching; hide Complete; hide FastPath;
    var ops := NeighOps(big);
    entry := new NlObject(ops, SELF_ENTRY, 0);
    filter := new NlObject(ops, PORT_FILTER, 0);
    Misses(ops, big, entry, filter);
    c := CacheOfOne(big, ops, entry);
    r := CacheFind(c, filter);
  }

  lemma Misses(ops: ObjectOps, big: bool, entry: NlObject, filter: NlObject)
    requires IsNeigh(ops, big) && entry.ops == ops && filter.ops == ops
    requires entry.data == SELF_ENTRY && filter.data == PORT_FILTER
    ensures Complete(ops, entry.data) && FastPath(filter)
    ensures FirstMatching([entry], filter) == entry && FirstIdentical([entry], filter) == null
    ensures FirstIdentical([], entry) == null
  {
    assert Bridge(entry.data) && Self(entry.data) && Bridge(filter.data) && !Self(filter.data);
    assert IdsOf(entry.data) == {LLADDR, FAMILY, IFINDEX, VLAN};
    assert IdsOf(filter.data) == {LLADDR, FAMILY, MASTER, VLAN} == Mask(filter.data);
    assert MASTER !in IdsOf(entry.data);
    assert Diff(ops, entry.data, filter.data, Mask(filter.data)) == {};
  }
}
