// The chained hash table over objects (lib/hashtable.c), relinked in place.

module HashTables {
  import opened Types
  import opened List
  import opened Objects

  // ---------- what the chains mean ----------

  // The first object of a list identical to the needle: a linear scan.
  function FirstIdentical(objs: seq<NlObject>, needle: NlObject): (r: NlObject?)
    ensures r != null ==> r in objs && IdenticalObjects(r, needle)
    ensures r == null <==> forall o :: o in objs ==> !IdenticalObjects(o, needle)
  {
    if objs == [] then null
    else if IdenticalObjects(objs[0], needle) then objs[0]
    else FirstIdentical(objs[1..], needle)
  }

  // Its position, or the length of the list.
  function FirstIndex(objs: seq<NlObject>, needle: NlObject): (i: nat)
    ensures i <= |objs|
  {
    if objs == [] || IdenticalObjects(objs[0], needle) then 0 else 1 + FirstIndex(objs[1..], needle)
  }

  lemma {:induction false} FirstIndexFinds(objs: seq<NlObject>, needle: NlObject)
    ensures var i := FirstIndex(objs, needle);
            && (i < |objs| <==> FirstIdentical(objs, needle) != null)
            && (i < |objs| ==> objs[i] == FirstIdentical(objs, needle))
  {
    if objs != [] && !IdenticalObjects(objs[0], needle) {
      FirstIndexFinds(objs[1..], needle);
    }
  }

  function ObjectsOf(c: seq<HashNode>): (r: seq<NlObject>)
    ensures |r| == |c|
  {
    seq(|c|, i requires 0 <= i < |c| => c[i].obj)
  }

  // Chains as values: the objects of each bucket, in chain order.
  function Buckets(chains: seq<seq<HashNode>>): (v: seq<seq<NlObject>>)
    ensures |v| == |chains|
    ensures forall k :: 0 <= k < |v| ==> v[k] == ObjectsOf(chains[k])
  {
    seq(|chains|, k requires 0 <= k < |chains| => ObjectsOf(chains[k]))
  }

  ghost function View(ht: HashTable): seq<seq<NlObject>>
    reads ht`Chains
  {
    Buckets(ht.Chains)
  }

  // ---------- the heap behind it ----------

  ghost function NodesOf(chains: seq<seq<HashNode>>): set<HashNode>
  {
    set k, i | 0 <= k < |chains| && 0 <= i < |chains[k]| :: chains[k][i]
  }

  ghost function NextIn(c: seq<HashNode>, i: nat): HashNode?
  {
    if i < |c| then c[i] else null
  }

  ghost predicate Linked(c: seq<HashNode>)
    reads c`next
  {
    forall i {:trigger c[i].next} :: 0 <= i < |c| ==> c[i].next == NextIn(c, i + 1)
  }

  // No node stands at two places.
  ghost predicate AllApart(chains: seq<seq<HashNode>>)
  {
    && (forall k :: 0 <= k < |chains| ==> Distinct(chains[k]))
    && (forall k, l, n :: 0 <= k < l < |chains| && n in chains[k] ==> n !in chains[l])
  }

  ghost predicate TableOk(ht: HashTable)
    reads ht`Chains, ht`nodes, NodesOf(ht.Chains)`next
  {
    && |ht.nodes| == |ht.Chains| == ht.size
    && AllApart(ht.Chains)
    && (forall k :: 0 <= k < |ht.Chains| ==> ht.nodes[k] == NextIn(ht.Chains[k], 0) && Linked(ht.Chains[k]))
    && (forall k, i :: 0 <= k < |ht.Chains| && 0 <= i < |ht.Chains[k]| ==> ht.Chains[k][i].key == k)
  }

  lemma TableSize(ht: HashTable)
    requires TableOk(ht)
    ensures |View(ht)| == ht.size
  {}

  // nl_hash_table_lookup (hashtable.c:87-103)
  method HashLookup(ht: HashTable, obj: NlObject) returns (r: NlObject?)
    requires TableOk(ht) && KeygenSound(obj.ops, ht.size)
    ensures r == FirstIdentical(View(ht)[Keygen(obj.ops, obj.data, ht.size)], obj)
  {
    var key := Keygen(obj.ops, obj.data, ht.size);
    ghost var chain := ht.Chains[key];
    ghost var objs := ObjectsOf(chain);
    ghost var i := 0;
    var node := ht.nodes[key];
    while node != null
      invariant 0 <= i <= |chain| && node == NextIn(chain, i)
      invariant FirstIdentical(objs, obj) == FirstIdentical(objs[i..], obj)
      decreases |chain| - i
    {
      assert node == chain[i] && objs[i] == node.obj;
      if IdenticalObjects(node.obj, obj) {
        return node.obj;
      }
      assert objs[i..][1..] == objs[i + 1..];
      node := node.next;
      i := i + 1;
    }
    return null;
  }

  // nl_hash_table_add (hashtable.c:118-148)
  method HashAdd(ht: HashTable, obj: NlObject) returns (st: Status)
    requires TableOk(ht) && KeygenSound(obj.ops, ht.size) && !obj.freed
    modifies ht`Chains, ht`nodes, obj`refcnt
    ensures TableOk(ht)
    ensures var key := Keygen(obj.ops, obj.data, ht.size);
            if FirstIdentical(old(View(ht))[key], obj) != null
            then st == Failed(Exist) && ht.Chains == old(ht.Chains) && obj.refcnt == old(obj.refcnt)
            else && st == Ok
                 && obj.refcnt == old(obj.refcnt) + 1
                 && View(ht) == old(View(ht))[key := [obj] + old(View(ht))[key]]
                 && fresh(NodesOf(ht.Chains) - old(NodesOf(ht.Chains)))
  {
    var key := Keygen(obj.ops, obj.data, ht.size);
    var found := HashLookup(ht, obj);
    if found != null {
      return Failed(Exist);
    }
    ObjectGet(obj);
    var node := new HashNode(obj, key, ht.nodes[key]);
    Prepend(ht, key, node);
    st := Ok;
  }

  // The new node becomes the first of its chain.
  method Prepend(ht: HashTable, key: nat, node: HashNode)
    requires TableOk(ht) && key < ht.size && node.key == key
    requires node.next == ht.nodes[key] && node !in NodesOf(ht.Chains)
    modifies ht`Chains, ht`nodes
    ensures TableOk(ht)
    ensures ht.Chains == old(ht.Chains)[key := [node] + old(ht.Chains)[key]]
    ensures View(ht) == old(View(ht))[key := [node.obj] + old(View(ht))[key]]
  {
    ghost var chains := ht.Chains;
    assert forall k, n :: 0 <= k < |chains| && n in chains[k] ==> n in NodesOf(chains);
    ht.nodes := ht.nodes[key := node];
    ht.Chains := chains[key := [node] + chains[key]];
    assert Linked(ht.Chains[key]);
    assert ObjectsOf(ht.Chains[key]) == [node.obj] + ObjectsOf(chains[key]);
  }

  // nl_hash_table_del (hashtable.c:162-191): the first identical node leaves
  // its chain, and it is the object passed in whose reference is dropped.
  method HashDel(ht: HashTable, obj: NlObject) returns (st: Status)
    requires TableOk(ht) && KeygenSound(obj.ops, ht.size)
    requires !obj.freed && obj.refcnt >= 1 && (obj.refcnt == 1 ==> obj.cache == null)
    modifies ht`Chains, ht`nodes, NodesOf(ht.Chains)`next, obj`refcnt, obj`freed
    ensures TableOk(ht) && (obj.freed <==> obj.refcnt == 0)
    ensures NodesOf(ht.Chains) <= old(NodesOf(ht.Chains))
    ensures var key := Keygen(obj.ops, obj.data, ht.size);
            var bucket := old(View(ht))[key];
            var i := FirstIndex(bucket, obj);
            if i == |bucket|
            then st == Failed(ObjNotFound) && ht.Chains == old(ht.Chains) && obj.refcnt == old(obj.refcnt)
            else && st == Ok
                 && obj.refcnt == old(obj.refcnt) - 1
                 && View(ht) == old(View(ht))[key := Without(bucket, i)]
  {
    var key := Keygen(obj.ops, obj.data, ht.size);
    var prev, node, i := HashLocate(ht, key, obj);
    if node == null {
      return Failed(ObjNotFound);
    }
    ObjectPut(obj);
    Unlink(ht, key, prev, node, i);
    return Ok;
  }

  // The walk along the chain, remembering the node before.
  method HashLocate(ht: HashTable, key: nat, obj: NlObject)
    returns (prev: HashNode?, node: HashNode?, ghost i: nat)
    requires TableOk(ht) && key < ht.size
    ensures i == FirstIndex(View(ht)[key], obj)
    ensures node == NextIn(ht.Chains[key], i)
    ensures i > 0 ==> prev == NextIn(ht.Chains[key], i - 1)
  {
    ghost var chain := ht.Chains[key];
    ghost var objs := ObjectsOf(chain);
    prev, node, i := ht.nodes[key], ht.nodes[key], 0;
    while node != null
      invariant i <= |chain| && node == NextIn(chain, i)
      invariant i > 0 ==> prev == NextIn(chain, i - 1)
      invariant FirstIndex(objs, obj) == i + FirstIndex(objs[i..], obj)
      decreases |chain| - i
    {
      assert node == chain[i] && objs[i] == node.obj;
      if IdenticalObjects(node.obj, obj) {
        return;
      }
      assert objs[i..][1..] == objs[i + 1..];
      prev, node := node, node.next;
      i := i + 1;
    }
  }

  // The node at position i of its chain is taken out.
  method Unlink(ht: HashTable, key: nat, prev: HashNode?, node: HashNode, ghost i: nat)
    requires TableOk(ht) && key < ht.size && i < |ht.Chains[key]| && ht.Chains[key][i] == node
    requires i > 0 ==> prev == ht.Chains[key][i - 1]
    modifies ht`Chains, ht`nodes, NodesOf(ht.Chains)`next
    ensures TableOk(ht)
    ensures NodesOf(ht.Chains) <= old(NodesOf(ht.Chains))
    ensures ht.Chains == old(ht.Chains)[key := Without(old(ht.Chains)[key], i)]
    ensures View(ht) == old(View(ht))[key := Without(old(View(ht))[key], i)]
  {
    ghost var chains := ht.Chains;
    ghost var chain := chains[key];
    WithoutNode(chains, key, i);
    if node == ht.nodes[key] {
      ht.nodes := ht.nodes[key := node.next];
    } else {
      prev.next := node.next;
    }
    ht.Chains := chains[key := Without(chain, i)];
    assert forall k :: 0 <= k < |chains| && k != key ==> Linked(chains[k]);
    assert Linked(Without(chain, i));
  }

  // What taking one node out of the chains does to their values.
  lemma WithoutNode(chains: seq<seq<HashNode>>, key: nat, i: nat)
    requires AllApart(chains) && key < |chains| && i < |chains[key]|
    ensures var shorter := chains[key := Without(chains[key], i)];
            && AllApart(shorter) && NodesOf(shorter) <= NodesOf(chains)
            && Buckets(shorter) == Buckets(chains)[key := Without(Buckets(chains)[key], i)]
  {
    var chain := chains[key];
    assert forall n :: n in Without(chain, i) ==> n in chain;
    assert ObjectsOf(Without(chain, i)) == Without(ObjectsOf(chain), i);
  }
}
