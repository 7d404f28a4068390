// The object cache of lib/cache.c: a list and, for types with a key generator,
// a hash index over the same reference-counted objects.

module Caches {
  import opened Types
  import opened List
  import opened Objects
  import opened HashTables
  import opened CacheIndex

  // ---------- the invariant ----------

  function Lists(objs: seq<NlObject>): (r: seq<ListHead>)
    ensures |r| == |objs|
    ensures forall i :: 0 <= i < |r| ==> r[i] == objs[i].list
  {
    seq(|objs|, i requires 0 <= i < |objs| => objs[i].list)
  }

  ghost function RingOf(c: NlCache): seq<ListHead>
    reads c`Items
  {
    [c.items] + Lists(c.Items)
  }

  // The hash table, or nothing.
  function Table(c: NlCache): set<HashTable>
  {
    if c.hashtable == null then {} else {c.hashtable}
  }

  ghost function Chains(c: NlCache): seq<seq<HashNode>>
    reads Table(c)`Chains
  {
    if c.hashtable == null then [] else c.hashtable.Chains
  }

  ghost function HashNodes(c: NlCache): set<HashNode>
    reads Table(c)`Chains
  {
    NodesOf(Chains(c))
  }

  // The references a cache holds on each of its objects.
  function Share(c: NlCache): nat
  {
    if c.hashtable == null then 1 else 2
  }

  // An object on the list of a cache: its count is what is held outside, plus
  // one for the list, plus one for the hash table if there is one.
  ghost predicate Cached(o: NlObject, c: NlCache)
    reads o`cache, o`freed, o`refcnt, o`holders
  {
    && o.cache == c && o.ops == c.objOps && !o.freed
    && o.refcnt == o.holders + Share(c)
  }

  ghost predicate AllCached(c: NlCache)
    reads c`Items, c.Items`cache, c.Items`freed, c.Items`refcnt, c.Items`holders
  {
    forall o {:trigger o in c.Items} :: o in c.Items ==> Cached(o, c)
  }

  // From its place on the list every object can be told (nl_list_entry).
  ghost predicate Owned(c: NlCache)
    reads c`Items, (set o | o in c.Items :: o.list)`owner
  {
    forall o {:trigger o.list} {:trigger o in c.Items} :: o in c.Items ==> o.list.owner == o
  }

  // The list: a ring through the head and the objects, counted by c_nitems.
  ghost predicate ListOk(c: NlCache)
    reads c`Items, c`nitems, RingOf(c)`next, RingOf(c)`prev, c.items`owner
  {
    && Ring(RingOf(c)) && c.items.owner == null
    && Distinct(c.Items) && c.nitems == |c.Items|
  }

  ghost predicate CacheOk(c: NlCache)
    reads c`Items, c`nitems, RingOf(c)`next, RingOf(c)`prev, c.items`owner
    reads (set o | o in c.Items :: o.list)`owner
    reads c.Items`cache, c.Items`freed, c.Items`refcnt, c.Items`holders
    reads Table(c)`Chains, Table(c)`nodes, HashNodes(c)`next
  {
    && ListOk(c)
    && Owned(c) && AllCached(c)
    && Indexed(c, c.Items)
  }

  // The hash table, if there is one, is an index of these objects.
  ghost predicate Indexed(c: NlCache, items: seq<NlObject>)
    reads Table(c)`Chains, Table(c)`nodes, HashNodes(c)`next
  {
    && (c.hashtable != null <==> c.objOps.hashes)
    && (c.hashtable != null ==>
        && TableOk(c.hashtable) && KeygenSound(c.objOps, c.hashtable.size)
        && DuplicateFree(c.objOps, items)
        && Agrees(c.objOps, items, View(c.hashtable)))
  }

  // nl_cache_alloc: an empty cache is in order.
  method AllocCache(objOps: ObjectOps, msgtypes: seq<MsgType>, hashSize: nat) returns (c: NlCache)
    requires objOps.hashes ==> KeygenSound(objOps, hashSize)
    ensures fresh(c) && fresh(c.items) && fresh(Table(c)) && c.objOps == objOps && c.msgtypes == msgtypes
    ensures CacheOk(c) && c.Items == [] && HashNodes(c) == {} && (c.hashtable != null <==> objOps.hashes)
  {
    hide KeygenSound;
    c := new NlCache(objOps, msgtypes, hashSize);
  }

  // What is written outside a cache's own fields leaves it as it is.
  twostate lemma CacheKept(c: NlCache)
    requires old(CacheOk(c))
    requires unchanged(c`Items) && unchanged(c`nitems) && unchanged(c.items`owner)
    requires unchanged(RingOf(c)`next) && unchanged(RingOf(c)`prev)
    requires forall o {:trigger o in c.Items} :: o in c.Items ==> o.list.owner == old(o.list.owner)
    requires unchanged(c.Items`cache) && unchanged(c.Items`freed) && unchanged(c.Items`refcnt) && unchanged(c.Items`holders)
    requires unchanged(Table(c)`Chains) && unchanged(Table(c)`nodes) && unchanged(HashNodes(c)`next)
    ensures CacheOk(c)
  {
    hide ListOk; hide Indexed;
    assert RingOf(c) == old(RingOf(c));
    assert HashNodes(c) == old(HashNodes(c));
    assert old(ListOk(c)) && old(Indexed(c, c.Items)) && old(AllCached(c)) && old(Owned(c));
    assert ListOk(c);
    assert Indexed(c, c.Items);
    assert AllCached(c);
    assert Owned(c);
  }

  // An object about to enter a cache: one reference is already the list's.
  ghost predicate Pending(o: NlObject)
    reads o, o.list
  {
    && o.cache == null && !o.freed && o.list.owner == o
    && o.refcnt == o.holders + 1
  }

  // ---------- adding (cache.c:435-504) ----------

  // __cache_add
  method CacheInsert(c: NlCache, obj: NlObject) returns (st: Status)
    requires CacheOk(c) && Pending(obj) && obj.ops == c.objOps
    requires obj !in c.Items && obj.list !in RingOf(c)
    requires c.hashtable != null ==> Complete(c.objOps, obj.data)
    modifies c`nitems, c`Items, c.items`prev, c.items.prev`next
    modifies obj`cache, obj`refcnt, obj.list`next, obj.list`prev
    modifies Table(c)`Chains, Table(c)`nodes
    ensures CacheOk(c)
    ensures st == if c.hashtable != null && FirstIdentical(old(c.Items), obj) != null then Failed(Exist) else Ok
    ensures !obj.freed
    ensures st == Ok ==> c.Items == old(c.Items) + [obj] && obj.list.next != obj.list
    ensures st != Ok ==> Pending(obj) && c.Items == old(c.Items) && obj.list.next == old(obj.list.next)
    ensures fresh(HashNodes(c) - old(HashNodes(c)))
  {
    hide ListOk; hide Indexed; hide Owned; hide AllCached; hide FirstIdentical; hide Complete;
    SetCache(c, obj, c);
    st := InsertClaimed(c, obj);
  }

  // The rest of the insertion: index, list and count, or giving the object up.
  method InsertClaimed(c: NlCache, obj: NlObject) returns (st: Status)
    requires CacheOk(c) && !obj.freed && obj.cache == c && obj.refcnt == obj.holders + 1 && obj.ops == c.objOps
    requires obj !in c.Items && obj.list !in RingOf(c) && obj.list.owner == obj
    requires c.hashtable != null ==> Complete(c.objOps, obj.data)
    modifies c`nitems, c`Items, c.items`prev, c.items.prev`next
    modifies obj`cache, obj`refcnt, obj.list`next, obj.list`prev
    modifies Table(c)`Chains, Table(c)`nodes
    ensures CacheOk(c)
    ensures st == if c.hashtable != null && FirstIdentical(old(c.Items), obj) != null then Failed(Exist) else Ok
    ensures st == Ok ==> c.Items == old(c.Items) + [obj] && obj.list.next != obj.list
    ensures st != Ok ==> && obj.cache == null && obj.refcnt == obj.holders + 1
                         && c.Items == old(c.Items) && obj.list.next == old(obj.list.next)
    ensures fresh(HashNodes(c) - old(HashNodes(c)))
  {
    hide ListOk; hide Indexed; hide Owned; hide AllCached; hide FirstIdentical; hide Complete;
    st := IndexInsert(c, obj);
    if st == Ok {
      AppendItem(c, obj);
    } else {
      FailedInsert(c, obj);
    }
  }

  // An object off the list may change its cache pointer.
  method SetCache(ghost c: NlCache, obj: NlObject, cache: NlCache?)
    requires CacheOk(c) && obj !in c.Items
    modifies obj`cache
    ensures CacheOk(c) && obj.cache == cache && HashNodes(c) == old(HashNodes(c))
  {
    hide ListOk; hide Indexed;
    obj.cache := cache;
  }

  method FailedInsert(ghost c: NlCache, obj: NlObject)
    requires ListOk(c) && Owned(c) && AllCached(c) && Indexed(c, c.Items)
    requires obj !in c.Items
    modifies obj`cache
    ensures CacheOk(c) && obj.cache == null && HashNodes(c) == old(HashNodes(c))
  {
    SetCache(c, obj, null);
  }

  // The hash table's part of an insertion (cache.c:441-447).
  method IndexInsert(c: NlCache, obj: NlObject) returns (st: Status)
    requires CacheOk(c) && obj !in c.Items && obj.ops == c.objOps && !obj.freed
    requires c.hashtable != null ==> Complete(c.objOps, obj.data)
    modifies Table(c)`Chains, Table(c)`nodes, obj`refcnt
    ensures ListOk(c) && Owned(c) && AllCached(c) && Indexed(c, if st == Ok then c.Items + [obj] else c.Items)
    ensures st == if c.hashtable != null && FirstIdentical(c.Items, obj) != null then Failed(Exist) else Ok
    ensures obj.refcnt == old(obj.refcnt) + if st == Ok then Share(c) - 1 else 0
    ensures fresh(HashNodes(c) - old(HashNodes(c)))
  {
    hide Indexed; hide Owned; hide FirstIdentical; hide Complete; hide ListOk;
    st := IndexAdd(c, obj);
    assert RingOf(c) == old(RingOf(c));
    assert unchanged(RingOf(c)`next);
    assert unchanged(RingOf(c)`prev);
    assert ListOk(c);
  }

  method IndexAdd(c: NlCache, obj: NlObject) returns (st: Status)
    requires Indexed(c, c.Items) && obj.ops == c.objOps && !obj.freed
    requires c.hashtable != null ==> Complete(c.objOps, obj.data)
    modifies Table(c)`Chains, Table(c)`nodes, obj`refcnt
    ensures Indexed(c, if st == Ok then c.Items + [obj] else c.Items)
    ensures st == if c.hashtable != null && FirstIdentical(c.Items, obj) != null then Failed(Exist) else Ok
    ensures obj.refcnt == old(obj.refcnt) + if st == Ok then Share(c) - 1 else 0
    ensures fresh(HashNodes(c) - old(HashNodes(c)))
  {
    hide TableOk; hide Agrees; hide DuplicateFree; hide KeygenSound; hide FirstIdentical; hide Complete;
    if c.hashtable == null {
      return Ok;
    }
    TableSize(c.hashtable);
    LookupIsScan(c.objOps, c.Items, View(c.hashtable), obj);
    st := HashAdd(c.hashtable, obj);
    TableSize(c.hashtable);
    if st == Ok {
      AddAgrees(c.objOps, c.Items, old(View(c.hashtable)), obj);
    }
  }

  // The list's part (cache.c:449-450).
  method AppendItem(c: NlCache, obj: NlObject)
    requires ListOk(c) && Owned(c) && AllCached(c) && Indexed(c, c.Items + [obj])
    requires Cached(obj, c) && obj !in c.Items && obj.list !in RingOf(c) && obj.list.owner == obj
    modifies c`nitems, c`Items, c.items`prev, c.items.prev`next, obj.list`next, obj.list`prev
    ensures CacheOk(c) && c.Items == old(c.Items) + [obj] && HashNodes(c) == old(HashNodes(c))
    ensures obj.list.next != obj.list
  {
    hide ListOk;
    ListAppend(c, obj);
  }

  method ListAppend(c: NlCache, obj: NlObject)
    requires ListOk(c) && obj !in c.Items && obj.list !in RingOf(c)
    modifies c`nitems, c`Items, c.items`prev, c.items.prev`next, obj.list`next, obj.list`prev
    ensures ListOk(c) && c.Items == old(c.Items) + [obj]
    ensures obj.list.next != obj.list
  {
    ListAddTail(obj.list, c.items, RingOf(c));
    c.nitems := c.nitems + 1;
    c.Items := c.Items + [obj];
    assert RingOf(c) == old(RingOf(c)) + [obj.list];
  }

  // ---------- removing (cache.c:552-574) ----------

  // nl_cache_remove of an object that is in the cache c.
  method RemoveFrom(c: NlCache, obj: NlObject, ghost i: nat)
    requires CacheOk(c) && i < |c.Items| && c.Items[i] == obj
    modifies c`nitems, c`Items, obj.list.next`prev, obj.list.prev`next
    modifies Table(c)`Chains, Table(c)`nodes, HashNodes(c)`next
    modifies obj`cache, obj`refcnt, obj`freed
    ensures CacheOk(c) && c.Items == Without(old(c.Items), i)
    ensures obj.cache == null && obj.refcnt == obj.holders && (obj.freed <==> obj.refcnt == 0)
    ensures obj.list.next == old(obj.list.next) && obj.list.next != obj.list
    ensures HashNodes(c) <= old(HashNodes(c))
  {
    hide Indexed; hide ListOk;
    DistinctItems(c);
    WithoutMembers(c.Items, i);
    IndexRemove(c, obj, i);
    ListTake(c, obj, i);
    Detach(c, obj);
  }

  // The object is off the list: it leaves its cache and drops the list's reference.
  method Detach(ghost c: NlCache, obj: NlObject)
    requires ListOk(c) && Owned(c) && AllCached(c) && Indexed(c, c.Items)
    requires obj !in c.Items && !obj.freed && obj.refcnt >= 1
    modifies obj`cache, obj`refcnt, obj`freed
    ensures CacheOk(c) && obj.cache == null
    ensures obj.refcnt == old(obj.refcnt) - 1 && (obj.freed <==> obj.refcnt == 0)
  {
    hide ListOk; hide Indexed;
    obj.cache := null;
    ObjectPut(obj);
    assert unchanged(RingOf(c)`next);
    assert unchanged(RingOf(c)`prev);
    assert unchanged(HashNodes(c)`next);
    assert unchanged(Table(c)`nodes);
    assert unchanged(Table(c)`Chains);
    assert Indexed(c, c.Items);
  }

  // The hash table's part (cache.c:560-565).
  method IndexRemove(c: NlCache, obj: NlObject, ghost i: nat)
    requires CacheOk(c) && i < |c.Items| && c.Items[i] == obj
    modifies Table(c)`Chains, Table(c)`nodes, HashNodes(c)`next, obj`refcnt, obj`freed
    ensures ListOk(c) && Indexed(c, Without(old(c.Items), i))
    ensures forall o :: o in Without(old(c.Items), i) ==> Cached(o, c)
    ensures obj.refcnt == obj.holders + 1 && !obj.freed
    ensures HashNodes(c) <= old(HashNodes(c))
  {
    hide Indexed; hide ListOk;
    assert Distinct(c.Items) by { DistinctItems(c); }
    WithoutMembers(c.Items, i);
    assert obj in c.Items;
    IndexDel(c, obj, i);
    assert unchanged(RingOf(c)`next);
    assert unchanged(RingOf(c)`prev);
  }

  lemma DistinctItems(c: NlCache)
    requires ListOk(c)
    ensures Distinct(c.Items)
  {}

  method IndexDel(c: NlCache, obj: NlObject, ghost i: nat)
    requires Indexed(c, c.Items) && Distinct(c.Items) && i < |c.Items| && c.Items[i] == obj
    requires !obj.freed && obj.refcnt >= Share(c) && obj.ops == c.objOps
    modifies Table(c)`Chains, Table(c)`nodes, HashNodes(c)`next, obj`refcnt, obj`freed
    ensures Indexed(c, Without(old(c.Items), i))
    ensures obj.refcnt == old(obj.refcnt) - (Share(c) - 1) && !obj.freed
    ensures HashNodes(c) <= old(HashNodes(c))
  {
    hide TableOk; hide Agrees; hide DuplicateFree; hide KeygenSound; hide FirstIndex;
    if c.hashtable == null {
      return;
    }
    TableSize(c.hashtable);
    RemoveAgrees(c.objOps, c.Items, View(c.hashtable), i);
    var st := HashDel(c.hashtable, obj);
    TableSize(c.hashtable);
  }

  // The list's part, and the count (cache.c:567-570).
  method ListTake(c: NlCache, obj: NlObject, ghost i: nat)
    requires ListOk(c) && i < |c.Items| && c.Items[i] == obj
    modifies c`nitems, c`Items, obj.list.next`prev, obj.list.prev`next
    ensures ListOk(c) && c.Items == Without(old(c.Items), i)
    ensures obj.list.next == old(obj.list.next) && obj.list.next != obj.list
  {
    hide Ring; hide Without;
    WithoutMembers(c.Items, i);
    RingWithout(c.items, c.Items, i);
    ListDel(obj.list, RingOf(c), i + 1);
    c.nitems := c.nitems - 1;
    c.Items := Without(c.Items, i);
  }

  lemma RingWithout(head: ListHead, objs: seq<NlObject>, i: nat)
    requires i < |objs|
    ensures ([head] + Lists(objs))[i + 1] == objs[i].list
    ensures Without([head] + Lists(objs), i + 1) == [head] + Lists(Without(objs, i))
    ensures |Without(objs, i)| == |objs| - 1
  {}

  // ---------- the operations callers use ----------

  // nl_list_empty(&obj->ce_list): the object was never on a cache list.
  ghost predicate NeverListed(o: NlObject)
    reads o.list`next
  {
    o.list.next == o.list
  }

  // An object a caller may pass: it is alive, and all its references are
  // accounted for.
  ghost predicate Usable(o: NlObject)
    reads o`cache, o`freed, o`refcnt, o`holders, o.list`owner, o.list`next
  {
    && !o.freed && o.refcnt >= 1 && o.list.owner == o
    && (o.cache == null ==> o.refcnt == o.holders)
    && (o.cache != null ==> !NeverListed(o))
  }

  lemma ListedInRing(c: NlCache, o: NlObject)
    requires ListOk(c) && o in c.Items
    ensures o.list in RingOf(c) && !NeverListed(o)
  {
    var i :| 0 <= i < |c.Items| && c.Items[i] == o;
    assert RingOf(c)[i + 1] == o.list;
  }

  lemma TailInRing(c: NlCache)
    requires ListOk(c)
    ensures c.items.prev in RingOf(c)
  {}

  // An object outside the cache has a list head outside its ring.
  lemma OutsideRing(c: NlCache, o: NlObject)
    requires ListOk(c) && Owned(c) && o !in c.Items && o.list.owner == o
    ensures o.list !in RingOf(c)
  {
    forall h | h in Lists(c.Items) ensures h != o.list {
      var i :| 0 <= i < |c.Items| && c.Items[i].list == h;
      assert c.Items[i] in c.Items;
    }
  }

  // nl_cache_add (cache.c:480-504): an object that was ever cached is cloned,
  // and the clone's only reference is the cache's.
  method CacheAdd(c: NlCache, obj: NlObject) returns (st: Status, added: NlObject)
    requires CacheOk(c) && Usable(obj)
    requires c.hashtable != null && obj.ops == c.objOps ==> Complete(c.objOps, obj.data)
    modifies c`nitems, c`Items, c.items`prev, c.items.prev`next
    modifies obj`cache, obj`refcnt, obj`freed, obj.list`next, obj.list`prev
    modifies Table(c)`Chains, Table(c)`nodes
    ensures CacheOk(c)
    ensures fresh(HashNodes(c) - old(HashNodes(c)))
    ensures st == if obj.ops != c.objOps then Failed(ObjMismatch)
                  else if c.hashtable != null && FirstIdentical(old(c.Items), obj) != null then Failed(Exist)
                  else Ok
    ensures st == Ok ==> c.Items == old(c.Items) + [added]
                         && added.data == obj.data && added.msgtype == obj.msgtype
                         && (if old(NeverListed(obj)) then added == obj else fresh(added) && added.holders == 0)
    ensures st != Ok ==> c.Items == old(c.Items)
    ensures st != Ok || added != obj ==> && obj.cache == old(obj.cache) && obj.refcnt == old(obj.refcnt) && !obj.freed
                                         && (obj !in old(c.Items) ==> obj.list.next == old(obj.list.next))
  {
    hide FirstIdentical; hide Complete; hide Cached; hide ListOk; hide Owned; hide Indexed; hide AllCached;
    if obj !in c.Items { OutsideRing(c, obj); }
    TailInRing(c);
    if c.objOps != obj.ops {
      return Failed(ObjMismatch), obj;
    }
    if obj.list.next != obj.list {
      st, added := AddClone(c, obj);
    } else {
      st := AddFirst(c, obj);
      added := obj;
    }
  }

  method AddFirst(c: NlCache, obj: NlObject) returns (st: Status)
    requires CacheOk(c) && Usable(obj) && NeverListed(obj) && obj.ops == c.objOps
    requires c.hashtable != null ==> Complete(c.objOps, obj.data)
    modifies c`nitems, c`Items, c.items`prev, c.items.prev`next
    modifies obj`cache, obj`refcnt, obj`freed, obj.list`next, obj.list`prev
    modifies Table(c)`Chains, Table(c)`nodes
    ensures CacheOk(c)
    ensures fresh(HashNodes(c) - old(HashNodes(c)))
    ensures st == if c.hashtable != null && FirstIdentical(old(c.Items), obj) != null then Failed(Exist) else Ok
    ensures st == Ok ==> c.Items == old(c.Items) + [obj]
    ensures !obj.freed
    ensures st != Ok ==> && c.Items == old(c.Items) && obj.cache == null && obj.refcnt == old(obj.refcnt)
                         && NeverListed(obj)
  {
    hide Indexed; hide ListOk; hide Owned; hide FirstIdentical; hide Complete;
    if obj in c.Items { ListedInRing(c, obj); }
    OutsideRing(c, obj);
    TakeReference(c, obj);
    st := CacheInsert(c, obj);
    if st != Ok {
      DropReference(c, obj);
    }
  }

  // nl_object_get of an object outside the cache.
  method TakeReference(ghost c: NlCache, obj: NlObject)
    requires CacheOk(c) && obj !in c.Items && !obj.freed
    modifies obj`refcnt
    ensures CacheOk(c) && obj.refcnt == old(obj.refcnt) + 1 && HashNodes(c) == old(HashNodes(c))
  {
    hide ListOk; hide Indexed; hide Owned; hide AllCached;
    ObjectGet(obj);
    CacheKept(c);
  }

  // nl_object_put of an object outside the cache.
  method DropReference(ghost c: NlCache, obj: NlObject)
    requires CacheOk(c) && obj !in c.Items && !obj.freed && obj.refcnt >= 1
    requires obj.refcnt == 1 ==> obj.cache == null
    modifies obj`refcnt, obj`freed
    ensures CacheOk(c) && HashNodes(c) == old(HashNodes(c))
    ensures obj.refcnt == old(obj.refcnt) - 1 && (obj.freed <==> obj.refcnt == 0)
  {
    hide ListOk; hide Indexed; hide Owned; hide AllCached;
    ObjectPut(obj);
    CacheKept(c);
  }

  method AddClone(c: NlCache, obj: NlObject) returns (st: Status, added: NlObject)
    requires CacheOk(c) && obj.ops == c.objOps
    requires c.hashtable != null ==> Complete(c.objOps, obj.data)
    modifies c`nitems, c`Items, c.items`prev, c.items.prev`next
    modifies Table(c)`Chains, Table(c)`nodes
    ensures CacheOk(c)
    ensures fresh(HashNodes(c) - old(HashNodes(c)))
    ensures st == if c.hashtable != null && FirstIdentical(old(c.Items), obj) != null then Failed(Exist) else Ok
    ensures fresh(added) && added.holders == 0 && added.data == obj.data && added.msgtype == obj.msgtype
    ensures st == Ok ==> c.Items == old(c.Items) + [added]
    ensures st != Ok ==> c.Items == old(c.Items) && added.freed
  {
    hide Indexed; hide ListOk; hide Owned; hide FirstIdentical; hide Complete;
    added := MakeClone(c, obj);
    SameIdentity(c.Items, obj, added);
    st := CacheInsert(c, added);
    if st != Ok {
      DropReference(c, added);
    }
  }

  // The clone to be added: its single reference will be the cache's.
  method MakeClone(ghost c: NlCache, obj: NlObject) returns (added: NlObject)
    requires CacheOk(c)
    ensures CacheOk(c) && fresh(added) && fresh(added.list) && Pending(added)
    ensures added.ops == obj.ops && added.data == obj.data && added.msgtype == obj.msgtype && added.holders == 0
  {
    hide Indexed; hide ListOk; hide Owned; hide AllCached;
    added := ObjectClone(obj);
    added.holders := 0;
    CacheKept(c);
  }

  // A clone is found where its original is.
  lemma {:induction false} SameIdentity(objs: seq<NlObject>, a: NlObject, b: NlObject)
    requires a.ops == b.ops && a.data == b.data
    ensures FirstIdentical(objs, a) == FirstIdentical(objs, b)
  {
    if objs != [] {
      SameIdentity(objs[1..], a, b);
    }
  }
}
