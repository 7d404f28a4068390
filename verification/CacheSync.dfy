// Taking objects out of caches, moving them between caches, and keeping a
// cache in step with events (lib/cache.c:367-375, 524-574, 787-900).

module CacheSync {
  import opened Types
  import opened List
  import opened Objects
  import opened HashTables
  import opened CacheIndex
  import opened Caches
  import opened CacheSearch

  // ---------- clearing ----------

  // The neighbours of a listed object are in the ring.
  lemma Neighbours(c: NlCache, i: nat)
    requires ListOk(c) && i < |c.Items|
    ensures c.Items[i].list.next in RingOf(c) && c.Items[i].list.prev in RingOf(c)
  {
    assert RingOf(c)[i + 1] == c.Items[i].list;
    assert RingOf(c)[i] in RingOf(c);
    if i + 1 < |c.Items| {
      assert RingOf(c)[i + 2] in RingOf(c);
    }
  }

  // An object in no cache: every reference is held outside, and it is freed
  // exactly when there is none.
  ghost predicate Settled(o: NlObject)
    reads o`cache, o`refcnt, o`holders, o`freed
  {
    o.cache == null && o.refcnt == o.holders && (o.freed <==> o.refcnt == 0)
  }

  // The heap objects a cache is made of.
  ghost predicate Within(c: NlCache, heads: set<ListHead>, objs: set<NlObject>, nodes: set<HashNode>)
    reads c`Items, Table(c)`Chains
  {
    && (forall h :: h in RingOf(c) ==> h in heads)
    && (forall o :: o in c.Items ==> o in objs)
    && HashNodes(c) <= nodes
  }

  lemma WithoutWithin(c: NlCache, items: seq<NlObject>, i: nat)
    requires i < |items| && c.Items == Without(items, i)
    ensures forall o :: o in c.Items ==> o in items
    ensures forall h :: h in RingOf(c) ==> h in [c.items] + Lists(items)
  {
    forall o | o in c.Items ensures o in items {
      var k :| 0 <= k < |c.Items| && c.Items[k] == o;
      WithoutAt(items, i, k);
    }
    forall h | h in Lists(c.Items) ensures h in Lists(items) {
      var k :| 0 <= k < |c.Items| && c.Items[k].list == h;
      WithoutAt(items, i, k);
      assert Lists(items)[if k < i then k else k + 1] == h;
    }
  }

  // RemoveFrom, with the footprint named.
  method RemoveWithin(c: NlCache, obj: NlObject, ghost i: nat,
                      ghost heads: set<ListHead>, ghost objs: set<NlObject>, ghost nodes: set<HashNode>)
    requires CacheOk(c) && i < |c.Items| && obj == c.Items[i] && Within(c, heads, objs, nodes)
    modifies c`nitems, c`Items, heads`next, heads`prev
    modifies Table(c)`Chains, Table(c)`nodes, nodes`next
    modifies obj`cache, obj`refcnt, obj`freed
    ensures CacheOk(c) && c.Items == Without(old(c.Items), i) && Within(c, heads, objs, nodes)
    ensures Settled(obj) && obj.list.next == old(obj.list.next) && !NeverListed(obj)
  {
    hide ListOk; hide Owned; hide Indexed; hide AllCached;
    Neighbours(c, i);
    RemoveFrom(c, obj, i);
    WithoutWithin(c, old(c.Items), i);
  }

  // nl_cache_clear: the next object is remembered before the current one goes.
  method CacheClear(c: NlCache, ghost heads: set<ListHead>, ghost objs: set<NlObject>, ghost nodes: set<HashNode>)
    requires CacheOk(c) && Within(c, heads, objs, nodes)
    modifies c`nitems, c`Items, heads`next, heads`prev
    modifies Table(c)`Chains, Table(c)`nodes, nodes`next
    modifies objs`cache, objs`refcnt, objs`freed
    ensures CacheOk(c) && c.Items == [] && Within(c, heads, objs, nodes)
    ensures forall o {:trigger o in old(c.Items)} :: o in old(c.Items) ==> Settled(o)
  {
    hide CacheOk; hide Within;
    ghost var items := c.Items;
    CacheDistinct(c);
    WalkStep(c, 0);
    WalkStep(c, 1);
    var pos := c.items.next;
    var n := pos.next;
    ghost var k := 0;
    while pos != c.items
      invariant CacheOk(c) && Within(c, heads, objs, nodes)
      invariant k <= |items| && c.Items == items[k..]
      invariant pos == HeadAt(c, 0) && (c.Items != [] ==> n == HeadAt(c, 1))
      invariant forall i :: 0 <= i < k ==> Settled(items[i])
      decreases |items| - k
    {
      WalkStep(c, 0);
      FirstWithin(c, heads, objs, nodes);
      RemoveWithin(c, pos.owner, 0, heads, objs, nodes);
      k := k + 1;
      pos := n;
      WalkStep(c, 0);
      WalkStep(c, 1);
      n := n.next;
    }
    WalkStep(c, 0);
  }

  lemma CacheDistinct(c: NlCache)
    requires CacheOk(c)
    ensures Distinct(c.Items)
  {}

  lemma FirstWithin(c: NlCache, heads: set<ListHead>, objs: set<NlObject>, nodes: set<HashNode>)
    requires Within(c, heads, objs, nodes) && c.Items != []
    ensures c.Items[0] in objs
  {}

  // ---------- moving an object in (cache.c:524-540) ----------

  // nl_cache_move of an object that is in no cache.  When the insertion fails
  // the reference just taken is not given back.
  method MoveLoose(c: NlCache, obj: NlObject) returns (st: Status)
    requires CacheOk(c) && Usable(obj) && obj.cache == null
    requires c.hashtable != null && obj.ops == c.objOps ==> Complete(c.objOps, obj.data)
    modifies c`nitems, c`Items, c.items`prev, c.items.prev`next
    modifies obj`cache, obj`refcnt, obj.list`next, obj.list`prev
    modifies Table(c)`Chains, Table(c)`nodes
    ensures CacheOk(c) && fresh(HashNodes(c) - old(HashNodes(c)))
    ensures st == if obj.ops != c.objOps then Failed(ObjMismatch)
                  else if c.hashtable != null && FirstIdentical(old(c.Items), obj) != null then Failed(Exist)
                  else Ok
    ensures !obj.freed && obj.cache == if st == Ok then c else null
    ensures st == Ok ==> c.Items == old(c.Items) + [obj]
    ensures st != Ok ==> c.Items == old(c.Items)
    ensures st == Failed(Exist) ==> obj.refcnt == obj.holders + 1
    ensures st == Failed(ObjMismatch) ==> obj.refcnt == obj.holders
  {
    hide Indexed; hide ListOk; hide Owned; hide FirstIdentical; hide Complete;
    if c.objOps != obj.ops {
      return Failed(ObjMismatch);
    }
    OutsideRing(c, obj);
    TakeReference(c, obj);
    st := CacheInsert(c, obj);
    if st == Ok { InsertedCache(c, obj); }
  }

  lemma InsertedCache(c: NlCache, obj: NlObject)
    requires CacheOk(c) && obj in c.Items
    ensures obj.cache == c && !obj.freed
  {
    hide Indexed; hide ListOk; hide Owned;
  }

  // A caller returns its reference to an object outside the cache.
  method Release(ghost c: NlCache, obj: NlObject)
    requires CacheOk(c) && obj !in c.Items && Settled(obj) && obj.holders >= 1
    modifies obj`refcnt, obj`freed, obj`holders
    ensures CacheOk(c) && HashNodes(c) == old(HashNodes(c))
    ensures Settled(obj) && obj.holders == old(obj.holders) - 1
  {
    hide ListOk; hide Indexed; hide Owned; hide AllCached;
    obj.holders := obj.holders - 1;
    ObjectPut(obj);
    CacheKept(c);
  }

  // ---------- including an event (cache.c:787-900) ----------

  // Which kind of change callback is registered.
  datatype Callback = NoCallback | V1 | V2

  // What the registered callback is told.
  datatype Event =
    | Quiet
    | New(obj: NlObject)
    | ChangeV1(obj: NlObject)
    | ChangeV2(before: NlObject, obj: NlObject, diff: Difference)
    | Del(obj: NlObject)

  // The callback a cache makes for an event about obj, by what it holds.
  function EventFor(act: Action, cb: Callback, items: seq<NlObject>, obj: NlObject): Event
  {
    var old' := FirstIdentical(items, obj);
    if cb == NoCallback || act == ActOther then Quiet
    else if act == ActDel then (if old' == null then Quiet else Del(old'))
    else if old' == null then New(obj)
    else
      var diff := ObjectDiff(old', obj);
      if !diff.NonZero() then Quiet
      else if cb == V2 then ChangeV2(old', obj, diff)
      else ChangeV1(obj)
  }

  // What a callback has to say of an event about the payload d when the cache
  // holds m: new for an absent key, change for a present key of whose compared
  // attributes one mismatches, delete for a removed key, otherwise none.
  ghost predicate EventMeans(ops: ObjectOps, cb: Callback, m: map<Data, Data>, act: Action, d: Data, ev: Event)
  {
    var k := Key(ops, d);
    if cb == NoCallback || act == ActOther then ev == Quiet
    else if act == ActDel then (if k in m then ev.Del? && ev.obj.data == m[k] else ev == Quiet)
    else if k !in m then ev.New? && ev.obj.data == d
    else if !Differ(ops, m[k], d) then ev == Quiet
    else if cb == V1 then ev.ChangeV1? && ev.obj.data == d
    else && ev.ChangeV2? && ev.obj.data == d && ev.before.data == m[k] && ev.diff.Bits?
         && forall attr :: attr in ev.diff.attrs <==> attr in ops.compares && Mismatch(m[k], d, attr)
  }

  lemma EventByValue(ops: ObjectOps, items: seq<NlObject>, obj: NlObject, act: Action, cb: Callback)
    requires DuplicateFree(ops, items) && obj.ops == ops && Complete(ops, obj.data)
    ensures EventMeans(ops, cb, Content(ops, items), act, obj.data, EventFor(act, cb, items, obj))
  {
    hide DuplicateFree; hide Key; hide Content; hide FirstIdentical; hide Differ;
    FoundIffKey(ops, items, obj);
    FoundOps(ops, items, obj);
  }

  lemma FoundOps(ops: ObjectOps, items: seq<NlObject>, obj: NlObject)
    requires obj.ops == ops
    ensures var r := FirstIdentical(items, obj); r != null ==> r.ops == ops && r in items
    ensures Complete(ops, obj.data) ==> ops.comparable
  {}

  // The list after the event.
  function IncludeItems(act: Action, items: seq<NlObject>, obj: NlObject): seq<NlObject>
  {
    match act
    case ActNew => RemoveFirst(items, obj) + [obj]
    case ActDel => RemoveFirst(items, obj)
    case ActOther => items
  }

  // The matching object is found, referenced and taken out (cache.c:798-821).
  method TakeOld(c: NlCache, obj: NlObject,
                 ghost heads: set<ListHead>, ghost objs: set<NlObject>, ghost nodes: set<HashNode>)
    returns (old': NlObject?)
    requires CacheOk(c) && Within(c, heads, objs, nodes) && obj.ops == c.objOps && obj !in objs
    modifies c`nitems, c`Items, heads`next, heads`prev
    modifies objs`cache, objs`refcnt, objs`freed, objs`holders
    modifies Table(c)`Chains, Table(c)`nodes, nodes`next
    ensures CacheOk(c) && Within(c, heads, objs, nodes)
    ensures old' == FirstIdentical(old(c.Items), obj)
    ensures c.Items == RemoveFirst(old(c.Items), obj)
    ensures old' != null ==> old' in objs && old' !in c.Items && Settled(old') && old'.holders >= 1
  {
    hide CacheOk; hide Settled; hide Cached;
    old' := SearchWithin(c, obj, heads, objs, nodes);
    if old' != null {
      FirstIndexFinds(c.Items, obj);
      ghost var i := FirstIndex(c.Items, obj);
      CacheDistinct(c);
      WithoutMembers(c.Items, i);
      RemoveWithin(c, old', i, heads, objs, nodes);
    } else {
      FirstIndexFinds(c.Items, obj);
    }
  }

  method SearchWithin(c: NlCache, obj: NlObject,
                      ghost heads: set<ListHead>, ghost objs: set<NlObject>, ghost nodes: set<HashNode>)
    returns (r: NlObject?)
    requires CacheOk(c) && Within(c, heads, objs, nodes) && obj.ops == c.objOps
    modifies objs`refcnt, objs`holders
    ensures CacheOk(c) && Within(c, heads, objs, nodes) && c.Items == old(c.Items)
    ensures r == FirstIdentical(c.Items, obj)
    ensures r != null ==> r in objs && r in c.Items && r.holders == old(r.holders) + 1
  {
    hide CacheOk; hide Cached;
    r := CacheSearchFor(c, obj);
  }

  // With an index there is no second identical object.
  lemma NoneLeft(c: NlCache, items: seq<NlObject>, obj: NlObject)
    requires CacheOk(c) && c.Items == RemoveFirst(items, obj) && obj.ops == c.objOps
    requires c.hashtable != null ==> DuplicateFree(c.objOps, items)  && Distinct(items)
    ensures c.hashtable != null ==> FirstIdentical(c.Items, obj) == null
  {
    if c.hashtable != null {
      RemoveFirstKeeps(c.objOps, items, obj);
    }
  }

  lemma HashedDuplicateFree(c: NlCache)
    requires CacheOk(c)
    ensures Distinct(c.Items) && (c.hashtable != null ==> DuplicateFree(c.objOps, c.Items))
  {}

  // MoveLoose, with the footprint named, of an object that is not a duplicate.
  method MoveWithin(c: NlCache, obj: NlObject,
                    ghost heads: set<ListHead>, ghost objs: set<NlObject>, ghost nodes: set<HashNode>)
    requires CacheOk(c) && Within(c, heads, objs, nodes) && obj.ops == c.objOps
    requires Usable(obj) && obj.cache == null
    requires c.hashtable != null ==> Complete(c.objOps, obj.data) && FirstIdentical(c.Items, obj) == null
    modifies c`nitems, c`Items, heads`next, heads`prev, obj.list`next, obj.list`prev
    modifies obj`cache, obj`refcnt
    modifies Table(c)`Chains, Table(c)`nodes
    ensures CacheOk(c) && c.Items == old(c.Items) + [obj] && obj.cache == c && !obj.freed
    ensures Within(c, heads + {obj.list}, objs + {obj}, nodes + HashNodes(c)) && fresh(HashNodes(c) - nodes)
  {
    hide ListOk; hide Owned; hide Indexed; hide AllCached; hide FirstIdentical; hide Complete;
    TailInRing(c);
    var st := MoveLoose(c, obj);
    assert Lists(c.Items) == Lists(old(c.Items)) + [obj.list];
  }

  // cache_include of a new object (cache.c:796-853)
  method IncludeNew(c: NlCache, obj: NlObject, cb: Callback,
                    ghost heads: set<ListHead>, ghost objs: set<NlObject>, ghost nodes: set<HashNode>)
    returns (ev: Event)
    requires CacheOk(c) && Within(c, heads, objs, nodes)
    requires Usable(obj) && obj.cache == null && obj.ops == c.objOps && obj !in objs && obj.list !in heads
    requires c.hashtable != null ==> Complete(c.objOps, obj.data)
    modifies c`nitems, c`Items, heads`next, heads`prev, obj.list`next, obj.list`prev
    modifies objs`cache, objs`refcnt, objs`freed, objs`holders, obj`cache, obj`refcnt
    modifies Table(c)`Chains, Table(c)`nodes, nodes`next
    ensures CacheOk(c) && c.Items == RemoveFirst(old(c.Items), obj) + [obj] && obj.cache == c && !obj.freed
    ensures ev == EventFor(ActNew, cb, old(c.Items), obj)
    ensures Within(c, heads + {obj.list}, objs + {obj}, nodes + HashNodes(c)) && fresh(HashNodes(c) - nodes)
  {
    hide CacheOk; hide Settled; hide Cached; hide FirstIdentical; hide Complete; hide RemoveFirst; hide DuplicateFree; hide Distinct;
    ev := Quiet;
    HashedDuplicateFree(c);
    var old' := TakeOld(c, obj, heads, objs, nodes);
    NoneLeft(c, old(c.Items), obj);
    MoveWithin(c, obj, heads, objs, nodes);
    if old' == null {
      if cb != NoCallback { ev := New(obj); }
    } else {
      var diff := ObjectDiff(old', obj);
      if diff.NonZero() && cb == V2 {
        ev := ChangeV2(old', obj, diff);
      } else if diff.NonZero() && cb == V1 {
        ev := ChangeV1(obj);
      }
      Release(c, old');
    }
  }

  // cache_include of a deletion
  method IncludeDel(c: NlCache, obj: NlObject, cb: Callback,
                    ghost heads: set<ListHead>, ghost objs: set<NlObject>, ghost nodes: set<HashNode>)
    returns (ev: Event)
    requires CacheOk(c) && Within(c, heads, objs, nodes)
    requires Usable(obj) && obj.cache == null && obj.ops == c.objOps && obj !in objs && obj.list !in heads
    modifies c`nitems, c`Items, heads`next, heads`prev
    modifies objs`cache, objs`refcnt, objs`freed, objs`holders
    modifies Table(c)`Chains, Table(c)`nodes, nodes`next
    ensures CacheOk(c) && c.Items == RemoveFirst(old(c.Items), obj)
    ensures ev == EventFor(ActDel, cb, old(c.Items), obj)
    ensures Within(c, heads, objs, nodes)
  {
    hide CacheOk; hide Settled; hide Cached; hide FirstIdentical; hide RemoveFirst;
    ev := Quiet;
    var old' := TakeOld(c, obj, heads, objs, nodes);
    if old' != null {
      if cb != NoCallback { ev := Del(old'); }
      Release(c, old');
    }
  }

  // cache_include for a type without oo_update, called with an object that is
  // in no cache.
  method IncludeAct(c: NlCache, obj: NlObject, act: Action, cb: Callback,
                    ghost heads: set<ListHead>, ghost objs: set<NlObject>, ghost nodes: set<HashNode>)
    returns (ev: Event)
    requires CacheOk(c) && Within(c, heads, objs, nodes)
    requires Usable(obj) && obj.cache == null && obj.ops == c.objOps && obj !in objs && obj.list !in heads
    requires c.hashtable != null ==> Complete(c.objOps, obj.data)
    modifies c`nitems, c`Items, heads`next, heads`prev, obj.list`next, obj.list`prev
    modifies objs`cache, objs`refcnt, objs`freed, objs`holders, obj`cache, obj`refcnt
    modifies Table(c)`Chains, Table(c)`nodes, nodes`next
    ensures CacheOk(c) && c.Items == IncludeItems(act, old(c.Items), obj)
    ensures ev == EventFor(act, cb, old(c.Items), obj)
    ensures Within(c, heads + {obj.list}, objs + {obj}, nodes + HashNodes(c)) && fresh(HashNodes(c) - nodes)
    ensures !obj.freed && obj.cache == if act == ActNew then c else null
    ensures act != ActNew ==> obj.refcnt == obj.holders
  {
    hide CacheOk; hide Cached; hide FirstIdentical; hide Complete; hide RemoveFirst;
    if act == ActNew {
      ev := IncludeNew(c, obj, cb, heads, objs, nodes);
    } else if act == ActDel {
      ev := IncludeDel(c, obj, cb, heads, objs, nodes);
    } else {
      ev := Quiet;
    }
  }
}
