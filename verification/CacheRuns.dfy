// Whole runs of a program that uses several caches: every reference is
// accounted for at all times (lib/cache.c:367-574, lib/object.c:171-230,
// lib/hashtable.c:118-191).

module CacheRuns {
  import opened Types
  import opened List
  import opened Objects
  import opened HashTables
  import opened CacheIndex
  import opened Caches
  import opened CacheSearch
  import opened CacheSync
  import opened CacheOps
  import opened CacheResync
  import opened ResyncSpec

  // A program: its caches, every object it ever allocated, and what all of
  // this is made of.
  class Client {
    const caches: seq<NlCache>
    ghost var objs: set<NlObject>
    ghost var repr: set<object>
  }

  // Every object of a cache is known.
  ghost predicate Known(w: Client)
    reads w`objs, w.caches`Items
  {
    forall c, o :: c in w.caches && o in c.Items ==> o in w.objs
  }

  // An object says which cache it is in, and in no cache only outside
  // references keep it.
  ghost predicate Placed(w: Client)
    reads w`objs, w.caches`Items, w.objs`cache, w.objs`refcnt, w.objs`holders, w.objs`freed
    reads (set o | o in w.objs :: o.list)`owner
  {
    forall o {:trigger o in w.objs} :: o in w.objs ==>
      && o.list.owner == o
      && (o.cache == null ==> Settled(o))
      && (o.cache != null ==> o.cache in w.caches && o in o.cache.Items)
  }

  ghost predicate Reached(w: Client)
    reads w`repr, w`objs, Tables(w)`Chains
  {
    && w !in w.repr
    && (forall c :: c in w.caches ==> c.items in w.repr && HashNodes(c) <= w.repr)
    && (forall o :: o in w.objs ==> o in w.repr && o.list in w.repr)
  }

  ghost predicate AllSeparate(w: Client)
  {
    forall c, d :: c in w.caches && d in w.caches && c != d ==> Separate(c, d)
  }

  function Tables(w: Client): set<HashTable>
  {
    set c | c in w.caches && c.hashtable != null :: c.hashtable
  }

  ghost predicate Conserved(w: Client)
    reads *
  {
    && AllSeparate(w) && (forall c :: c in w.caches ==> CacheOk(c))
    && Known(w) && Placed(w) && Reached(w)
  }

  // ---------- the caches an operation does not concern ----------

  ghost predicate AllOk(ds: set<NlCache>, heads: set<ListHead>, objs: set<NlObject>, nodes: set<HashNode>,
                        tables: set<HashTable>)
    reads ds`Items, ds`nitems, heads`next, heads`prev, heads`owner
    reads objs`cache, objs`freed, objs`refcnt, objs`holders
    reads tables`Chains, tables`nodes, nodes`next
  {
    forall d :: d in ds ==> Table(d) <= tables && Within(d, heads, objs, nodes) && CacheOk(d)
  }

  ghost function Others(w: Client, c: NlCache): set<NlCache>
  {
    set d | d in w.caches && d != c
  }

  ghost function HeadsOf(ds: set<NlCache>): set<ListHead>
    reads ds`Items
  {
    set d, h | d in ds && h in RingOf(d) :: h
  }

  ghost function MembersOf(ds: set<NlCache>): set<NlObject>
    reads ds`Items
  {
    set d, o | d in ds && o in d.Items :: o
  }

  ghost function TablesOf(ds: set<NlCache>): set<HashTable>
  {
    set d, t | d in ds && t in Table(d) :: t
  }

  ghost function HashNodesOf(ds: set<NlCache>): set<HashNode>
    reads TablesOf(ds)`Chains
  {
    set d, n | d in ds && n in HashNodes(d) :: n
  }

  // The other caches are in order, and share nothing with c.
  ghost predicate Beside(c: NlCache, ds: set<NlCache>, g: Footprint, ts: set<HashTable>)
    reads ds`Items, ds`nitems, g.heads`next, g.heads`prev, g.heads`owner
    reads g.objs`cache, g.objs`freed, g.objs`refcnt, g.objs`holders
    reads ts`Chains, ts`nodes, g.nodes`next
    reads c`Items, Table(c)`Chains
  {
    && AllOk(ds, g.heads, g.objs, g.nodes, ts)
    && c !in ds && Heads(c) !! g.heads && Members(c) !! g.objs && HashNodes(c) !! g.nodes && Table(c) !! ts
  }

  lemma SplitOff(w: Client, c: NlCache) returns (ds: set<NlCache>, g: Footprint, ts: set<HashTable>)
    requires Conserved(w) && c in w.caches
    ensures Beside(c, ds, g, ts) && forall d :: d in w.caches ==> d == c || d in ds
    ensures forall o :: o in g.objs ==> o.cache != null && o.cache != c
    ensures forall h :: h in g.heads ==> h.owner == null || h.owner.cache != null
  {
    hide CacheOk; hide HashNodes; hide RingOf;
    ds := set d | d in w.caches && d != c;
    g := Footprint(HeadsOf(ds), MembersOf(ds), HashNodesOf(ds));
    ts := TablesOf(ds);
    forall d | d in ds
      ensures Heads(c) !! Heads(d) && Members(c) !! Members(d) && HashNodes(c) !! HashNodes(d)
    {
      Apart(c, d);
    }
    forall h | h in g.heads ensures h !in Heads(c) && (h.owner == null || h.owner.cache != null) {
      var d :| d in ds && h in RingOf(d);
      assert h in Heads(d);
      HeadOwner(d, h);
    }
    forall o | o in g.objs ensures o !in Members(c) && o.cache != null && o.cache != c {
      var d :| d in ds && o in d.Items;
      assert o in Members(d);
      MemberCache(d, o);
    }
    forall d | d in ds ensures Within(d, g.heads, g.objs, g.nodes) {}
  }

  lemma MemberCache(c: NlCache, o: NlObject)
    requires CacheOk(c) && o in c.Items
    ensures o.cache == c
  {
    hide Indexed;
  }

  lemma Rejoin(w: Client, c: NlCache, ds: set<NlCache>, g: Footprint, ts: set<HashTable>)
    requires AllOk(ds, g.heads, g.objs, g.nodes, ts) && CacheOk(c)
    requires forall d :: d in w.caches ==> d == c || d in ds
    ensures forall d :: d in w.caches ==> CacheOk(d)
  {
    hide CacheOk; hide Within;
  }

  // Every cache, when none is concerned.
  lemma SplitAll(w: Client) returns (ds: set<NlCache>, g: Footprint, ts: set<HashTable>)
    requires Conserved(w)
    ensures AllOk(ds, g.heads, g.objs, g.nodes, ts) && forall d :: d in w.caches ==> d in ds
    ensures forall o :: o in g.objs ==> o.cache != null
  {
    hide CacheOk; hide HashNodes; hide RingOf;
    ds := set d | d in w.caches;
    g := Footprint(HeadsOf(ds), MembersOf(ds), HashNodesOf(ds));
    ts := TablesOf(ds);
    forall o | o in g.objs ensures o.cache != null {
      var d :| d in ds && o in d.Items;
      MemberCache(d, o);
    }
    forall d | d in ds ensures Within(d, g.heads, g.objs, g.nodes) {}
  }

  lemma RejoinAll(w: Client, ds: set<NlCache>, g: Footprint, ts: set<HashTable>)
    requires AllOk(ds, g.heads, g.objs, g.nodes, ts)
    requires forall d :: d in w.caches ==> d in ds
    ensures forall d :: d in w.caches ==> CacheOk(d)
  {
    hide CacheOk; hide Within;
  }

  // A list without one of its objects.
  function IndexOf(items: seq<NlObject>, o: NlObject): (i: nat)
    requires o in items
    ensures i < |items| && items[i] == o
  {
    if items[0] == o then 0 else 1 + IndexOf(items[1..], o)
  }

  function Except(items: seq<NlObject>, o: NlObject): seq<NlObject>
  {
    if o in items then Without(items, IndexOf(items, o)) else items
  }

  // ---------- the steps everything is made of ----------

  // nl_object_alloc
  method Alloc(w: Client, ops: ObjectOps, data: Data, msgtype: nat) returns (obj: NlObject)
    requires Conserved(w)
    modifies w`objs, w`repr
    ensures Conserved(w) && fresh(obj) && w.objs == old(w.objs) + {obj} && fresh(w.repr - old(w.repr))
    ensures obj.ops == ops && obj.data == data && obj.msgtype == msgtype
    ensures obj.cache == null && NeverListed(obj) && obj.holders == 1 && fresh(obj.list)
  {
    hide CacheOk; hide Within; hide HashNodes; hide RingOf; hide AllSeparate; hide AllOk;
    ghost var ds, g, ts := SplitAll(w);
    obj := new NlObject(ops, data, msgtype);
    w.objs := w.objs + {obj};
    w.repr := w.repr + {obj, obj.list};
    RejoinAll(w, ds, g, ts);
    forall c | c in w.caches ensures HashNodes(c) == old(HashNodes(c)) {
      assert unchanged(Table(c)`Chains);
    }
    assert Placed(w);
    assert Reached(w);
  }

  // nl_object_get
  method Take(w: Client, obj: NlObject)
    requires Conserved(w) && obj in w.objs && !obj.freed
    modifies obj`refcnt, obj`holders
    ensures Conserved(w) && obj.holders == old(obj.holders) + 1
  {
    hide CacheOk; hide Within; hide HashNodes; hide RingOf; hide AllSeparate; hide Known; hide Reached; hide AllOk;
    if obj.cache == null {
      ghost var ds, g, ts := SplitAll(w);
      ObjectGet(obj);
      obj.holders := obj.holders + 1;
      RejoinAll(w, ds, g, ts);
    } else {
      ghost var ds, g, ts := SplitOff(w, obj.cache);
      GetCached(obj.cache, obj);
      Rejoin(w, obj.cache, ds, g, ts);
    }
    assert unchanged(Tables(w)`Chains);
  }

  // nl_object_put
  method Drop(w: Client, obj: NlObject)
    requires Conserved(w) && obj in w.objs && obj.holders >= 1
    modifies obj`refcnt, obj`holders, obj`freed
    ensures Conserved(w) && obj.holders == old(obj.holders) - 1
  {
    hide CacheOk; hide Within; hide HashNodes; hide RingOf; hide AllSeparate; hide Known; hide Reached; hide AllOk;
    if obj.cache == null {
      ghost var ds, g, ts := SplitAll(w);
      obj.holders := obj.holders - 1;
      ObjectPut(obj);
      RejoinAll(w, ds, g, ts);
    } else {
      ghost var ds, g, ts := SplitOff(w, obj.cache);
      PutCached(obj.cache, obj);
      Rejoin(w, obj.cache, ds, g, ts);
    }
    assert unchanged(Tables(w)`Chains);
  }

  // Removal from one cache leaves the others as they are.
  method RemoveBeside(c: NlCache, obj: NlObject, ghost i: nat,
                      ghost ds: set<NlCache>, ghost g: Footprint, ghost ts: set<HashTable>)
    requires CacheOk(c) && i < |c.Items| && obj == c.Items[i] && Beside(c, ds, g, ts)
    modifies c`nitems, c`Items, Heads(c)`next, Heads(c)`prev
    modifies Table(c)`Chains, Table(c)`nodes, HashNodes(c)`next
    modifies obj`cache, obj`refcnt, obj`freed
    ensures CacheOk(c) && c.Items == Without(old(c.Items), i) && AllOk(ds, g.heads, g.objs, g.nodes, ts)
    ensures forall o :: o in c.Items <==> o in old(c.Items) && o != obj
    ensures HashNodes(c) <= old(HashNodes(c))
    ensures obj.cache == null && Settled(obj) && Within(c, old(Heads(c)), old(Members(c)), old(HashNodes(c)))
  {
    hide CacheOk;
    CacheDistinct(c);
    WithoutMembers(c.Items, i);
    RemoveWithin(c, obj, i, Heads(c), Members(c), HashNodes(c));
  }

  // nl_cache_remove of an object that is in the cache c.
  method Remove(w: Client, c: NlCache, obj: NlObject)
    requires Conserved(w) && obj in w.objs && c in w.caches && obj.cache == c
    modifies c`nitems, c`Items, Heads(c)`next, Heads(c)`prev
    modifies Table(c)`Chains, Table(c)`nodes, HashNodes(c)`next
    modifies obj`cache, obj`refcnt, obj`freed
    ensures Conserved(w) && c.Items == Except(old(c.Items), obj) && obj.cache == null
    ensures HashNodes(c) <= old(HashNodes(c))
  {
    hide CacheOk; hide Settled; hide Within; hide AllSeparate;
    hide Without; hide HashNodes; hide RingOf;
    ghost var i := IndexOf(c.Items, obj);
    ghost var ds, g, ts := SplitOff(w, c);
    RemoveBeside(c, obj, i, ds, g, ts);
    Rejoin(w, c, ds, g, ts);
  }

  // __cache_add of an object outside every cache: one of its outside
  // references becomes the list's, or stays outside when the cache refuses it.
  method Enter(c: NlCache, obj: NlObject) returns (st: Status)
    requires CacheOk(c)
    requires obj.cache == null && obj.refcnt == obj.holders >= 1 && !obj.freed && obj.list.owner == obj
    requires obj.ops == c.objOps && (c.hashtable != null ==> Complete(c.objOps, obj.data))
    modifies c`nitems, c`Items, c.items`prev, c.items.prev`next
    modifies obj`cache, obj`refcnt, obj`holders, obj.list`next, obj.list`prev
    modifies Table(c)`Chains, Table(c)`nodes
    ensures CacheOk(c) && fresh(HashNodes(c) - old(HashNodes(c)))
    ensures st == if c.hashtable != null && FirstIdentical(old(c.Items), obj) != null then Failed(Exist) else Ok
    ensures !obj.freed && obj.holders == old(obj.holders) - if st == Ok then 1 else 0
    ensures st == Ok ==> c.Items == old(c.Items) + [obj] && obj.cache == c && obj.list.next != obj.list
    ensures st != Ok ==> && c.Items == old(c.Items) && obj.cache == null && obj.refcnt == obj.holders
                         && obj.list.next == old(obj.list.next)
  {
    hide CacheOk; hide Within; hide Complete; hide FirstIdentical; hide AllOk;
    hide ListOk; hide Owned; hide Indexed; hide AllCached;
    Entering(c, obj);
    SetHolders(c, obj, obj.holders - 1);
    st := CacheInsert(c, obj);
    if st == Ok {
      MemberCache(c, obj);
    } else {
      NotListed(c, obj);
      SetHolders(c, obj, obj.holders + 1);
    }
  }

  // A reference held outside is handed over.
  method SetHolders(ghost c: NlCache, obj: NlObject, holders: nat)
    requires CacheOk(c) && obj !in c.Items
    modifies obj`holders
    ensures CacheOk(c) && obj.holders == holders && HashNodes(c) == old(HashNodes(c))
  {
    hide ListOk; hide Indexed; hide Owned; hide AllCached;
    obj.holders := holders;
    CacheKept(c);
  }

  lemma Entering(c: NlCache, obj: NlObject)
    requires CacheOk(c) && obj.cache == null && obj.list.owner == obj
    ensures obj !in c.Items && obj.list !in RingOf(c) && c.items.prev in Heads(c) && c.items in Heads(c)
  {
    hide Indexed;
    OutsideRing(c, obj);
    TailInRing(c);
  }

  // Entering one cache leaves the others as they are.
  method EnterBeside(c: NlCache, obj: NlObject, ghost ds: set<NlCache>, ghost g: Footprint, ghost ts: set<HashTable>)
    returns (st: Status)
    requires CacheOk(c) && Beside(c, ds, g, ts) && obj !in g.objs && obj.list !in g.heads
    requires obj.cache == null && obj.refcnt == obj.holders >= 1 && !obj.freed && obj.list.owner == obj
    requires obj.ops == c.objOps && (c.hashtable != null ==> Complete(c.objOps, obj.data))
    modifies c`nitems, c`Items, Heads(c)`prev, Heads(c)`next
    modifies obj`cache, obj`refcnt, obj`holders, obj.list`next, obj.list`prev
    modifies Table(c)`Chains, Table(c)`nodes
    ensures CacheOk(c) && fresh(HashNodes(c) - old(HashNodes(c)))
    ensures AllOk(ds, g.heads, g.objs, g.nodes, ts)
    ensures forall d :: d in ds ==> HashNodes(d) == old(HashNodes(d))
    ensures st == if c.hashtable != null && FirstIdentical(old(c.Items), obj) != null then Failed(Exist) else Ok
    ensures !obj.freed && obj.holders == old(obj.holders) - if st == Ok then 1 else 0
    ensures st == Ok ==> c.Items == old(c.Items) + [obj] && obj.cache == c
    ensures st != Ok ==> c.Items == old(c.Items) && obj.cache == null && obj.refcnt == obj.holders
  {
    hide CacheOk; hide Within; hide HashNodes; hide RingOf; hide Complete; hide FirstIdentical;
    Entering(c, obj);
    st := Enter(c, obj);
    forall d | d in ds ensures HashNodes(d) == old(HashNodes(d)) {
      assert unchanged(Table(d)`Chains);
    }
  }

  method InsertPlaced(w: Client, c: NlCache, obj: NlObject) returns (st: Status)
    requires Conserved(w) && obj in w.objs && c in w.caches && obj.cache == null && obj.holders >= 1
    requires obj.ops == c.objOps && (c.hashtable != null ==> Complete(c.objOps, obj.data))
    modifies c`nitems, c`Items, Heads(c)`prev, Heads(c)`next
    modifies obj`cache, obj`refcnt, obj`holders, obj.list`next, obj.list`prev
    modifies Table(c)`Chains, Table(c)`nodes
    ensures (forall c :: c in w.caches ==> CacheOk(c)) && Known(w) && Placed(w)
    ensures fresh(HashNodes(c) - old(HashNodes(c)))
    ensures forall d :: d in w.caches && d != c ==> HashNodes(d) == old(HashNodes(d))
    ensures st == if c.hashtable != null && FirstIdentical(old(c.Items), obj) != null then Failed(Exist) else Ok
    ensures obj.holders == old(obj.holders) - if st == Ok then 1 else 0
    ensures st == Ok ==> c.Items == old(c.Items) + [obj] && obj.cache == c
    ensures st != Ok ==> c.Items == old(c.Items) && obj.cache == null
  {
    hide CacheOk; hide Within; hide HashNodes; hide RingOf; hide Complete; hide FirstIdentical; hide AllOk;
    hide AllSeparate; hide Heads; hide Members; hide Reached;
    ghost var ds, g, ts := SplitOff(w, c);
    st := EnterBeside(c, obj, ds, g, ts);
    Rejoin(w, c, ds, g, ts);
  }

  method Insert(w: Client, c: NlCache, obj: NlObject) returns (st: Status)
    requires Conserved(w) && obj in w.objs && c in w.caches && obj.cache == null && obj.holders >= 1
    requires obj.ops == c.objOps && (c.hashtable != null ==> Complete(c.objOps, obj.data))
    modifies c`nitems, c`Items, Heads(c)`prev, Heads(c)`next, w`repr
    modifies obj`cache, obj`refcnt, obj`holders, obj.list`next, obj.list`prev
    modifies Table(c)`Chains, Table(c)`nodes
    ensures Conserved(w) && fresh(w.repr - old(w.repr))
    ensures st == if c.hashtable != null && FirstIdentical(old(c.Items), obj) != null then Failed(Exist) else Ok
    ensures obj.holders == old(obj.holders) - if st == Ok then 1 else 0
    ensures st == Ok ==> c.Items == old(c.Items) + [obj] && obj.cache == c
    ensures st != Ok ==> c.Items == old(c.Items) && obj.cache == null
  {
    hide CacheOk; hide HashNodes; hide Complete; hide FirstIdentical; hide AllSeparate; hide Heads; hide Placed; hide Known;
    st := InsertPlaced(w, c, obj);
    w.repr := w.repr + HashNodes(c);
  }

  // nl_cache_search: the caller gets a reference to what is found.
  method Search(w: Client, c: NlCache, needle: NlObject) returns (r: NlObject?)
    requires Conserved(w) && c in w.caches && Searchable(c, needle)
    modifies Members(c)`refcnt, Members(c)`holders
    ensures Conserved(w) && r == FirstIdentical(c.Items, needle)
    ensures forall o :: o in c.Items && o != r ==> o.holders == old(o.holders)
    ensures r != null ==> r.holders == old(r.holders) + 1
  {
    hide CacheOk; hide Within; hide AllSeparate; hide HashNodes; hide RingOf; hide FirstIdentical; hide Known; hide Reached;
    ghost var ds, g, ts := SplitOff(w, c);
    forall o | o in c.Items ensures o.cache == c { MemberCache(c, o); }
    r := CacheSearchFor(c, needle);
    Rejoin(w, c, ds, g, ts);
    assert unchanged(Tables(w)`Chains);
  }

  // ---------- the operations of lib/cache.c ----------

  // All a cache is made of is the program's.
  lemma InRepr(w: Client, c: NlCache)
    requires Conserved(w) && c in w.caches
    ensures Heads(c) <= w.repr && Members(c) <= w.repr && HashNodes(c) <= w.repr && Table(c) <= Tables(w)
  {
    hide CacheOk; hide HashNodes;
    forall h | h in RingOf(c) ensures h in w.repr {
      if h != c.items {
        var i :| 0 <= i < |c.Items| && c.Items[i].list == h;
        assert c.Items[i] in c.Items;
      }
    }
  }

  // The cache an object is in, if any.
  ghost function Home(obj: NlObject): set<NlCache>
    reads obj`cache
  {
    if obj.cache == null then {} else {obj.cache}
  }

  lemma HomeParts(obj: NlObject)
    requires obj.cache != null
    ensures Heads(obj.cache) == HeadsOf(Home(obj)) && Table(obj.cache) == TablesOf(Home(obj))
    ensures HashNodes(obj.cache) == HashNodesOf(Home(obj))
  {
    hide HashNodes; hide RingOf;
  }

  lemma HomeInRepr(w: Client, obj: NlObject)
    requires Conserved(w) && obj in w.objs
    ensures HeadsOf(Home(obj)) <= w.repr && HashNodesOf(Home(obj)) <= w.repr && TablesOf(Home(obj)) <= Tables(w)
    ensures forall d :: d in Home(obj) ==> d in w.caches
  {
    hide HashNodes; hide RingOf; hide CacheOk;
    if obj.cache != null {
      InRepr(w, obj.cache);
      HomeParts(obj);
    }
  }

  lemma Located(w: Client, obj: NlObject)
    requires Conserved(w) && obj in w.objs
    ensures forall d :: d in w.caches && d != obj.cache ==> obj !in d.Items
    ensures obj.cache != null ==> obj in obj.cache.Items && obj.list.next != obj.list
    ensures obj.cache != null ==> obj.cache in w.caches
    ensures obj in w.repr && obj.list in w.repr && w !in w.repr
  {
    hide Owned; hide Indexed; hide ListOk;
    if obj.cache != null {
      ListedHere(obj.cache, obj);
    }
  }

  lemma ListedHere(c: NlCache, o: NlObject)
    requires CacheOk(c) && o in c.Items
    ensures o.list.next != o.list
  {
    hide Owned; hide Indexed; hide AllCached;
    ListedInRing(c, o);
  }

  // The first half of a move: a reference is taken and the object leaves its
  // cache, if it is in one.
  method TakeOff(w: Client, obj: NlObject)
    requires Conserved(w) && obj in w.objs && !obj.freed
    modifies obj`cache, obj`refcnt, obj`holders, obj`freed
    modifies Home(obj)`nitems, Home(obj)`Items, HeadsOf(Home(obj))`next, HeadsOf(Home(obj))`prev
    modifies TablesOf(Home(obj))`Chains, TablesOf(Home(obj))`nodes, HashNodesOf(Home(obj))`next
    ensures Conserved(w) && obj.cache == null && obj.holders == old(obj.holders) + 1
    ensures forall d :: d in w.caches ==> d.Items == Except(old(d.Items), obj)
  {
    hide Conserved; hide Without;
    Located(w, obj);
    Take(w, obj);
    if obj.list.next != obj.list {
      if obj.cache != null {
        HomeParts(obj);
        Remove(w, obj.cache, obj);
      }
    }
  }

  // nl_cache_move.  When the new cache refuses the object, the reference taken
  // for it is not given back.
  method Move(w: Client, c: NlCache, obj: NlObject) returns (st: Status)
    requires Conserved(w) && obj in w.objs && !obj.freed && c in w.caches
    requires c.hashtable != null && obj.ops == c.objOps ==> Complete(c.objOps, obj.data)
    modifies w`repr, w.caches, Tables(w), w.repr
    ensures Conserved(w) && fresh(w.repr - old(w.repr)) && (obj.holders >= 1 ==> !obj.freed) && w.objs == old(w.objs)
    ensures forall o :: o in old(w.objs) && o != obj ==> o.holders == old(o.holders) && o.freed == old(o.freed)
    ensures obj.ops != c.objOps ==> st == Failed(ObjMismatch) && obj.holders == old(obj.holders)
    ensures obj.ops != c.objOps ==> forall d :: d in w.caches ==> d.Items == old(d.Items)
    ensures obj.ops == c.objOps ==>
      && st == (if c.hashtable != null && FirstIdentical(Except(old(c.Items), obj), obj) != null then Failed(Exist) else Ok)
      && c.Items == Except(old(c.Items), obj) + (if st == Ok then [obj] else [])
      && (forall d :: d in w.caches && d != c ==> d.Items == Except(old(d.Items), obj))
      && obj.holders == old(obj.holders) + if st == Ok then 0 else 1
  {
    hide Conserved; hide FirstIdentical; hide Complete; hide Without; hide Heads; hide HashNodes; hide HeadsOf;
    hide HashNodesOf; hide TablesOf; hide Home; hide Except;
    if c.objOps != obj.ops {
      return Failed(ObjMismatch);
    }
    Located(w, obj);
    HomeInRepr(w, obj);
    TakeOff(w, obj);
    InRepr(w, c);
    st := Insert(w, c, obj);
    if obj.holders >= 1 { Alive(w, obj); }
  }

  // nl_cache_add.  An object that was ever on a list is cloned, and the clone
  // has no reference outside the cache.
  method Add(w: Client, c: NlCache, obj: NlObject) returns (st: Status, ghost added: NlObject)
    requires Conserved(w) && obj in w.objs && !obj.freed && c in w.caches
    requires c.hashtable != null && obj.ops == c.objOps ==> Complete(c.objOps, obj.data)
    modifies c`nitems, c`Items, Heads(c)`prev, Heads(c)`next, w`repr, w`objs
    modifies obj`cache, obj`refcnt, obj`holders, obj`freed, obj.list`next, obj.list`prev
    modifies Table(c)`Chains, Table(c)`nodes
    ensures Conserved(w) && obj.holders == old(obj.holders) && old(w.objs) <= w.objs
    ensures fresh(w.repr - old(w.repr))
    ensures st == if obj.ops != c.objOps then Failed(ObjMismatch)
                  else if c.hashtable != null && FirstIdentical(old(c.Items), obj) != null then Failed(Exist)
                  else Ok
    ensures c.Items == old(c.Items) + if st == Ok then [added] else []
    ensures w.objs <= old(w.objs) + {added} && (obj.ops != c.objOps ==> w.objs == old(w.objs))
    ensures if old(NeverListed(obj)) || obj.ops != c.objOps then added == obj else fresh(added) && added.holders == 0
    ensures st == Ok ==> && added in w.objs && added.ops == obj.ops && added.data == obj.data
  {
    hide Conserved; hide FirstIdentical; hide Complete;
    added := obj;
    if c.objOps != obj.ops {
      return Failed(ObjMismatch), obj;
    }
    Located(w, obj);
    var o := TakeOrClone(w, obj);
    added := o;
    SameIdentity(c.Items, obj, o);
    st := InsertOrDrop(w, c, o);
  }

  // The reference goes to the cache, or is given back.
  method InsertOrDrop(w: Client, c: NlCache, obj: NlObject) returns (st: Status)
    requires Conserved(w) && obj in w.objs && c in w.caches && obj.cache == null && obj.holders >= 1
    requires obj.ops == c.objOps && (c.hashtable != null ==> Complete(c.objOps, obj.data))
    modifies c`nitems, c`Items, Heads(c)`prev, Heads(c)`next, w`repr
    modifies obj`cache, obj`refcnt, obj`holders, obj`freed, obj.list`next, obj.list`prev
    modifies Table(c)`Chains, Table(c)`nodes
    ensures Conserved(w) && fresh(w.repr - old(w.repr))
    ensures st == if c.hashtable != null && FirstIdentical(old(c.Items), obj) != null then Failed(Exist) else Ok
    ensures obj.holders == old(obj.holders) - 1
    ensures c.Items == old(c.Items) + if st == Ok then [obj] else []
  {
    hide Conserved; hide FirstIdentical; hide Complete;
    st := Insert(w, c, obj);
    if st != Ok {
      Drop(w, obj);
    }
  }

  lemma Alive(w: Client, obj: NlObject)
    requires Conserved(w) && obj in w.objs && obj.holders >= 1
    ensures !obj.freed
  {
    if obj.cache != null { InCache(obj.cache, obj); }
  }

  method TakeOrClone(w: Client, obj: NlObject) returns (o: NlObject)
    requires Conserved(w) && obj in w.objs && !obj.freed
    modifies w`objs, w`repr, obj`refcnt, obj`holders
    ensures Conserved(w) && old(w.objs) <= w.objs && fresh(w.objs - old(w.objs)) && fresh(w.repr - old(w.repr))
    ensures o in w.objs && o.ops == obj.ops && o.data == obj.data && o.cache == null
    ensures w.objs <= old(w.objs) + {o}
    ensures if NeverListed(obj) then o == obj && o.holders == old(o.holders) + 1
            else fresh(o) && fresh(o.list) && o.holders == 1 && obj.holders == old(obj.holders)
  {
    hide Conserved;
    Located(w, obj);
    if obj.list.next != obj.list {
      o := Alloc(w, obj.ops, obj.data, obj.msgtype);
    } else {
      Take(w, obj);
      o := obj;
    }
  }

  // nl_cache_clear
  method Clear(w: Client, c: NlCache)
    requires Conserved(w) && c in w.caches
    modifies c`nitems, c`Items, Heads(c)`next, Heads(c)`prev
    modifies Table(c)`Chains, Table(c)`nodes, HashNodes(c)`next
    modifies Members(c)`cache, Members(c)`refcnt, Members(c)`freed
    ensures Conserved(w) && c.Items == []
    ensures forall o :: o in old(c.Items) ==> o.cache == null
  {
    hide CacheOk; hide Within; hide AllSeparate; hide RingOf; hide HashNodes;
    ghost var ds, g, ts := SplitOff(w, c);
    OwnParts(c);
    CacheClear(c, Heads(c), Members(c), HashNodes(c));
    Shrunk(c, old(Heads(c)), old(Members(c)), old(HashNodes(c)));
    Rejoin(w, c, ds, g, ts);
  }

  lemma OwnParts(c: NlCache)
    ensures Within(c, Heads(c), Members(c), HashNodes(c))
  {
    hide HashNodes; hide RingOf;
  }

  lemma Shrunk(c: NlCache, heads: set<ListHead>, objs: set<NlObject>, nodes: set<HashNode>)
    requires Within(c, heads, objs, nodes)
    ensures HashNodes(c) <= nodes
  {}

  // The identical object is found, referenced and taken out of the cache.
  method Evict(w: Client, c: NlCache, obj: NlObject) returns (old': NlObject?)
    requires Conserved(w) && obj in w.objs && c in w.caches && obj.ops == c.objOps
    modifies c`nitems, c`Items, Heads(c)`next, Heads(c)`prev
    modifies Table(c)`Chains, Table(c)`nodes, HashNodes(c)`next
    modifies Members(c)`cache, Members(c)`refcnt, Members(c)`holders, Members(c)`freed
    ensures Conserved(w) && c.Items == RemoveFirst(old(c.Items), obj)
    ensures old' == FirstIdentical(old(c.Items), obj)
    ensures forall o :: o in old(c.Items) && o != old' ==> o.holders == old(o.holders) && o.freed == old(o.freed)
    ensures old' != null ==> old' in w.objs && old'.holders == old(old'.holders) + 1 && !old(old'.freed)
  {
    hide Conserved; hide FirstIdentical; hide Complete; hide Without; hide HashNodes; hide RemoveFirst; hide Except;
    hide FirstIndex; hide Heads;
    old' := Search(w, c, obj);
    FoundPlace(w, c, obj);
    if old' != null {
      Remove(w, c, old');
    }
  }

  lemma FoundPlace(w: Client, c: NlCache, needle: NlObject)
    requires Conserved(w) && c in w.caches
    ensures var o := FirstIdentical(c.Items, needle);
            if o == null then RemoveFirst(c.Items, needle) == c.Items
            else RemoveFirst(c.Items, needle) == Except(c.Items, o) && o in w.objs && o.cache == c && !o.freed
  {
    hide Indexed; hide FirstIdentical;
    FirstIndexFinds(c.Items, needle);
    var o := FirstIdentical(c.Items, needle);
    if o != null {
      assert Distinct(c.Items);
      assert IndexOf(c.Items, o) == FirstIndex(c.Items, needle);
      InCache(c, o);
    }
  }

  // The cache's list after an event about obj, wherever obj was before.
  function Included(act: Action, items: seq<NlObject>, obj: NlObject): seq<NlObject>
  {
    match act
    case ActNew => Except(RemoveFirst(items, obj), obj) + [obj]
    case ActDel => RemoveFirst(items, obj)
    case ActOther => items
  }

  // Two payloads have the same value of an attribute, or both have none.
  function SameAt(a: Data, b: Data, attr: Attr): (same: bool)
    ensures same <==> if attr in a.attrs then attr in b.attrs && b.attrs[attr] == a.attrs[attr] else attr !in b.attrs
  {
    (attr in a.attrs <==> attr in b.attrs) && (attr in a.attrs ==> a.attrs[attr] == b.attrs[attr])
  }

  // On a duplicate-free list an event sets or removes its key, touches no other
  // key, and the callback says which: new for an absent key, change for a
  // present key of whose compared attributes one mismatches, delete for a
  // removed key, otherwise none.
  lemma IncludeIsMapUpdate(ops: ObjectOps, items: seq<NlObject>, obj: NlObject, act: Action, cb: Callback)
    requires DuplicateFree(ops, items) && Distinct(items) && obj.ops == ops && Complete(ops, obj.data)
    ensures DuplicateFree(ops, Included(act, items, obj)) && Distinct(Included(act, items, obj))
    ensures var m, m', k := Content(ops, items), Content(ops, Included(act, items, obj)), Key(ops, obj.data);
            m' == match act case ActNew => m[k := obj.data] case ActDel => m - {k} case ActOther => m
    ensures var m, k, ev := Content(ops, items), Key(ops, obj.data), EventFor(act, cb, items, obj);
            if cb == NoCallback || act == ActOther then ev == Quiet
            else if act == ActDel then
              if k in m then ev.Del? && ev.obj in items && ev.obj.data == m[k] else ev == Quiet
            else if k !in m then ev == New(obj)
            else if forall attr :: attr in ops.compares ==> SameAt(m[k], obj.data, attr) then ev == Quiet
            else if cb == V1 then ev == ChangeV1(obj)
            else && ev.ChangeV2? && ev.obj == obj && ev.before in items && ev.before.data == m[k] && ev.diff.Bits?
                 && forall attr :: attr in ev.diff.attrs <==> attr in ops.compares && !SameAt(m[k], obj.data, attr)
  {
    hide DuplicateFree; hide Key; hide Content; hide RemoveFirst; hide FirstIdentical;
    EventByValue(ops, items, obj, act, cb);
    FoundOps(ops, items, obj);
    ItselfRemoved(ops, items, obj);
    IncludeNewContent(ops, items, obj);
    RemoveFirstContent(ops, items, obj);
    RemoveFirstKeeps(ops, items, obj);
  }

  // With an index nothing identical is left, so the move that follows works.
  lemma NothingIdentical(w: Client, c: NlCache, obj: NlObject)
    requires Conserved(w) && c in w.caches && obj.ops == c.objOps
    ensures c.hashtable != null ==> FirstIdentical(Except(RemoveFirst(c.Items, obj), obj), obj) == null
  {
    HashedDuplicateFree(c);
    if c.hashtable != null {
      RemoveFirstKeeps(c.objOps, c.Items, obj);
      var rest := RemoveFirst(c.Items, obj);
      forall o | o in Except(rest, obj) ensures o in rest {
        var k :| 0 <= k < |Except(rest, obj)| && Except(rest, obj)[k] == o;
        if obj in rest { WithoutAt(rest, IndexOf(rest, obj), k); }
      }
    }
  }

  // cache_include of a new object
  method IncludeNewer(w: Client, c: NlCache, obj: NlObject, cb: Callback) returns (ev: Event)
    requires Conserved(w) && obj in w.objs && !obj.freed && c in w.caches && obj.ops == c.objOps
    requires c.hashtable != null ==> Complete(c.objOps, obj.data)
    modifies w`repr, w.caches, Tables(w), w.repr
    ensures Conserved(w) && fresh(w.repr - old(w.repr)) && w.objs == old(w.objs)
    ensures c.Items == Included(ActNew, old(c.Items), obj)
    ensures forall d :: d in w.caches && d != c ==> d.Items == Except(old(d.Items), obj)
    ensures ev == EventFor(ActNew, cb, old(c.Items), obj)
    ensures forall o :: o in old(w.objs) ==> o.holders == old(o.holders) && (old(o.freed) ==> o.freed)
  {
    hide Conserved; hide FirstIdentical; hide Complete; hide RemoveFirst; hide Except;
    ev := Quiet;
    var old' := Replace(w, c, obj);
    if old' == null {
      if cb != NoCallback { ev := New(obj); }
    } else {
      ev := Changed(cb, old', obj);
      Located(w, old');
      Drop(w, old');
    }
  }

  // The identical object gives way to obj; the caller holds a reference to it.
  method Replace(w: Client, c: NlCache, obj: NlObject) returns (old': NlObject?)
    requires Conserved(w) && obj in w.objs && !obj.freed && c in w.caches && obj.ops == c.objOps
    requires c.hashtable != null ==> Complete(c.objOps, obj.data)
    modifies w`repr, w.caches, Tables(w), w.repr
    ensures Conserved(w) && fresh(w.repr - old(w.repr)) && w.objs == old(w.objs)
    ensures old' == FirstIdentical(old(c.Items), obj) && (old' != null ==> old' in w.objs && !old(old'.freed))
    ensures c.Items == Included(ActNew, old(c.Items), obj)
    ensures forall d :: d in w.caches && d != c ==> d.Items == Except(old(d.Items), obj)
    ensures forall o :: o in old(w.objs) ==> && o.holders == old(o.holders) + (if o == old' then 1 else 0)
                                             && (old(o.freed) ==> o.freed)
  {
    hide Conserved; hide FirstIdentical; hide Complete; hide Without; hide Heads; hide HashNodes; hide RemoveFirst;
    hide Except;
    InRepr(w, c);
    Located(w, obj);
    NothingIdentical(w, c, obj);
    old' := Evict(w, c, obj);
    if old' == obj { Alive(w, obj); }
    var st := Move(w, c, obj);
  }

  // cache_include of a deletion
  method IncludeGone(w: Client, c: NlCache, obj: NlObject, cb: Callback) returns (ev: Event)
    requires Conserved(w) && obj in w.objs && c in w.caches && obj.ops == c.objOps
    modifies w.caches, Tables(w), w.repr
    ensures Conserved(w) && w.repr == old(w.repr) && w.objs == old(w.objs)
    ensures c.Items == Included(ActDel, old(c.Items), obj)
    ensures forall d :: d in w.caches && d != c ==> d.Items == old(d.Items)
    ensures ev == EventFor(ActDel, cb, old(c.Items), obj)
    ensures forall o :: o in old(w.objs) ==> o.holders == old(o.holders) && (old(o.freed) ==> o.freed)
  {
    hide Conserved; hide FirstIdentical; hide Complete; hide Without; hide Heads; hide HashNodes; hide RemoveFirst;
    ev := Quiet;
    InRepr(w, c);
    Located(w, obj);
    var old' := Evict(w, c, obj);
    if old' != null {
      if cb != NoCallback { ev := Del(old'); }
      Located(w, old');
      Drop(w, old');
    }
  }

  // The first entry of a cache's list of message types that has this id
  function FirstType(types: seq<MsgType>, id: nat): (i: nat)
    ensures i <= |types| && (i < |types| ==> types[i].id == id) && forall j :: 0 <= j < i ==> types[j].id != id
  {
    if types == [] || types[0].id == id then 0 else 1 + FirstType(types[1..], id)
  }

  // cache_include through nl_cache_include (cache.c:862-900), for a type without
  // oo_update, with any object the program has: the first entry for the
  // object's message type decides.
  method Include(w: Client, c: NlCache, obj: NlObject, cb: Callback) returns (st: Status, ev: Event)
    requires Conserved(w) && obj in w.objs && !obj.freed && c in w.caches
    requires c.hashtable != null && obj.ops == c.objOps ==> Complete(c.objOps, obj.data)
    modifies w`repr, w.caches, Tables(w), w.repr
    ensures Conserved(w) && fresh(w.repr - old(w.repr)) && w.objs == old(w.objs)
    ensures st == if c.objOps != obj.ops then Failed(ObjMismatch)
                  else if forall t :: t in c.msgtypes ==> t.id != obj.msgtype then Failed(MsgTypeNoSupport) else Ok
    ensures var i := FirstType(c.msgtypes, obj.msgtype);
            var act := if st == Ok then c.msgtypes[i].act else ActOther;
            && c.Items == Included(act, old(c.Items), obj)
            && (forall d :: d in w.caches && d != c ==>
                  d.Items == if act == ActNew then Except(old(d.Items), obj) else old(d.Items))
            && ev == EventFor(act, cb, old(c.Items), obj)
    ensures var i, m, k := FirstType(c.msgtypes, obj.msgtype), Content(c.objOps, old(c.Items)), Key(c.objOps, obj.data);
            st == Ok && DuplicateFree(c.objOps, old(c.Items)) && Complete(c.objOps, obj.data) ==>
              && DuplicateFree(c.objOps, c.Items)
              && Content(c.objOps, c.Items) == match c.msgtypes[i].act
                                               case ActNew => m[k := obj.data]
                                               case ActDel => m - {k}
                                               case ActOther => m
    ensures forall o :: o in old(w.objs) ==> o.holders == old(o.holders) && (old(o.freed) ==> o.freed)
  {
    hide Conserved; hide FirstIdentical; hide Complete; hide RemoveFirst; hide Except; hide Included; hide EventFor;
    hide Content; hide DuplicateFree;
    ev := Quiet;
    NothingIncluded(c.Items, obj, cb);
    if c.objOps != obj.ops {
      return Failed(ObjMismatch), Quiet;
    }
    var i := 0;
    while i < |c.msgtypes| && c.msgtypes[i].id != obj.msgtype
      invariant 0 <= i <= |c.msgtypes|
      invariant forall j :: 0 <= j < i ==> c.msgtypes[j].id != obj.msgtype
    {
      i := i + 1;
    }
    if i == |c.msgtypes| {
      return Failed(MsgTypeNoSupport), Quiet;
    }
    assert c.msgtypes[i] in c.msgtypes;
    st := Ok;
    IncludedContent(w, c, obj, c.msgtypes[i].act, cb);
    match c.msgtypes[i].act {
      case ActNew => ev := IncludeNewer(w, c, obj, cb);
      case ActDel => ev := IncludeGone(w, c, obj, cb);
      case ActOther =>
    }
  }

  lemma NothingIncluded(items: seq<NlObject>, obj: NlObject, cb: Callback)
    ensures Included(ActOther, items, obj) == items && EventFor(ActOther, cb, items, obj) == Quiet
  {}

  lemma IncludedContent(w: Client, c: NlCache, obj: NlObject, act: Action, cb: Callback)
    requires Conserved(w) && c in w.caches && obj.ops == c.objOps
    ensures var items, m, k := c.Items, Content(c.objOps, c.Items), Key(c.objOps, obj.data);
            DuplicateFree(c.objOps, items) && Complete(c.objOps, obj.data) ==>
              && DuplicateFree(c.objOps, Included(act, items, obj))
              && Content(c.objOps, Included(act, items, obj))
                 == match act case ActNew => m[k := obj.data] case ActDel => m - {k} case ActOther => m
  {
    hide DuplicateFree; hide Complete; hide Content; hide Included; hide EventFor; hide CacheOk; hide Key; hide SameAt;
    CacheDistinct(c);
    if DuplicateFree(c.objOps, c.Items) && Complete(c.objOps, obj.data) {
      IncludeIsMapUpdate(c.objOps, c.Items, obj, act, cb);
    }
  }

  // The callback for a replaced object (cache.c:838-848): none exactly when the
  // type can tell and none of the attributes it compares mismatches.
  method Changed(cb: Callback, old': NlObject, obj: NlObject) returns (ev: Event)
    ensures var same := old'.ops == obj.ops && obj.ops.comparable && !Differ(obj.ops, old'.data, obj.data);
            ev == if same || cb == NoCallback then Quiet
                  else if cb == V1 then ChangeV1(obj) else ChangeV2(old', obj, ObjectDiff(old', obj))
  {
    ev := Quiet;
    var diff := ObjectDiff(old', obj);
    if diff.NonZero() && cb == V2 {
      ev := ChangeV2(old', obj, diff);
    } else if diff.NonZero() && cb == V1 {
      ev := ChangeV1(obj);
    }
  }

  // A new event changes the cache without any callback exactly when the key is
  // present with a payload that differs only in attributes the type does not compare.
  lemma SilentChange(ops: ObjectOps, items: seq<NlObject>, obj: NlObject, cb: Callback)
    requires DuplicateFree(ops, items) && Distinct(items) && obj.ops == ops && Complete(ops, obj.data)
    requires cb != NoCallback
    ensures var m, k := Content(ops, items), Key(ops, obj.data);
            EventFor(ActNew, cb, items, obj) == Quiet && Content(ops, Included(ActNew, items, obj)) != m
            <==> k in m && m[k] != obj.data && forall attr :: attr in ops.compares ==> SameAt(m[k], obj.data, attr)
  {
    hide DuplicateFree; hide Distinct; hide Complete; hide Content; hide EventFor; hide Included; hide Key; hide SameAt;
    IncludeIsMapUpdate(ops, items, obj, ActNew, cb);
    var m, k := Content(ops, items), Key(ops, obj.data);
    assert m[k := obj.data][k] == obj.data;
  }

  // ---------- what conservation says ----------

  ghost function ListsWith(w: Client, o: NlObject): set<NlCache>
    reads w.caches`Items
  {
    set c | c in w.caches && o in c.Items
  }

  ghost function TablesWith(w: Client, o: NlObject): set<NlCache>
    reads w.caches, Tables(w)
  {
    set c | c in w.caches && exists n :: n in HashNodes(c) && n.obj == o
  }

  // At any time an object's count is its outside references, plus one for
  // every list and one for every hash table it is in; it is freed exactly when
  // the count is zero, and then it is linked nowhere.
  lemma CountIsSum(w: Client, o: NlObject)
    requires Conserved(w) && o in w.objs
    ensures o.refcnt == o.holders + |ListsWith(w, o)| + |TablesWith(w, o)|
    ensures o.freed <==> o.refcnt == 0
    ensures o.freed ==> ListsWith(w, o) == {} && TablesWith(w, o) == {}
    ensures |ListsWith(w, o)| <= 1
    ensures forall c :: c in w.caches ==> c.nitems == |c.Items|
  {
    hide Owned; hide HashNodes; hide Indexed;
    forall c | c in w.caches ensures o in c.Items <==> o.cache == c {
      if o in c.Items { InCache(c, o); }
    }
    forall c | c in w.caches
      ensures (exists n :: n in HashNodes(c) && n.obj == o) <==> (o.cache == c && c.hashtable != null)
    {
      TableHolds(c, o);
    }
    if o.cache == null {
      assert ListsWith(w, o) == {} && TablesWith(w, o) == {};
    } else {
      assert ListsWith(w, o) == {o.cache};
      assert TablesWith(w, o) == if o.cache.hashtable == null then {} else {o.cache};
      InCache(o.cache, o);
      assert Cached(o, o.cache);
    }
  }

  // A caller that gives back the last reference to an object gives back an
  // object outside every cache: nl_object_free never has to take it out.
  lemma LastIsOutside(w: Client, o: NlObject)
    requires Conserved(w) && o in w.objs && o.holders >= 1 && o.refcnt == 1
    ensures ListsWith(w, o) == {} && TablesWith(w, o) == {} && o.cache == null
  {
    hide Conserved; hide ListsWith; hide TablesWith;
    CountIsSum(w, o);
    NoCards(ListsWith(w, o));
    NoCards(TablesWith(w, o));
    Located(w, o);
    if o.cache != null { HomeListed(w, o); }
  }

  lemma NoCards(s: set<NlCache>)
    ensures |s| == 0 ==> s == {}
  {}

  lemma HomeListed(w: Client, o: NlObject)
    requires Conserved(w) && o in w.objs && o.cache != null && o in o.cache.Items && o.cache in w.caches
    ensures o.cache in ListsWith(w, o)
  {}

  lemma TableHolds(c: NlCache, o: NlObject)
    requires CacheOk(c) && (o.cache == c ==> o in c.Items)
    ensures (exists n :: n in HashNodes(c) && n.obj == o) <==> (o.cache == c && c.hashtable != null)
  {
    hide ListOk; hide Owned; hide DuplicateFree; hide KeygenSound;
    if n :| n in HashNodes(c) && n.obj == o {
      NodeOwner(c, n);
    }
    if o.cache == c && c.hashtable != null {
      var v := View(c.hashtable);
      var k := Keygen(c.objOps, o.data, |v|);
      assert o in v[k];
      var i :| 0 <= i < |v[k]| && v[k][i] == o;
      assert c.hashtable.Chains[k][i] in HashNodes(c);
    }
  }

  // ---------- runs ----------

  // What a program may ask for.  h names an object it has seen, c a cache.
  datatype Op =
    | OpAlloc(ops: ObjectOps, data: Data, msgtype: nat)
    | OpGet(h: nat)
    | OpPut(h: nat)
    | OpAdd(c: nat, h: nat)
    | OpRemove(h: nat)
    | OpClear(c: nat)
    | OpMove(c: nat, h: nat)
    | OpInclude(c: nat, h: nat, cb: Callback)
    | OpSearch(c: nat, h: nat)

  // A hashed cache takes only objects that carry their id attributes.
  predicate Fits(c: NlCache, o: NlObject)
  {
    c.hashtable != null && o.ops == c.objOps ==> Complete(c.objOps, o.data)
  }

  // What a program can tell of its caches: their lists, the references held
  // outside them, and the objects it was given.
  datatype Picture = Picture(lists: seq<seq<NlObject>>, held: map<NlObject, nat>, handles: seq<NlObject>)

  ghost function ListsOf(caches: seq<NlCache>): (r: seq<seq<NlObject>>)
    reads caches`Items
    ensures |r| == |caches| && forall i :: 0 <= i < |r| ==> r[i] == caches[i].Items
  {
    if caches == [] then [] else [caches[0].Items] + ListsOf(caches[1..])
  }

  ghost function Seen(w: Client, handles: seq<NlObject>): (p: Picture)
    reads w`objs, w.objs`holders, w.caches`Items
    ensures |p.lists| == |w.caches| && forall i :: 0 <= i < |p.lists| ==> p.lists[i] == w.caches[i].Items
    ensures p.handles == handles && (forall o :: o in w.objs && o.holders > 0 ==> o in p.held)
    ensures forall o :: o in p.held ==> o in w.objs && o.holders > 0 && p.held[o] == o.holders
  {
    Picture(ListsOf(w.caches), map o | o in w.objs && o.holders > 0 :: o.holders, handles)
  }

  // One reference more, and one less
  function More(held: map<NlObject, nat>, o: NlObject): (r: map<NlObject, nat>)
    ensures r.Keys == held.Keys + {o} && r[o] == if o in held then held[o] + 1 else 1
    ensures forall x :: x in held && x != o ==> r[x] == held[x]
  {
    held[o := 1 + if o in held then held[o] else 0]
  }

  function Less(held: map<NlObject, nat>, o: NlObject): (r: map<NlObject, nat>)
    requires o in held && held[o] >= 1
    ensures r.Keys == held.Keys - (if held[o] == 1 then {o} else {}) && (held[o] > 1 ==> r[o] == held[o] - 1)
    ensures forall x :: x in held && x != o ==> r[x] == held[x]
  {
    if held[o] == 1 then held - {o} else held[o := held[o] - 1]
  }

  // What a request about an object makes of what is seen
  ghost predicate ObjectLeads(caches: seq<NlCache>, op: Op, o: NlObject, s: Picture, t: Picture)
    requires |s.lists| == |caches| && o in s.held && s.held[o] >= 1
  {
    && t.handles == s.handles && |t.lists| == |s.lists|
    && match op
       case OpGet(_) => t.lists == s.lists && t.held == More(s.held, o)
       case OpPut(_) => t.lists == s.lists && t.held == Less(s.held, o)
       case OpRemove(_) => t.held == s.held && forall i :: 0 <= i < |caches| ==> t.lists[i] == Except(s.lists[i], o)
       case OpMove(c, _) => if c >= |caches| || !Takes(caches[c], o) then t == s else MoveLeads(caches, c, o, s, t)
       case OpAdd(c, _) => if c >= |caches| || !Takes(caches[c], o) then t == s else AddLeads(caches, c, o, s, t)
       case OpInclude(c, _, _) => if c >= |caches| || !Takes(caches[c], o) then t == s else IncludeLeads(caches, c, o, s, t)
       case _ => t == s
  }

  // An object that the cache has an object identical to is refused, and then
  // keeps the reference taken for it.
  ghost predicate MoveLeads(caches: seq<NlCache>, c: nat, o: NlObject, s: Picture, t: Picture)
    requires |t.lists| == |s.lists| == |caches| && c < |caches|
  {
    var dup := caches[c].hashtable != null && FirstIdentical(Except(s.lists[c], o), o) != null;
    && t.held == (if dup then More(s.held, o) else s.held)
    && forall i :: 0 <= i < |caches| ==>
         t.lists[i] == Except(s.lists[i], o) + if caches[i] == caches[c] && !dup then [o] else []
  }

  // The object itself is added, or a copy that nobody holds a reference to.
  ghost predicate AddLeads(caches: seq<NlCache>, c: nat, o: NlObject, s: Picture, t: Picture)
    requires |t.lists| == |s.lists| == |caches| && c < |caches|
  {
    if caches[c].hashtable != null && FirstIdentical(s.lists[c], o) != null then t == s
    else
      |t.lists[c]| == |s.lists[c]| + 1
      && var x := t.lists[c][|s.lists[c]|];
         && t.held == s.held && x.ops == o.ops && x.data == o.data
         && (x == o || x !in s.held) && (forall i :: 0 <= i < |caches| ==> x !in s.lists[i])
         && forall i :: 0 <= i < |caches| ==>
              t.lists[i] == s.lists[i] + if caches[i] == caches[c] then [x] else []
  }

  // The first entry for the message type decides.
  ghost predicate IncludeLeads(caches: seq<NlCache>, c: nat, o: NlObject, s: Picture, t: Picture)
    requires |t.lists| == |s.lists| == |caches| && c < |caches|
  {
    var types := caches[c].msgtypes;
    var k := FirstType(types, o.msgtype);
    var act := if k < |types| then types[k].act else ActOther;
    && t.held == s.held
    && forall i :: 0 <= i < |caches| ==>
         t.lists[i] == if caches[i] == caches[c] then Included(act, s.lists[i], o)
                       else if act == ActNew then Except(s.lists[i], o) else s.lists[i]
  }

  // The program gets a reference to what a search finds.
  function Found(s: Picture, r: NlObject?): Picture
  {
    if r == null then s else Picture(s.lists, More(s.held, r), s.handles + [r])
  }

  // What one request makes of what is seen
  ghost predicate Leads(caches: seq<NlCache>, op: Op, s: Picture, t: Picture)
    requires |s.lists| == |caches|
  {
    if op.OpAlloc? then
      |t.handles| > |s.handles|
      && var o := t.handles[|s.handles|];
         && o !in s.held && (forall i :: 0 <= i < |caches| ==> o !in s.lists[i]) && o.ops == op.ops && o.data == op.data && o.msgtype == op.msgtype
         && t == Picture(s.lists, s.held[o := 1], s.handles + [o])
    else if op.OpClear? then
      && t.held == s.held && t.handles == s.handles && |t.lists| == |s.lists|
      && forall i :: 0 <= i < |caches| ==>
           t.lists[i] == if op.c < |caches| && caches[i] == caches[op.c] then [] else s.lists[i]
    else if op.h >= |s.handles| || s.handles[op.h] !in s.held then t == s
    else if op.OpSearch? then
      var o := s.handles[op.h];
      var r := if op.c < |caches| && o.ops == caches[op.c].objOps then FirstIdentical(s.lists[op.c], o) else null;
      t == Found(s, r)
    else s.held[s.handles[op.h]] >= 1 && ObjectLeads(caches, op, s.handles[op.h], s, t)
  }

  // The references and the lists determine what is seen.
  lemma SeenIs(w: Client, p: Picture)
    requires forall o :: o in w.objs ==> (o in p.held <==> o.holders > 0)
    requires forall o :: o in p.held ==> o in w.objs && p.held[o] == o.holders
    ensures Seen(w, p.handles).held == p.held
    ensures |p.lists| == |w.caches| && (forall i :: 0 <= i < |p.lists| ==> p.lists[i] == w.caches[i].Items) ==>
              Seen(w, p.handles) == p
  {
    assert Seen(w, p.handles).held.Keys == p.held.Keys;
  }

  // The cache is of the object's type, and a hashed cache takes it.
  predicate Takes(c: NlCache, o: NlObject)
  {
    o.ops == c.objOps && (c.hashtable != null ==> Complete(c.objOps, o.data))
  }

  method StepMove(w: Client, c: nat, o: NlObject, ghost handles: seq<NlObject>)
    requires Conserved(w) && o in w.objs && o.holders >= 1 && c < |w.caches| && Fits(w.caches[c], o)
    modifies w, w.caches, Tables(w), w.repr
    ensures Conserved(w) && fresh(w.repr - old(w.repr)) && w.objs == old(w.objs)
    ensures forall x :: x in old(w.objs) && old(x.freed) ==> x.freed
    ensures Seen(w, handles).handles == handles
    ensures if !Takes(w.caches[c], o) then Seen(w, handles) == old(Seen(w, handles))
            else MoveLeads(w.caches, c, o, old(Seen(w, handles)), Seen(w, handles))
  {
    hide Conserved; hide FirstIdentical; hide Complete; hide Heads; hide HashNodes; hide Except; hide Settled;
    Located(w, o);
    Alive(w, o);
    var st := Move(w, w.caches[c], o);
  }

  method StepAdd(w: Client, c: nat, o: NlObject, ghost handles: seq<NlObject>)
    requires Conserved(w) && o in w.objs && o.holders >= 1 && c < |w.caches| && Fits(w.caches[c], o)
    modifies w, w.caches, Tables(w), w.repr
    ensures Conserved(w) && fresh(w.repr - old(w.repr)) && old(w.objs) <= w.objs
    ensures forall x :: x in old(w.objs) && old(x.freed) ==> x.freed
    ensures if !Takes(w.caches[c], o) then Seen(w, handles) == old(Seen(w, handles))
            else AddLeads(w.caches, c, o, old(Seen(w, handles)), Seen(w, handles))
  {
    hide Conserved; hide FirstIdentical; hide Complete; hide Settled; hide Seen; hide AddLeads; hide Tables;
    ghost var before := Seen(w, handles);
    ghost var added;
    var st;
    st, added := AddWide(w, w.caches[c], o);
    SeenIs(w, before);
    if w.caches[c].objOps == o.ops {
      AddedLeads(w.caches, c, o, before, Seen(w, handles), if st == Ok then added else null);
    }
  }

  // Add, and what it leaves alone
  method AddWide(w: Client, c: NlCache, o: NlObject) returns (st: Status, ghost added: NlObject)
    requires Conserved(w) && o in w.objs && o.holders >= 1 && c in w.caches && Fits(c, o)
    modifies w, w.caches, Tables(w), w.repr
    ensures Conserved(w) && fresh(w.repr - old(w.repr)) && old(w.objs) <= w.objs
    ensures forall x :: x in old(w.objs) ==> x.holders == old(x.holders) && (old(x.freed) ==> x.freed)
    ensures forall x :: x in w.objs && x !in old(w.objs) ==> x.holders == 0
    ensures st == if o.ops != c.objOps then Failed(ObjMismatch)
                  else if c.hashtable != null && FirstIdentical(old(c.Items), o) != null then Failed(Exist)
                  else Ok
    ensures c.Items == old(c.Items) + if st == Ok then [added] else []
    ensures forall d :: d in w.caches && d != c ==> d.Items == old(d.Items)
    ensures st == Ok ==> added.ops == o.ops && added.data == o.data && (added == o || added !in old(w.objs))
    ensures st == Ok ==> forall d :: d in w.caches ==> added !in old(d.Items)
  {
    hide Conserved; hide FirstIdentical; hide Complete; hide Heads; hide HashNodes; hide Settled; hide NeverListed;
    Located(w, o);
    Alive(w, o);
    if NeverListed(o) { Unlisted(w, o); }
    InRepr(w, c);
    st, added := Add(w, c, o);
  }

  lemma AddedLeads(caches: seq<NlCache>, c: nat, o: NlObject, s: Picture, t: Picture, added: NlObject?)
    requires |t.lists| == |s.lists| == |caches| && c < |caches| && t.held == s.held && t.handles == s.handles
    requires added == null <==> caches[c].hashtable != null && FirstIdentical(s.lists[c], o) != null
    requires forall i, j :: 0 <= i < j < |caches| && caches[i] == caches[j] ==> s.lists[i] == s.lists[j]
    requires forall i :: 0 <= i < |caches| ==>
               t.lists[i] == if caches[i] == caches[c] && added != null then s.lists[i] + [added] else s.lists[i]
    requires added != null ==> added.ops == o.ops && added.data == o.data && (added == o || added !in s.held)
    requires added != null ==> forall i :: 0 <= i < |caches| ==> added !in s.lists[i]
    ensures AddLeads(caches, c, o, s, t)
  {
    hide FirstIdentical;
    if added == null {
      assert t.lists == s.lists;
    }
  }

  lemma Unlisted(w: Client, o: NlObject)
    requires Conserved(w) && o in w.objs && NeverListed(o)
    ensures forall c :: c in w.caches ==> o !in c.Items
  {
    Located(w, o);
  }

  method StepInclude(w: Client, c: nat, o: NlObject, cb: Callback, ghost handles: seq<NlObject>)
    requires Conserved(w) && o in w.objs && o.holders >= 1 && c < |w.caches| && Fits(w.caches[c], o)
    modifies w, w.caches, Tables(w), w.repr
    ensures Conserved(w) && fresh(w.repr - old(w.repr)) && w.objs == old(w.objs)
    ensures forall x :: x in old(w.objs) && old(x.freed) ==> x.freed
    ensures if !Takes(w.caches[c], o) then Seen(w, handles) == old(Seen(w, handles))
            else IncludeLeads(w.caches, c, o, old(Seen(w, handles)), Seen(w, handles))
  {
    hide Conserved; hide FirstIdentical; hide Complete; hide Heads; hide HashNodes; hide Except; hide RemoveFirst;
    hide EventFor; hide Settled; hide Seen; hide Content; hide DuplicateFree; hide Key;
    ghost var before := Seen(w, handles);
    Located(w, o);
    Alive(w, o);
    var st, ev := Include(w, w.caches[c], o, cb);
    SeenIs(w, before);
  }

  method StepRemove(w: Client, o: NlObject, ghost handles: seq<NlObject>)
    requires Conserved(w) && o in w.objs && o.holders >= 1
    modifies w, w.caches, Tables(w), w.repr
    ensures Conserved(w) && fresh(w.repr - old(w.repr)) && w.objs == old(w.objs)
    ensures forall x :: x in old(w.objs) && old(x.freed) ==> x.freed
    ensures var s, t := old(Seen(w, handles)), Seen(w, handles);
            t.held == s.held && forall i :: 0 <= i < |w.caches| ==> t.lists[i] == Except(s.lists[i], o)
  {
    hide Conserved; hide Without; hide Heads; hide HashNodes; hide Settled; hide Seen; hide Except;
    ghost var before := Seen(w, handles);
    Located(w, o);
    Alive(w, o);
    forall d | d in w.caches && d != o.cache ensures Except(d.Items, o) == d.Items { ExceptNone(d.Items, o); }
    if o.cache != null {
      InRepr(w, o.cache);
      Remove(w, o.cache, o);
    }
    SeenIs(w, before);
  }

  method StepCount(w: Client, op: Op, o: NlObject, ghost handles: seq<NlObject>)
    requires Conserved(w) && o in w.objs && o.holders >= 1 && (op.OpGet? || op.OpPut?)
    modifies w, w.caches, Tables(w), w.repr
    ensures Conserved(w) && w.repr == old(w.repr) && w.objs == old(w.objs)
    ensures forall x :: x in old(w.objs) && old(x.freed) ==> x.freed
    ensures var s := old(Seen(w, handles));
            Seen(w, handles) == s.(held := if op.OpGet? then More(s.held, o) else Less(s.held, o))
  {
    hide Conserved; hide Heads; hide HashNodes; hide Settled; hide Seen;
    ghost var before := Seen(w, handles);
    Located(w, o);
    Alive(w, o);
    if op.OpGet? {
      Take(w, o);
    } else {
      Drop(w, o);
    }
    SeenIs(w, before.(held := if op.OpGet? then More(before.held, o) else Less(before.held, o)));
  }

  lemma ExceptNone(items: seq<NlObject>, o: NlObject)
    requires o !in items
    ensures Except(items, o) == items
  {}

  // One request about an object the program holds a reference to.
  method StepObject(w: Client, op: Op, o: NlObject, ghost handles: seq<NlObject>)
    requires Conserved(w) && o in w.objs && o.holders >= 1
    modifies w, w.caches, Tables(w), w.repr
    ensures Conserved(w) && fresh(w.repr - old(w.repr)) && old(w.objs) <= w.objs
    ensures forall x :: x in old(w.objs) && old(x.freed) ==> x.freed
    ensures ObjectLeads(w.caches, op, o, old(Seen(w, handles)), Seen(w, handles))
  {
    hide Conserved; hide FirstIdentical; hide Complete; hide Without; hide Heads; hide HashNodes;
    hide Settled; hide MoveLeads; hide AddLeads; hide IncludeLeads; hide Except;
    if op.OpGet? || op.OpPut? {
      StepCount(w, op, o, handles);
    } else if op.OpRemove? {
      StepRemove(w, o, handles);
    } else if op.OpMove? && op.c < |w.caches| && Fits(w.caches[op.c], o) {
      StepMove(w, op.c, o, handles);
    } else if op.OpAdd? && op.c < |w.caches| && Fits(w.caches[op.c], o) {
      StepAdd(w, op.c, o, handles);
    } else if op.OpInclude? && op.c < |w.caches| && Fits(w.caches[op.c], o) {
      StepInclude(w, op.c, o, op.cb, handles);
    }
  }

  method StepSearch(w: Client, c: NlCache, needle: NlObject, handles: seq<NlObject>) returns (handles': seq<NlObject>)
    requires Conserved(w) && c in w.caches && (c.hashtable != null ==> needle.ops == c.objOps)
    requires forall x :: x in handles ==> x in w.objs
    modifies w, w.caches, Tables(w), w.repr
    ensures Conserved(w) && w.repr == old(w.repr) && w.objs == old(w.objs)
    ensures forall x :: x in handles' ==> x in w.objs
    ensures forall x :: x in old(w.objs) && old(x.freed) ==> x.freed
    ensures Seen(w, handles') == Found(old(Seen(w, handles)), FirstIdentical(old(c.Items), needle))
  {
    hide Conserved; hide FirstIdentical; hide Heads; hide HashNodes; hide Seen; hide RemoveFirst; hide Except;
    ghost var before := Seen(w, handles);
    InRepr(w, c);
    FoundPlace(w, c, needle);
    var r := Search(w, c, needle);
    handles' := if r == null then handles else handles + [r];
    SeenIs(w, Found(before, r));
  }

  method StepClear(w: Client, c: NlCache, ghost handles: seq<NlObject>)
    requires Conserved(w) && c in w.caches
    modifies w, w.caches, Tables(w), w.repr
    ensures Conserved(w) && w.repr == old(w.repr) && w.objs == old(w.objs)
    ensures var s, t := old(Seen(w, handles)), Seen(w, handles);
            t.held == s.held && forall i :: 0 <= i < |w.caches| ==> t.lists[i] == if w.caches[i] == c then [] else s.lists[i]
    ensures forall x :: x in old(w.objs) && old(x.freed) ==> x.freed
  {
    hide Conserved; hide Heads; hide HashNodes;
    InRepr(w, c);
    forall x | x in c.Items ensures !x.freed && x in w.objs { MemberAlive(w, c, x); }
    Clear(w, c);
  }

  lemma MemberAlive(w: Client, c: NlCache, o: NlObject)
    requires Conserved(w) && c in w.caches && o in c.Items
    ensures !o.freed && o in w.objs
  {
    hide CacheOk;
    InCache(c, o);
  }

  // One request.  The program follows the rules: it names only objects it
  // holds a reference to, and gives a hashed cache only complete objects.
  method Step(w: Client, op: Op, handles: seq<NlObject>) returns (handles': seq<NlObject>)
    requires Conserved(w) && forall x :: x in handles ==> x in w.objs
    modifies w, w.caches, Tables(w), w.repr
    ensures Conserved(w) && fresh(w.repr - old(w.repr)) && old(w.objs) <= w.objs
    ensures forall x :: x in handles' ==> x in w.objs
    ensures Leads(w.caches, op, old(Seen(w, handles)), Seen(w, handles'))
    ensures forall x :: x in old(w.objs) && old(x.freed) ==> x.freed
  {
    hide Conserved; hide Complete; hide FirstIdentical; hide Except; hide Included; hide ObjectLeads;
    handles' := handles;
    if op.OpAlloc? {
      var o := Alloc(w, op.ops, op.data, op.msgtype);
      handles' := handles + [o];
    } else if op.OpClear? {
      if op.c < |w.caches| {
        StepClear(w, w.caches[op.c], handles);
      }
    } else if op.h < |handles| && handles[op.h].holders > 0 {
      if op.OpSearch? {
        if op.c < |w.caches| && handles[op.h].ops == w.caches[op.c].objOps {
          handles' := StepSearch(w, w.caches[op.c], handles[op.h], handles);
        }
      } else {
        StepObject(w, op, handles[op.h], handles);
      }
    }
  }

  // A run's pictures, one before each request and one at the end
  ghost predicate Traced(caches: seq<NlCache>, ops: seq<Op>, trace: seq<Picture>)
  {
    && |trace| == |ops| + 1
    && (forall i :: 0 <= i < |trace| ==> |trace[i].lists| == |caches|)
    && forall i :: 0 <= i < |ops| ==> Leads(caches, ops[i], trace[i], trace[i + 1])
  }

  // Every run of such a program, from any accounted state, conserves its
  // references, what was freed stays freed, and each request does to the lists
  // and the references what it is for and nothing else.
  method Run(w: Client, ops: seq<Op>) returns (handles: seq<NlObject>, ghost trace: seq<Picture>)
    requires Conserved(w)
    modifies w, w.caches, Tables(w), w.repr
    ensures Conserved(w) && fresh(w.repr - old(w.repr)) && old(w.objs) <= w.objs
    ensures forall x :: x in old(w.objs) && old(x.freed) ==> x.freed
    ensures Traced(w.caches, ops, trace) && trace[0] == old(Seen(w, [])) && trace[|ops|] == Seen(w, handles)
  {
    hide Conserved; hide Leads; hide Seen;
    handles, trace := [], [Seen(w, [])];
    var i := 0;
    while i < |ops|
      invariant 0 <= i <= |ops|
      invariant Conserved(w) && fresh(w.repr - old(w.repr)) && old(w.objs) <= w.objs
      invariant forall x :: x in handles ==> x in w.objs
      invariant forall x :: x in old(w.objs) && old(x.freed) ==> x.freed
      invariant Traced(w.caches, ops[..i], trace) && trace[0] == old(Seen(w, [])) && trace[i] == Seen(w, handles)
    {
      handles := Step(w, ops[i], handles);
      TracedMore(w.caches, ops, i, trace, Seen(w, handles));
      trace := trace + [Seen(w, handles)];
      i := i + 1;
    }
    assert ops[..i] == ops;
  }

  lemma TracedMore(caches: seq<NlCache>, ops: seq<Op>, i: nat, trace: seq<Picture>, p: Picture)
    requires i < |ops| && Traced(caches, ops[..i], trace) && |p.lists| == |caches| && Leads(caches, ops[i], trace[i], p)
    ensures Traced(caches, ops[..i + 1], trace + [p])
  {
    hide Leads;
  }

  // A program starts with empty caches and no objects.
  lemma StartConserved(w: Client)
    requires AllSeparate(w) && w !in w.repr && w.objs == {}
    requires forall c :: c in w.caches ==> CacheOk(c) && c.Items == [] && c.items in w.repr && HashNodes(c) == {}
    ensures Conserved(w)
  {
    hide CacheOk; hide HashNodes;
  }
}
