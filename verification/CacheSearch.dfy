// Walking and searching a cache (lib/cache.c:1085-1187).

module CacheSearch {
  import opened Types
  import opened List
  import opened Objects
  import opened HashTables
  import opened CacheIndex
  import opened Caches

  // The list head after i objects have been passed.
  ghost function HeadAt(c: NlCache, i: nat): ListHead
    reads c`Items
  {
    if i < |c.Items| then c.Items[i].list else c.items
  }

  // One step of nl_list_for_each_entry.
  lemma WalkStep(c: NlCache, i: nat)
    requires CacheOk(c)
    ensures i == 0 ==> c.items.next == HeadAt(c, 0)
    ensures i < |c.Items| ==> && HeadAt(c, i) != c.items
                              && HeadAt(c, i).owner == c.Items[i]
                              && HeadAt(c, i).next == HeadAt(c, i + 1)
    ensures i >= |c.Items| ==> HeadAt(c, i) == c.items
  {
    hide Indexed; hide AllCached;
    assert RingOf(c)[0] == c.items;
    if i < |c.Items| {
      assert c.Items[i] in c.Items;
      assert RingOf(c)[i + 1] == c.Items[i].list;
    }
    if i + 1 < |c.Items| {
      assert RingOf(c)[i + 2] == c.Items[i + 1].list;
    }
    if i == 0 && |c.Items| > 0 {
      assert RingOf(c)[1] == c.Items[0].list;
    }
  }

  // The loop of nl_cache_search for types without a key generator.
  method ScanIdentical(c: NlCache, needle: NlObject) returns (r: NlObject?)
    requires CacheOk(c)
    ensures CacheOk(c) && r == FirstIdentical(c.Items, needle)
  {
    hide CacheOk;
    ghost var i := 0;
    WalkStep(c, 0);
    var pos := c.items.next;
    while pos != c.items
      invariant CacheOk(c) && i <= |c.Items| && pos == HeadAt(c, i)
      invariant FirstIdentical(c.Items, needle) == FirstIdentical(c.Items[i..], needle)
      decreases |c.Items| - i
    {
      WalkStep(c, i);
      var obj := pos.owner;
      if IdenticalObjects(obj, needle) {
        return obj;
      }
      assert c.Items[i..][1..] == c.Items[i + 1..];
      pos := pos.next;
      i := i + 1;
    }
    if i < |c.Items| { WalkStep(c, i); }
    return null;
  }

  // The loop of nl_cache_find.
  method ScanMatching(c: NlCache, filter: NlObject) returns (r: NlObject?)
    requires CacheOk(c)
    ensures CacheOk(c) && r == FirstMatching(c.Items, filter)
  {
    hide CacheOk;
    ghost var i := 0;
    WalkStep(c, 0);
    var pos := c.items.next;
    while pos != c.items
      invariant CacheOk(c) && i <= |c.Items| && pos == HeadAt(c, i)
      invariant FirstMatching(c.Items, filter) == FirstMatching(c.Items[i..], filter)
      decreases |c.Items| - i
    {
      WalkStep(c, i);
      var obj := pos.owner;
      if MatchesFilter(obj, filter) {
        return obj;
      }
      assert c.Items[i..][1..] == c.Items[i + 1..];
      pos := pos.next;
      i := i + 1;
    }
    if i < |c.Items| { WalkStep(c, i); }
    return null;
  }

  // A needle of another type than the cache's is looked up with its own type's
  // key generator, which has to stay within the table.
  ghost predicate Searchable(c: NlCache, needle: NlObject)
  {
    c.hashtable != null && needle.ops != c.objOps ==> KeygenSound(needle.ops, c.hashtable.size)
  }

  // __cache_fast_lookup, without taking the reference
  method FastLookup(c: NlCache, ht: HashTable, needle: NlObject) returns (r: NlObject?)
    requires CacheOk(c) && c.hashtable == ht && Searchable(c, needle)
    ensures CacheOk(c) && r == FirstIdentical(c.Items, needle)
  {
    hide ListOk; hide Owned; hide AllCached; hide TableOk; hide KeygenSound; hide DuplicateFree; hide Agrees;
    TableSize(ht);
    LookupIsScan(c.objOps, c.Items, View(ht), needle);
    r := HashLookup(ht, needle);
    CacheKept(c);
  }

  // A caller takes a reference to an object of the cache.
  method GetCached(c: NlCache, obj: NlObject)
    requires CacheOk(c) && obj in c.Items
    modifies obj`refcnt, obj`holders
    ensures CacheOk(c)
    ensures obj.refcnt == old(obj.refcnt) + 1 && obj.holders == old(obj.holders) + 1
  {
    hide ListOk; hide Owned; hide Indexed;
    obj.refcnt := obj.refcnt + 1;
    obj.holders := obj.holders + 1;
  }

  // nl_cache_search (cache.c:1114-1130): with or without an index, the first
  // identical object of the list, and a reference to it.
  method CacheSearchFor(c: NlCache, needle: NlObject) returns (r: NlObject?)
    requires CacheOk(c) && Searchable(c, needle)
    modifies c.Items`refcnt, c.Items`holders
    ensures CacheOk(c)
    ensures r == FirstIdentical(c.Items, needle)
    ensures forall o :: o in c.Items && o != r ==> o.refcnt == old(o.refcnt) && o.holders == old(o.holders)
    ensures r != null ==> r.refcnt == old(r.refcnt) + 1 && r.holders == old(r.holders) + 1
  {
    hide CacheOk;
    if c.hashtable != null {
      r := FastLookup(c, c.hashtable, needle);
    } else {
      r := ScanIdentical(c, needle);
    }
    if r != null {
      GetCached(c, r);
    }
  }

  // nl_cache_find (cache.c:1149-1169)
  method CacheFind(c: NlCache, filter: NlObject) returns (r: NlObject?)
    requires CacheOk(c) && Searchable(c, filter)
    modifies c.Items`refcnt, c.Items`holders
    ensures CacheOk(c)
    ensures r == if c.hashtable != null && FastPath(filter) then FirstIdentical(c.Items, filter)
                 else FirstMatching(c.Items, filter)
    ensures forall o :: o in c.Items && o != r ==> o.refcnt == old(o.refcnt) && o.holders == old(o.holders)
    ensures r != null ==> r.refcnt == old(r.refcnt) + 1 && r.holders == old(r.holders) + 1
  {
    hide CacheOk;
    if IdMask(filter.ops, filter.data) == Mask(filter.data) && c.hashtable != null {
      r := FastLookup(c, c.hashtable, filter);
    } else {
      r := ScanMatching(c, filter);
    }
    if r != null {
      GetCached(c, r);
    }
  }

  // nl_cache_mark_all (cache.c:1178-1187)
  method MarkAll(c: NlCache)
    requires CacheOk(c)
    modifies c.Items`marked
    ensures CacheOk(c)
    ensures forall o :: o in c.Items ==> o.marked
  {
    hide CacheOk;
    ghost var i := 0;
    WalkStep(c, 0);
    var pos := c.items.next;
    while pos != c.items
      invariant CacheOk(c) && i <= |c.Items| && pos == HeadAt(c, i)
      invariant forall k :: 0 <= k < i ==> c.Items[k].marked
      decreases |c.Items| - i
    {
      WalkStep(c, i);
      pos.owner.marked := true;
      pos := pos.next;
      i := i + 1;
    }
    if i < |c.Items| { WalkStep(c, i); }
  }
}
