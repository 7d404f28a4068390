// What caches do not share: an object names its cache, a hash node its object and
// a list head its owner.

module CacheOps {
  import opened Types
  import opened List
  import opened Objects
  import opened HashTables
  import opened CacheIndex
  import opened Caches
  import opened CacheSearch
  import opened CacheSync

  // ---------- two caches ----------

  // Different caches have their own list head and hash table.
  ghost predicate Separate(c: NlCache, d: NlCache)
  {
    c != d && c.items != d.items && Table(c) !! Table(d)
  }

  ghost function Heads(c: NlCache): set<ListHead>
    reads c`Items
  {
    set h | h in RingOf(c)
  }

  ghost function Members(c: NlCache): set<NlObject>
    reads c`Items
  {
    set o | o in c.Items
  }

  // A hash node belongs to the object it holds.
  lemma NodeOwner(c: NlCache, n: HashNode)
    requires CacheOk(c) && n in HashNodes(c)
    ensures n.obj in c.Items && n.obj.cache == c
  {
    hide ListOk; hide Owned; hide DuplicateFree; hide KeygenSound; hide TableOk;
    var ht := c.hashtable;
    var k, i :| 0 <= k < |ht.Chains| && 0 <= i < |ht.Chains[k]| && ht.Chains[k][i] == n;
    assert View(ht)[k][i] == n.obj;
    assert n.obj in View(ht)[k];
  }

  // Two caches share nothing on the heap.
  lemma Apart(c: NlCache, d: NlCache)
    requires CacheOk(c) && CacheOk(d) && Separate(c, d)
    ensures Heads(c) !! Heads(d) && Members(c) !! Members(d) && HashNodes(c) !! HashNodes(d)
  {
    hide Indexed; hide HashNodes;
    forall o | o in c.Items ensures o !in d.Items {
      assert o.cache == c;
    }
    forall h | h in Heads(c) ensures h !in Heads(d) {
      HeadOwner(c, h);
      if h in Heads(d) { HeadOwner(d, h); }
    }
    forall n | n in HashNodes(c) ensures n !in HashNodes(d) {
      NodeOwner(c, n);
      if n in HashNodes(d) { NodeOwner(d, n); }
    }
  }

  lemma HeadOwner(c: NlCache, h: ListHead)
    requires CacheOk(c) && h in RingOf(c)
    ensures if h.owner == null then h == c.items else h.owner in c.Items && h.owner.cache == c
  {
    hide Indexed;
    if h != c.items {
      var i :| 0 <= i < |c.Items| && c.Items[i].list == h;
      assert c.Items[i] in c.Items;
    }
  }
}
