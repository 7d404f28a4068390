// Refilling and resynchronising a cache from dumps (lib/cache.c:714-738,
// 914-975, 1041-1077).  The kernel's answers to successive dump requests are
// an input.

module CacheResync {
  import opened Types
  import opened List
  import opened Objects
  import opened HashTables
  import opened CacheIndex
  import opened Caches
  import opened CacheSearch
  import opened CacheSync
  import opened ResyncSpec

  // The footprint of a cache, kept by loops that let it grow.
  datatype Footprint = Footprint(heads: set<ListHead>, objs: set<NlObject>, nodes: set<HashNode>)

  ghost predicate Inside(c: NlCache, f: Footprint)
    reads c`Items, Table(c)`Chains
  {
    Within(c, f.heads, f.objs, f.nodes)
  }

  // f2 is f1 and objects allocated since.
  twostate predicate Grown(f1: Footprint, new f2: Footprint)
  {
    && fresh(f2.heads - f1.heads) && fresh(f2.objs - f1.objs) && fresh(f2.nodes - f1.nodes)
  }

  // The parser's reference is given back while the cache keeps the object.
  method PutCached(c: NlCache, obj: NlObject)
    requires CacheOk(c) && obj in c.Items && obj.holders >= 1
    modifies obj`refcnt, obj`freed, obj`holders
    ensures CacheOk(c) && obj.holders == old(obj.holders) - 1 && HashNodes(c) == old(HashNodes(c))
  {
    hide ListOk; hide Indexed; hide Owned;
    obj.holders := obj.holders - 1;
    ObjectPut(obj);
    assert unchanged(RingOf(c)`next);
    assert unchanged(RingOf(c)`prev);
    assert unchanged(HashNodes(c)`next);
    assert unchanged(Table(c)`nodes);
    assert unchanged(Table(c)`Chains);
  }

  // What the message parser hands to the callback.
  method ParseObject(c: NlCache, data: Data) returns (obj: NlObject)
    requires CacheOk(c)
    ensures CacheOk(c) && c.Items == old(c.Items) && HashNodes(c) == old(HashNodes(c))
    ensures fresh(obj) && fresh(obj.list) && obj.ops == c.objOps && obj.data == data
    ensures Usable(obj) && obj.cache == null && obj.holders == 1 && !obj.marked && NeverListed(obj)
  {
    hide ListOk; hide Indexed; hide Owned; hide AllCached;
    obj := new NlObject(c.objOps, data, 0);
    CacheKept(c);
  }

  // resync_cb on one parsed object, then the parser's nl_object_put.
  method IncludeEntry(c: NlCache, e: Entry, cb: Callback, ghost f: Footprint)
    returns (ev: Event, ghost obj: NlObject, ghost f': Footprint)
    requires CacheOk(c) && Inside(c, f)
    requires c.hashtable != null ==> Complete(c.objOps, e.data)
    modifies c`nitems, c`Items, f.heads`next, f.heads`prev
    modifies f.objs`cache, f.objs`refcnt, f.objs`freed, f.objs`holders
    modifies Table(c)`Chains, Table(c)`nodes, f.nodes`next
    ensures CacheOk(c) && Inside(c, f') && Grown(f, f')
    ensures fresh(obj) && obj.data == e.data && obj.ops == c.objOps && !obj.marked
    ensures c.Items == IncludeItems(e.act, old(c.Items), obj)
    ensures ev == EventFor(e.act, cb, old(c.Items), obj)
  {
    hide CacheOk; hide Complete; hide RemoveFirst; hide FirstIdentical; hide Cached;
    var o := ParseObject(c, e.data);
    obj := o;
    ev := IncludeAct(c, o, e.act, cb, f.heads, f.objs, f.nodes);
    f' := Footprint(f.heads + {o.list}, f.objs + {o}, f.nodes + HashNodes(c));
    assert f'.nodes - f.nodes == HashNodes(c) - f.nodes;
    DropParsed(c, o);
  }

  // The parser's nl_object_put.
  method DropParsed(c: NlCache, obj: NlObject)
    requires CacheOk(c) && obj.holders >= 1 && !obj.freed
    requires if obj.cache == null then obj.refcnt == obj.holders else obj in c.Items
    modifies obj`refcnt, obj`freed, obj`holders
    ensures CacheOk(c) && HashNodes(c) == old(HashNodes(c))
  {
    hide CacheOk; hide HashNodes;
    if obj.cache != null {
      PutCached(c, obj);
    } else {
      NotListed(c, obj);
      Release(c, obj);
    }
  }

  lemma NotListed(c: NlCache, o: NlObject)
    requires CacheOk(c) && o.cache == null
    ensures o !in c.Items
  {}

  // How far a resync has come: the objects confirmed so far are the map the
  // entries make, the marked ones are those of the old list no entry touched.
  ghost predicate Progress(c: NlCache, old': set<NlObject>, base: seq<NlObject>, es: seq<Entry>)
    reads c`Items, c.Items`marked
  {
    && DuplicateFree(c.objOps, c.Items) && Distinct(c.Items)
    && (forall o {:trigger o.marked} {:trigger o in c.Items} :: o in c.Items ==> (o.marked <==> o in old'))
    && Content(c.objOps, Kept(c.Items, old')) == Applied(c.objOps, map[], es)
    && Stale(c.Items, old') == Untouched(c.objOps, base, Touched(c.objOps, es))
    && Content(c.objOps, c.Items) == Applied(c.objOps, Content(c.objOps, base), es)
  }

  // One entry keeps the progress predicate.
  lemma ProgressEntry(ops: ObjectOps, items: seq<NlObject>, old': set<NlObject>, base: seq<NlObject>,
                      es: seq<Entry>, e: Entry, obj: NlObject)
    requires DuplicateFree(ops, items) && Distinct(items) && obj.ops == ops && Complete(ops, obj.data)
    requires obj !in items && obj !in old' && e.data == obj.data
    requires Content(ops, Kept(items, old')) == Applied(ops, map[], es)
    requires Stale(items, old') == Untouched(ops, base, Touched(ops, es))
    requires Content(ops, items) == Applied(ops, Content(ops, base), es)
    ensures var items' := IncludeItems(e.act, items, obj);
            && DuplicateFree(ops, items') && Distinct(items')
            && (forall o :: o in items' ==> o in items || o == obj)
            && Content(ops, Kept(items', old')) == Applied(ops, map[], es + [e])
            && Stale(items', old') == Untouched(ops, base, Touched(ops, es + [e]))
            && Content(ops, items') == Applied(ops, Content(ops, base), es + [e])
  {
    hide DuplicateFree; hide Content; hide Kept; hide Stale; hide Untouched; hide Touched;
    hide RemoveFirst; hide Complete; hide FirstIdentical;
    assert (es + [e])[..|es|] == es;
    RemoveFirstContent(ops, items, obj);
    KeptEntry(ops, items, old', obj, es, e);
    StaleEntry(ops, base, items, old', obj, es, e);
    RemoveFirstKeeps(ops, items, obj);
    IncludeNewContent(ops, items, obj);
    IncludeMembers(e.act, items, obj);
  }

  lemma IncludeMembers(act: Action, items: seq<NlObject>, obj: NlObject)
    ensures forall o :: o in IncludeItems(act, items, obj) ==> o in items || o == obj
  {
    var less := RemoveFirst(items, obj);
    forall o | o in less ensures o in items {
      var k :| 0 <= k < |less| && less[k] == o;
      assert FirstIndex(items, obj) < |items| ==> less == Without(items, FirstIndex(items, obj));
    }
  }

  method IncludeTracked(c: NlCache, e: Entry, cb: Callback, ghost f: Footprint,
                        ghost old': set<NlObject>, ghost base: seq<NlObject>, ghost es: seq<Entry>)
    returns (ev: Event, ghost f': Footprint)
    requires CacheOk(c) && Inside(c, f) && Progress(c, old', base, es)
    requires Complete(c.objOps, e.data)
    modifies c`nitems, c`Items, f.heads`next, f.heads`prev
    modifies f.objs`cache, f.objs`refcnt, f.objs`freed, f.objs`holders
    modifies Table(c)`Chains, Table(c)`nodes, f.nodes`next
    ensures CacheOk(c) && Inside(c, f') && Grown(f, f') && Progress(c, old', base, es + [e])
    ensures EventMeans(c.objOps, cb, Applied(c.objOps, Content(c.objOps, base), es), e.act, e.data, ev)
  {
    hide CacheOk; hide Complete; hide Cached; hide DuplicateFree; hide Distinct; hide Kept; hide Stale; hide Content;
    hide Applied; hide Untouched; hide Touched; hide IncludeItems; hide Inside; hide Grown; hide EventMeans; hide EventFor;
    ghost var items := c.Items;
    ghost var obj;
    ev, obj, f' := IncludeEntry(c, e, cb, f);
    EventByValue(c.objOps, items, obj, e.act, cb);
    ProgressEntry(c.objOps, items, old', base, es, e, obj);
  }

  // One callback an entry, each what the map calls for that the entries up to
  // there have made.
  ghost predicate Reported(ops: ObjectOps, cb: Callback, m: map<Data, Data>, before: seq<Entry>, es: seq<Entry>,
                           log: seq<Event>)
  {
    && |log| == |es|
    && forall i :: 0 <= i < |es| ==>
         EventMeans(ops, cb, Applied(ops, m, before + es[..i]), es[i].act, es[i].data, log[i])
  }

  lemma ReportedMore(ops: ObjectOps, cb: Callback, m: map<Data, Data>, before: seq<Entry>, es: seq<Entry>, log: seq<Event>,
                     fs: seq<Entry>, more: seq<Event>)
    requires Reported(ops, cb, m, before, es, log) && Reported(ops, cb, m, before + es, fs, more)
    ensures Reported(ops, cb, m, before, es + fs, log + more)
  {
    hide EventMeans; hide Applied;
    forall i | 0 <= i < |es + fs|
      ensures EventMeans(ops, cb, Applied(ops, m, before + (es + fs)[..i]), (es + fs)[i].act, (es + fs)[i].data, (log + more)[i])
    {
      if i < |es| {
        assert (es + fs)[..i] == es[..i];
      } else {
        assert before + (es + fs)[..i] == before + es + fs[..i - |es|];
      }
    }
  }

  lemma ReportedNone(ops: ObjectOps, cb: Callback, m: map<Data, Data>, before: seq<Entry>, es: seq<Entry>)
    ensures Reported(ops, cb, m, before, [], []) && Reported(ops, cb, m, before, es[..0], [])
  {
    assert es[..0] == [];
  }

  lemma ReportedOne(ops: ObjectOps, cb: Callback, m: map<Data, Data>, before: seq<Entry>, e: Entry, ev: Event)
    requires EventMeans(ops, cb, Applied(ops, m, before), e.act, e.data, ev)
    ensures Reported(ops, cb, m, before, [e], [ev])
  {
    assert before + [e][..0] == before;
  }

  // One dump's entries, as the callback of nl_recvmsgs sees them.
  method IncludeEntries(c: NlCache, es: seq<Entry>, cb: Callback, ghost f: Footprint,
                        ghost old': set<NlObject>, ghost base: seq<NlObject>, ghost before: seq<Entry>)
    returns (log: seq<Event>, ghost f': Footprint)
    requires CacheOk(c) && Inside(c, f) && Progress(c, old', base, before)
    requires forall e :: e in es ==> Complete(c.objOps, e.data)
    modifies c`nitems, c`Items, f.heads`next, f.heads`prev
    modifies f.objs`cache, f.objs`refcnt, f.objs`freed, f.objs`holders
    modifies Table(c)`Chains, Table(c)`nodes, f.nodes`next
    ensures CacheOk(c) && Inside(c, f') && Grown(f, f') && Progress(c, old', base, before + es)
    ensures Reported(c.objOps, cb, Content(c.objOps, base), before, es, log)
  {
    hide CacheOk; hide Complete; hide Progress; hide Inside; hide Reported; hide EventMeans; hide Content; hide Applied;
    log, f' := [], f;
    var i := 0;
    assert before + es[..0] == before;
    ReportedNone(c.objOps, cb, Content(c.objOps, base), before, es);
    while i < |es|
      invariant 0 <= i <= |es|
      invariant CacheOk(c) && Inside(c, f') && Grown(f, f')
      invariant Progress(c, old', base, before + es[..i])
      invariant Reported(c.objOps, cb, Content(c.objOps, base), before, es[..i], log)
    {
      var ev;
      ev, f' := IncludeTracked(c, es[i], cb, f', old', base, before + es[..i]);
      ReportedOne(c.objOps, cb, Content(c.objOps, base), before + es[..i], es[i], ev);
      ReportedMore(c.objOps, cb, Content(c.objOps, base), before, es[..i], log, [es[i]], [ev]);
      log := log + [ev];
      assert es[..i] + [es[i]] == es[..i + 1];
      assert before + es[..i + 1] == before + es[..i] + [es[i]];
      i := i + 1;
    }
    assert es[..|es|] == es;
  }

  ghost predicate AllComplete(ops: ObjectOps, dumps: seq<Dump>)
  {
    forall d, e :: d in dumps && d.Dump? && e in d.entries ==> Complete(ops, e.data)
  }

  lemma DumpComplete(ops: ObjectOps, dumps: seq<Dump>, i: nat)
    requires AllComplete(ops, dumps) && i < |dumps| && dumps[i].Dump?
    ensures forall e :: e in dumps[i].entries ==> Complete(ops, e.data)
  {}

  // What one more dump contributes, after the entries es.
  lemma ConsumedStep(dumps: seq<Dump>, i: nat, left: nat, es: seq<Entry>)
    requires i < |dumps|
    ensures var (st, rest) := Consumed(dumps[i..], left);
            match dumps[i]
            case Refused(e) => st == Failed(e) && es + rest == es
            case Dump(entries, outcome) =>
              if outcome.Broken? then st == Failed(outcome.error) && rest == entries
              else if outcome == Finished && left == 0 then st == Ok && rest == entries
              else
                var (st', rest') := Consumed(dumps[i + 1..], if outcome == Finished then left - 1 else left);
                st == st' && es + rest == es + entries + rest'
  {
    assert dumps[i..][1..] == dumps[i + 1..];
  }

  lemma ConsumedEnds(dumps: seq<Dump>, extra: nat, es: seq<Entry>)
    ensures dumps[0..] == dumps && [] + Consumed(dumps, extra).1 == Consumed(dumps, extra).1
    ensures Consumed(dumps[|dumps|..], extra) == (Failed(OtherError(0)), []) && es + [] == es
  {
    assert dumps[|dumps|..] == [];
  }

  // The request loop of nl_cache_resync (cache.c:938-958): extra further
  // groups are dumped after the first, and an interrupted dump is repeated.
  method ResyncDumps(c: NlCache, dumps: seq<Dump>, extra: nat, cb: Callback, ghost f: Footprint,
                     ghost old': set<NlObject>, ghost base: seq<NlObject>)
    returns (st: Status, log: seq<Event>, ghost f': Footprint)
    requires CacheOk(c) && Inside(c, f) && Progress(c, old', base, [])
    requires AllComplete(c.objOps, dumps)
    modifies c`nitems, c`Items, f.heads`next, f.heads`prev
    modifies f.objs`cache, f.objs`refcnt, f.objs`freed, f.objs`holders
    modifies Table(c)`Chains, Table(c)`nodes, f.nodes`next
    ensures CacheOk(c) && Inside(c, f') && Grown(f, f')
    ensures st == Consumed(dumps, extra).0
    ensures Progress(c, old', base, Consumed(dumps, extra).1)
    ensures Reported(c.objOps, cb, Content(c.objOps, base), [], Consumed(dumps, extra).1, log)
  {
    hide CacheOk; hide Progress; hide Inside; hide Consumed; hide AllComplete; hide Reported; hide Content;
    log, f' := [], f;
    ReportedNone(c.objOps, cb, Content(c.objOps, base), [], []);
    ghost var es := [];
    var i, left := 0, extra;
    ConsumedEnds(dumps, extra, es);
    while i < |dumps|
      invariant 0 <= i <= |dumps| && 0 <= left
      invariant CacheOk(c) && Inside(c, f') && Grown(f, f') && Progress(c, old', base, es)
      invariant Reported(c.objOps, cb, Content(c.objOps, base), [], es, log)
      invariant var (rst, res) := Consumed(dumps[i..], left); Consumed(dumps, extra) == (rst, es + res)
    {
      ConsumedStep(dumps, i, left, es);
      match dumps[i] {
        case Refused(e) =>
          return Failed(e), log, f';
        case Dump(entries, outcome) =>
          DumpComplete(c.objOps, dumps, i);
          var more;
          more, f' := IncludeEntries(c, entries, cb, f', old', base, es);
          assert [] + es == es;
          ReportedMore(c.objOps, cb, Content(c.objOps, base), [], es, log, entries, more);
          log := log + more;
          es := es + entries;
          if outcome.Broken? {
            return Failed(outcome.error), log, f';
          }
          if outcome == Finished {
            if left == 0 {
              return Ok, log, f';
            }
            left := left - 1;
          }
          i := i + 1;
      }
    }
    ConsumedEnds(dumps, left, es);
    st := Failed(OtherError(0));
  }

  // A marked object is taken out and reported (cache.c:961-966).
  method SweepOne(c: NlCache, obj: NlObject, ghost i: nat, ghost f: Footprint)
    requires CacheOk(c) && Inside(c, f) && i < |c.Items| && c.Items[i] == obj
    modifies c`nitems, c`Items, f.heads`next, f.heads`prev
    modifies Table(c)`Chains, Table(c)`nodes, f.nodes`next
    modifies obj`cache, obj`refcnt, obj`freed, obj`holders
    ensures CacheOk(c) && Inside(c, f) && c.Items == Without(old(c.Items), i)
  {
    hide CacheOk; hide Settled; hide Without; hide Cached;
    CacheDistinct(c);
    WithoutMembers(c.Items, i);
    GetCached(c, obj);
    RemoveWithin(c, obj, i, f.heads, f.objs, f.nodes);
    Release(c, obj);
  }

  function Deletions(gone: seq<NlObject>): (r: seq<Event>)
    ensures |r| == |gone| && forall i :: 0 <= i < |r| ==> r[i] == Del(gone[i])
  {
    seq(|gone|, i requires 0 <= i < |gone| => Del(gone[i]))
  }

  // What the sweep has done after k objects of the list.
  lemma SweepStep(items: seq<NlObject>, old': set<NlObject>, k: nat)
    requires k < |items|
    ensures var kept := Kept(items[..k], old');
            && (kept + items[k..])[|kept|] == items[k]
            && (items[k] in old' ==>
                  && Without(kept + items[k..], |kept|) == kept + items[k + 1..]
                  && Kept(items[..k + 1], old') == kept
                  && Stale(items[..k + 1], old') == Stale(items[..k], old') + [items[k]])
            && (items[k] !in old' ==>
                  && kept + items[k..] == Kept(items[..k + 1], old') + items[k + 1..]
                  && Kept(items[..k + 1], old') == kept + [items[k]]
                  && Stale(items[..k + 1], old') == Stale(items[..k], old'))
  {
    assert items[..k + 1][..k] == items[..k];
    assert items[k..] == [items[k]] + items[k + 1..];
  }

  // The cache after the sweep has passed k objects of the list.
  ghost predicate Swept(c: NlCache, items: seq<NlObject>, old': set<NlObject>, k: nat)
    reads c`Items
  {
    k <= |items| && c.Items == Kept(items[..k], old') + items[k..]
  }

  // What the sweep has reported after k objects of the list.
  ghost function SweepLog(cb: Callback, items: seq<NlObject>, old': set<NlObject>, k: nat): seq<Event>
    requires k <= |items|
  {
    if cb == NoCallback then [] else Deletions(Stale(items[..k], old'))
  }

  lemma SweepLogEnds(cb: Callback, items: seq<NlObject>, old': set<NlObject>)
    ensures SweepLog(cb, items, old', 0) == []
    ensures SweepLog(cb, items, old', |items|) == if cb == NoCallback then [] else Deletions(Stale(items, old'))
  {
    assert items[..|items|] == items;
  }

  // One round of the sweep.
  method SweepVisit(c: NlCache, obj: NlObject, cb: Callback, log: seq<Event>, ghost f: Footprint,
                    ghost items: seq<NlObject>, ghost old': set<NlObject>, ghost k: nat)
    returns (log': seq<Event>)
    requires CacheOk(c) && Inside(c, f) && k < |items| && Swept(c, items, old', k)
    requires obj == items[k] && (obj.marked <==> obj in old')
    requires log == SweepLog(cb, items, old', k)
    modifies c`nitems, c`Items, f.heads`next, f.heads`prev
    modifies Table(c)`Chains, Table(c)`nodes, f.nodes`next
    modifies f.objs`cache, f.objs`refcnt, f.objs`freed, f.objs`holders
    ensures CacheOk(c) && Inside(c, f) && Swept(c, items, old', k + 1)
    ensures log' == SweepLog(cb, items, old', k + 1)
  {
    hide CacheOk; hide Kept; hide Stale; hide Without; hide HashNodes; hide RingOf;
    SweepStep(items, old', k);
    log' := log;
    if obj.marked {
      SweepOne(c, obj, |Kept(items[..k], old')|, f);
      if cb != NoCallback { log' := log' + [Del(obj)]; }
    }
  }

  // Where the walk over the list stood after k objects: the sweep never moves
  // the part ahead of it.
  ghost function ListAt(c: NlCache, items: seq<NlObject>, k: nat): ListHead
  {
    if k < |items| then items[k].list else c.items
  }

  lemma SweptWalk(c: NlCache, items: seq<NlObject>, old': set<NlObject>, k: nat)
    requires CacheOk(c) && Swept(c, items, old', k)
    ensures k < |items| ==> && ListAt(c, items, k) != c.items && ListAt(c, items, k).owner == items[k]
                            && ListAt(c, items, k).next == ListAt(c, items, k + 1)
    ensures k == |items| ==> c.Items == Kept(items, old')
  {
    hide CacheOk; hide Kept;
    if k < |items| {
      var p := |Kept(items[..k], old')|;
      assert c.Items[p] == items[k];
      WalkStep(c, p);
      if k + 1 < |items| { assert c.Items[p + 1] == items[k + 1]; }
    } else {
      assert items[..k] == items;
    }
  }

  lemma SweepStart(c: NlCache, items: seq<NlObject>, old': set<NlObject>)
    requires CacheOk(c) && c.Items == items
    ensures Swept(c, items, old', 0) && Stale(items[..0], old') == []
    ensures c.items.next == ListAt(c, items, 0)
  {
    hide CacheOk;
    assert items[0..] == items;
    WalkStep(c, 0);
  }

  // The final loop of nl_cache_resync (cache.c:960-968): every object still
  // marked leaves the cache and is reported once.
  method Sweep(c: NlCache, cb: Callback, ghost f: Footprint, ghost old': set<NlObject>)
    returns (log: seq<Event>)
    requires CacheOk(c) && Inside(c, f)
    requires forall o :: o in c.Items ==> (o.marked <==> o in old')
    modifies c`nitems, c`Items, f.heads`next, f.heads`prev
    modifies Table(c)`Chains, Table(c)`nodes, f.nodes`next
    modifies f.objs`cache, f.objs`refcnt, f.objs`freed, f.objs`holders
    ensures CacheOk(c) && Inside(c, f)
    ensures c.Items == Kept(old(c.Items), old')
    ensures log == if cb == NoCallback then [] else Deletions(Stale(old(c.Items), old'))
  {
    hide CacheOk; hide Inside; hide Kept; hide Stale; hide Swept; hide ListAt; hide RingOf; hide HashNodes; hide SweepLog;
    ghost var items := c.Items;
    ghost var k := 0;
    log := [];
    SweepStart(c, items, old');
    SweepLogEnds(cb, items, old');
    SweptWalk(c, items, old', 0);
    var pos := c.items.next;
    var n := pos.next;
    while pos != c.items
      invariant CacheOk(c) && Inside(c, f)
      invariant k <= |items| && Swept(c, items, old', k)
      invariant pos == ListAt(c, items, k) && (k < |items| ==> n == ListAt(c, items, k + 1))
      invariant log == SweepLog(cb, items, old', k)
      decreases |items| - k
    {
      EndAt(c, items, k);
      SweptWalk(c, items, old', k);
      log := SweepVisit(c, pos.owner, cb, log, f, items, old', k);
      k := k + 1;
      SweptWalk(c, items, old', k);
      pos := n;
      n := n.next;
    }
    EndAt(c, items, k);
    SweptWalk(c, items, old', k);
    SweepLogEnds(cb, items, old');
  }

  lemma EndAt(c: NlCache, items: seq<NlObject>, k: nat)
    requires k <= |items|
    ensures k == |items| ==> ListAt(c, items, k) == c.items
  {}

  lemma ProgressStart(c: NlCache, old': set<NlObject>)
    requires CacheOk(c) && DuplicateFree(c.objOps, c.Items)
    requires old' == (set o | o in c.Items) && forall o :: o in c.Items ==> o.marked
    ensures Progress(c, old', c.Items, [])
  {
    hide CacheOk; hide DuplicateFree; hide Kept; hide Stale; hide Untouched;
    CacheDistinct(c);
    StaleAll(c.Items, old');
    UntouchedNone(c.objOps, c.Items);
    assert Touched(c.objOps, []) == {};
    assert Content(c.objOps, []) == map[];
  }

  lemma KeptDuplicateFree(ops: ObjectOps, items: seq<NlObject>, old': set<NlObject>)
    requires DuplicateFree(ops, items) && Distinct(items)
    ensures DuplicateFree(ops, Kept(items, old'))
  {
    KeptDistinct(items, old');
    SubsetDuplicateFree(ops, items, Kept(items, old'));
  }

  // nl_cache_resync of a duplicate-free cache, for a type without oo_update.
  // changes are the callbacks made while the dumps are read, gone those of the
  // final loop.  A resync that fails has included what it read and swept nothing.
  method Resync(c: NlCache, dumps: seq<Dump>, extra: nat, cb: Callback, ghost f: Footprint)
    returns (st: Status, changes: seq<Event>, gone: seq<Event>, ghost f': Footprint)
    requires CacheOk(c) && Inside(c, f) && DuplicateFree(c.objOps, c.Items) && cb != V2
    requires AllComplete(c.objOps, dumps)
    modifies c`nitems, c`Items, f.heads`next, f.heads`prev
    modifies f.objs`cache, f.objs`refcnt, f.objs`freed, f.objs`holders, f.objs`marked
    modifies Table(c)`Chains, Table(c)`nodes, f.nodes`next
    ensures CacheOk(c) && Inside(c, f') && Grown(f, f') && DuplicateFree(c.objOps, c.Items)
    ensures st == Consumed(dumps, extra).0
    ensures Content(c.objOps, c.Items)
            == Applied(c.objOps, if st == Ok then map[] else Content(c.objOps, old(c.Items)), Consumed(dumps, extra).1)
    ensures Reported(c.objOps, cb, Content(c.objOps, old(c.Items)), [], Consumed(dumps, extra).1, changes)
    ensures gone == if st != Ok || cb == NoCallback then []
                    else Deletions(Untouched(c.objOps, old(c.Items), Touched(c.objOps, Consumed(dumps, extra).1)))
  {
    hide CacheOk; hide Inside; hide DuplicateFree; hide AllComplete; hide Content; hide Kept; hide Stale;
    hide Untouched; hide Touched; hide Applied; hide Distinct; hide HashNodes; hide RingOf; hide Consumed;
    hide Reported;
    MarkListed(c, f);
    ghost var base := c.Items;
    ghost var old' := set o | o in c.Items;
    ProgressStart(c, old');
    st, changes, f' := ResyncDumps(c, dumps, extra, cb, f, old', base);
    gone := [];
    if st == Ok {
      KeptDuplicateFree(c.objOps, c.Items, old');
      gone := Sweep(c, cb, f', old');
    }
  }

  // MarkAll, with the footprint named.
  method MarkListed(c: NlCache, ghost f: Footprint)
    requires CacheOk(c) && Inside(c, f)
    modifies f.objs`marked
    ensures CacheOk(c) && Inside(c, f)
    ensures forall o :: o in c.Items ==> o.marked
  {
    hide CacheOk;
    MarkAll(c);
  }

  // ---------- refilling (cache.c:732-738, 1041-1077) ----------

  function Payloads(items: seq<NlObject>): (r: seq<Data>)
    ensures |r| == |items| && forall i :: 0 <= i < |r| ==> r[i] == items[i].data
  {
    seq(|items|, i requires 0 <= i < |items| => items[i].data)
  }

  // What a list holds after a run of entries was added to it: all of them, or,
  // with an index, those not identical to one already there.
  function Loaded(ops: ObjectOps, hashed: bool, es: seq<Entry>): seq<Data>
  {
    if es == [] then []
    else
      var e := es[|es| - 1];
      var before := Loaded(ops, hashed, es[..|es| - 1]);
      if hashed && exists d :: d in before && Identical(ops, d, e.data) then before else before + [e.data]
  }

  ghost predicate Loading(c: NlCache, es: seq<Entry>)
    reads c`Items
  {
    && Payloads(c.Items) == Loaded(c.objOps, c.hashtable != null, es)
    && (c.hashtable != null ==> Content(c.objOps, c.Items) == FirstWins(c.objOps, es))
  }

  lemma LoadEntry(c: NlCache, items: seq<NlObject>, es: seq<Entry>, e: Entry, obj: NlObject)
    requires e.data == obj.data && obj.ops == c.objOps
    requires forall o :: o in items ==> o.ops == c.objOps
    requires Payloads(items) == Loaded(c.objOps, c.hashtable != null, es)
    requires c.hashtable != null ==> && Complete(c.objOps, obj.data) && DuplicateFree(c.objOps, items)
                                     && Content(c.objOps, items) == FirstWins(c.objOps, es)
    requires c.Items == if c.hashtable != null && FirstIdentical(items, obj) != null then items else items + [obj]
    ensures Loading(c, es + [e])
  {
    hide Payloads; hide FirstIdentical; hide DuplicateFree; hide Complete; hide Key; hide Content;
    assert (es + [e])[..|es|] == es;
    PayloadsFound(items, obj);
    if c.hashtable != null {
      ContentAdd(c.objOps, items, obj);
      FoundIffKey(c.objOps, items, obj);
    }
  }

  lemma PayloadsFound(items: seq<NlObject>, obj: NlObject)
    requires forall o :: o in items ==> o.ops == obj.ops
    ensures FirstIdentical(items, obj) != null
            <==> exists d :: d in Payloads(items) && Identical(obj.ops, d, obj.data)
    ensures Payloads(items + [obj]) == Payloads(items) + [obj.data]
  {
    hide Identical; hide FirstIdentical;
    var found, all := FirstIdentical(items, obj), Payloads(items);
    if found == null {
      forall d | d in all ensures !Identical(obj.ops, d, obj.data) {
        var i :| 0 <= i < |all| && all[i] == d;
        assert items[i] in items;
      }
    } else {
      var i :| 0 <= i < |items| && items[i] == found;
      assert all[i] in all;
    }
  }

  // update_msg_parser with pickup_cb on one parsed object, then the parser's
  // nl_object_put: an object the cache refuses as a duplicate is skipped.
  method AddEntry(c: NlCache, e: Entry, ghost f: Footprint) returns (ghost obj: NlObject, ghost f': Footprint)
    requires CacheOk(c) && Inside(c, f)
    requires c.hashtable != null ==> Complete(c.objOps, e.data)
    modifies c`nitems, c`Items, f.heads`next, f.heads`prev
    modifies Table(c)`Chains, Table(c)`nodes
    ensures CacheOk(c) && Inside(c, f') && Grown(f, f')
    ensures fresh(obj) && obj.data == e.data && obj.ops == c.objOps
    ensures c.Items == if c.hashtable != null && FirstIdentical(old(c.Items), obj) != null then old(c.Items)
                       else old(c.Items) + [obj]
  {
    hide CacheOk; hide Complete; hide FirstIdentical; hide Within;
    var o := ParseObject(c, e.data);
    obj := o;
    AddParsed(c, o, f);
    f' := Footprint(f.heads + {o.list}, f.objs + {o}, f.nodes + HashNodes(c));
    assert f'.nodes - f.nodes == HashNodes(c) - f.nodes;
    DropParsed(c, o);
  }

  method AddTracked(c: NlCache, e: Entry, ghost f: Footprint, ghost es: seq<Entry>) returns (ghost f': Footprint)
    requires CacheOk(c) && Inside(c, f) && Loading(c, es)
    requires c.hashtable != null ==> Complete(c.objOps, e.data)
    modifies c`nitems, c`Items, f.heads`next, f.heads`prev
    modifies Table(c)`Chains, Table(c)`nodes
    ensures CacheOk(c) && Inside(c, f') && Grown(f, f') && Loading(c, es + [e])
  {
    hide CacheOk; hide Complete; hide FirstIdentical; hide DuplicateFree; hide Content; hide Loaded; hide FirstWins;
    ghost var items := c.Items;
    ListedOps(c);
    HashedDuplicateFree(c);
    ghost var obj;
    obj, f' := AddEntry(c, e, f);
    LoadEntry(c, items, es, e, obj);
  }

  lemma ListedOps(c: NlCache)
    requires CacheOk(c)
    ensures forall o :: o in c.Items ==> o.ops == c.objOps
    ensures c.items.prev in RingOf(c)
  {
    hide Indexed;
  }

  method AddParsed(c: NlCache, obj: NlObject, ghost f: Footprint)
    requires CacheOk(c) && Inside(c, f) && Usable(obj) && NeverListed(obj) && obj.cache == null && obj.ops == c.objOps
    requires c.hashtable != null ==> Complete(c.objOps, obj.data)
    modifies c`nitems, c`Items, f.heads`next, f.heads`prev
    modifies obj`cache, obj`refcnt, obj`freed, obj.list`next, obj.list`prev
    modifies Table(c)`Chains, Table(c)`nodes
    ensures CacheOk(c) && fresh(HashNodes(c) - f.nodes)
    ensures Within(c, f.heads + {obj.list}, f.objs + {obj}, f.nodes + HashNodes(c))
    ensures c.Items == if c.hashtable != null && FirstIdentical(old(c.Items), obj) != null then old(c.Items)
                       else old(c.Items) + [obj]
    ensures !obj.freed && if obj.cache == null then obj.refcnt == obj.holders else obj in c.Items
  {
    hide CacheOk; hide Complete; hide FirstIdentical; hide Cached;
    ListedOps(c);
    var st, added := CacheAdd(c, obj);
    assert Lists(old(c.Items) + [obj]) == Lists(old(c.Items)) + [obj.list];
    if st == Ok { InCache(c, obj); }
  }

  lemma InCache(c: NlCache, o: NlObject)
    requires CacheOk(c) && o in c.Items
    ensures !o.freed && o.cache == c
  {
    hide Indexed;
  }

  method AddEntries(c: NlCache, es: seq<Entry>, ghost f: Footprint, ghost before: seq<Entry>)
    returns (ghost f': Footprint)
    requires CacheOk(c) && Inside(c, f) && Loading(c, before)
    requires c.hashtable != null ==> forall e :: e in es ==> Complete(c.objOps, e.data)
    modifies c`nitems, c`Items, f.heads`next, f.heads`prev
    modifies Table(c)`Chains, Table(c)`nodes
    ensures CacheOk(c) && Inside(c, f') && Grown(f, f') && Loading(c, before + es)
  {
    hide CacheOk; hide Complete; hide Loading; hide Inside;
    f' := f;
    var i := 0;
    assert before + es[..0] == before;
    while i < |es|
      invariant 0 <= i <= |es|
      invariant CacheOk(c) && Inside(c, f') && Grown(f, f')
      invariant Loading(c, before + es[..i])
    {
      f' := AddTracked(c, es[i], f', before + es[..i]);
      assert before + es[..i + 1] == before + es[..i] + [es[i]];
      i := i + 1;
    }
    assert es[..|es|] == es;
  }

  // The request loop of nl_cache_refill: as in a resync.
  method RefillDumps(c: NlCache, dumps: seq<Dump>, extra: nat, ghost f: Footprint)
    returns (st: Status, ghost f': Footprint)
    requires CacheOk(c) && Inside(c, f) && c.Items == []
    requires c.hashtable != null ==> AllComplete(c.objOps, dumps)
    modifies c`nitems, c`Items, f.heads`next, f.heads`prev
    modifies Table(c)`Chains, Table(c)`nodes
    ensures CacheOk(c) && Inside(c, f') && Grown(f, f')
    ensures st == Consumed(dumps, extra).0 && Loading(c, Consumed(dumps, extra).1)
  {
    hide CacheOk; hide Inside;
    f' := f;
    ghost var es := [];
    var i, left := 0, extra;
    ConsumedEnds(dumps, extra, es);
    assert Loading(c, []);
    hide Loading; hide Consumed; hide AllComplete;
    while i < |dumps|
      invariant 0 <= i <= |dumps| && 0 <= left
      invariant CacheOk(c) && Inside(c, f') && Grown(f, f') && Loading(c, es)
      invariant var (rst, res) := Consumed(dumps[i..], left); Consumed(dumps, extra) == (rst, es + res)
    {
      ConsumedStep(dumps, i, left, es);
      match dumps[i] {
        case Refused(e) =>
          return Failed(e), f';
        case Dump(entries, outcome) =>
          if c.hashtable != null { DumpComplete(c.objOps, dumps, i); }
          f' := AddEntries(c, entries, f', es);
          es := es + entries;
          if outcome.Broken? {
            return Failed(outcome.error), f';
          }
          if outcome == Finished {
            if left == 0 {
              return Ok, f';
            }
            left := left - 1;
          }
          i := i + 1;
      }
    }
    ConsumedEnds(dumps, left, es);
    st := Failed(OtherError(0));
  }

  // nl_cache_refill: whatever the cache held before, it now holds what was
  // read; with an index, the first object of each key.
  method Refill(c: NlCache, dumps: seq<Dump>, extra: nat, ghost f: Footprint)
    returns (st: Status, ghost f': Footprint)
    requires CacheOk(c) && Inside(c, f)
    requires c.hashtable != null ==> AllComplete(c.objOps, dumps)
    modifies c`nitems, c`Items, f.heads`next, f.heads`prev
    modifies f.objs`cache, f.objs`refcnt, f.objs`freed
    modifies Table(c)`Chains, Table(c)`nodes, f.nodes`next
    ensures CacheOk(c) && Inside(c, f') && Grown(f, f')
    ensures st == Consumed(dumps, extra).0
    ensures Payloads(c.Items) == Loaded(c.objOps, c.hashtable != null, Consumed(dumps, extra).1)
    ensures c.hashtable != null ==> Content(c.objOps, c.Items) == FirstWins(c.objOps, Consumed(dumps, extra).1)
  {
    hide CacheOk; hide AllComplete; hide Consumed; hide FirstWins; hide Loaded; hide Content;
    CacheClear(c, f.heads, f.objs, f.nodes);
    st, f' := RefillDumps(c, dumps, extra, f);
  }

  // pickup_checkdup_cb for a type without oo_update: an identical object gives
  // way to the new one.
  method AddReplacing(c: NlCache, obj: NlObject, ghost f: Footprint)
    requires CacheOk(c) && Inside(c, f)
    requires Usable(obj) && NeverListed(obj) && obj.cache == null && obj.ops == c.objOps
    requires obj !in f.objs && obj.list !in f.heads
    requires c.hashtable != null ==> Complete(c.objOps, obj.data)
    modifies c`nitems, c`Items, f.heads`next, f.heads`prev
    modifies f.objs`cache, f.objs`refcnt, f.objs`freed, f.objs`holders
    modifies obj`cache, obj`refcnt, obj`freed, obj.list`next, obj.list`prev
    modifies Table(c)`Chains, Table(c)`nodes, f.nodes`next
    ensures CacheOk(c) && c.Items == RemoveFirst(old(c.Items), obj) + [obj]
  {
    hide CacheOk; hide Settled; hide Cached; hide FirstIdentical; hide Complete; hide RemoveFirst;
    hide DuplicateFree; hide Distinct;
    HashedDuplicateFree(c);
    var old' := TakeOld(c, obj, f.heads, f.objs, f.nodes);
    NoneLeft(c, old(c.Items), obj);
    if old' != null {
      Release(c, old');
    }
    AddParsed(c, obj, f);
  }
}
