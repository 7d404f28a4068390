// A hashed cache on the heap that is filled from dumps and then follows events,
// and the protocol of the manager seen through it (lib/cache_mngr.c:47-113,
// 337-349).

module Follow {
  import opened Types
  import opened List
  import opened Objects
  import opened CacheIndex
  import opened Caches
  import opened CacheSearch
  import opened CacheSync
  import opened ResyncSpec
  import opened CacheResync
  import opened Convergence

  // ---------- events into a cache ----------

  // One event, parsed and included.
  method FollowOne(c: NlCache, e: Entry, cb: Callback, ghost f: Footprint) returns (ev: Event, ghost f': Footprint)
    requires CacheOk(c) && Inside(c, f) && c.hashtable != null && Complete(c.objOps, e.data)
    modifies c`nitems, c`Items, f.heads`next, f.heads`prev
    modifies f.objs`cache, f.objs`refcnt, f.objs`freed, f.objs`holders
    modifies Table(c)`Chains, Table(c)`nodes, f.nodes`next
    ensures CacheOk(c) && Inside(c, f') && CacheResync.Grown(f, f')
    ensures Content(c.objOps, c.Items) == Applied(c.objOps, Content(c.objOps, old(c.Items)), [e])
    ensures EventMeans(c.objOps, cb, Content(c.objOps, old(c.Items)), e.act, e.data, ev)
  {
    hide CacheOk; hide Inside; hide Content; hide Applied; hide IncludeItems; hide EventMeans; hide EventFor; hide Complete;
    hide CacheResync.Grown; hide DuplicateFree;
    HashedDuplicateFree(c);
    CacheDistinct(c);
    ghost var items := c.Items;
    ghost var obj;
    ev, obj, f' := IncludeEntry(c, e, cb, f);
    EventByValue(c.objOps, items, obj, e.act, cb);
    IncludeApplied(c.objOps, items, obj, e);
  }

  lemma IncludeApplied(ops: ObjectOps, items: seq<NlObject>, obj: NlObject, e: Entry)
    requires DuplicateFree(ops, items) && Distinct(items) && obj.ops == ops && Complete(ops, obj.data) && e.data == obj.data
    ensures Content(ops, IncludeItems(e.act, items, obj)) == Applied(ops, Content(ops, items), [e])
  {
    hide DuplicateFree; hide Content; hide RemoveFirst; hide Complete; hide Key;
    IncludeNewContent(ops, items, obj);
    RemoveFirstContent(ops, items, obj);
    if e.act == ActOther {
      OtherApplied(ops, Content(ops, items), e);
    } else {
      AppliedOne(ops, Content(ops, items), e);
    }
  }

  lemma OtherApplied(ops: ObjectOps, m: map<Data, Data>, e: Entry)
    requires e.act == ActOther
    ensures Applied(ops, m, [e]) == m
  {
    assert [e][..0] == [];
  }

  // Events, in the order they come.
  method FollowAll(c: NlCache, events: seq<Entry>, cb: Callback, ghost f: Footprint)
    returns (log: seq<Event>, ghost f': Footprint)
    requires CacheOk(c) && Inside(c, f) && c.hashtable != null
    requires forall e :: e in events ==> Complete(c.objOps, e.data)
    modifies c`nitems, c`Items, f.heads`next, f.heads`prev
    modifies f.objs`cache, f.objs`refcnt, f.objs`freed, f.objs`holders
    modifies Table(c)`Chains, Table(c)`nodes, f.nodes`next
    ensures CacheOk(c) && Inside(c, f') && CacheResync.Grown(f, f')
    ensures Content(c.objOps, c.Items) == Applied(c.objOps, Content(c.objOps, old(c.Items)), events)
    ensures Reported(c.objOps, cb, Content(c.objOps, old(c.Items)), [], events, log)
  {
    hide CacheOk; hide Inside; hide Content; hide Applied; hide EventMeans; hide Complete; hide Reported;
    log, f' := [], f;
    ghost var ops, m := c.objOps, Content(c.objOps, c.Items);
    var i := 0;
    StartFollowing(ops, cb, m, events);
    while i < |events|
      invariant 0 <= i <= |events|
      invariant CacheOk(c) && Inside(c, f') && CacheResync.Grown(f, f')
      invariant Content(ops, c.Items) == Applied(ops, m, events[..i])
      invariant Reported(ops, cb, m, [], events[..i], log)
    {
      var ev;
      ev, f' := FollowOne(c, events[i], cb, f');
      FollowedOne(ops, cb, m, events, i, log, ev);
      log := log + [ev];
      i := i + 1;
    }
    assert events[..|events|] == events;
  }

  lemma StartFollowing(ops: ObjectOps, cb: Callback, m: map<Data, Data>, events: seq<Entry>)
    ensures Applied(ops, m, events[..0]) == m && Reported(ops, cb, m, [], events[..0], [])
  {}

  lemma FollowedOne(ops: ObjectOps, cb: Callback, m: map<Data, Data>, events: seq<Entry>, i: nat, log: seq<Event>, ev: Event)
    requires i < |events| && Reported(ops, cb, m, [], events[..i], log)
    requires EventMeans(ops, cb, Applied(ops, m, events[..i]), events[i].act, events[i].data, ev)
    ensures Reported(ops, cb, m, [], events[..i + 1], log + [ev])
    ensures Applied(ops, Applied(ops, m, events[..i]), [events[i]]) == Applied(ops, m, events[..i + 1])
  {
    hide EventMeans; hide Applied; hide Reported;
    assert [] + events[..i] == events[..i];
    assert events[..i] + [events[i]] == events[..i + 1];
    ReportedOne(ops, cb, m, events[..i], events[i], ev);
    ReportedMore(ops, cb, m, [], events[..i], log, [events[i]], [ev]);
    AppliedAppend(ops, m, events[..i], [events[i]]);
  }

  // nl_cache_refill and, if that worked, the events that follow: the cache
  // holds the dumps' first entry of each key, updated by the events.
  method FillAndFollow(c: NlCache, dumps: seq<Dump>, extra: nat, events: seq<Entry>, cb: Callback, ghost f: Footprint)
    returns (st: Status, log: seq<Event>, ghost f': Footprint)
    requires CacheOk(c) && Inside(c, f) && c.hashtable != null && AllComplete(c.objOps, dumps)
    requires forall e :: e in events ==> Complete(c.objOps, e.data)
    modifies c`nitems, c`Items, f.heads`next, f.heads`prev
    modifies f.objs`cache, f.objs`refcnt, f.objs`freed, f.objs`holders
    modifies Table(c)`Chains, Table(c)`nodes, f.nodes`next
    ensures CacheOk(c) && Inside(c, f') && st == Consumed(dumps, extra).0
    ensures var m := FirstWins(c.objOps, Consumed(dumps, extra).1);
            if st == Ok then
              Content(c.objOps, c.Items) == Applied(c.objOps, m, events) && Reported(c.objOps, cb, m, [], events, log)
            else Content(c.objOps, c.Items) == m && log == []
  {
    hide CacheOk; hide Inside; hide Content; hide Applied; hide Complete; hide Reported; hide FirstWins; hide Consumed;
    hide Loaded;
    st, f' := Refill(c, dumps, extra, f);
    log := [];
    if st == Ok {
      log, f' := FollowAll(c, events, cb, f');
    }
  }

  // ---------- the protocol through a cache ----------

  // The events that a run handled
  function Handled(states: seq<State>, actions: seq<Convergence.Action>): seq<Entry>
    requires |states| == |actions| + 1
    decreases |actions|
  {
    if actions == [] then []
    else
      var n := |actions| - 1;
      Handled(states[..n + 1], actions[..n])
      + if actions[n].Handle? && states[n].queue != [] then [states[n].queue[0]] else []
  }

  // The protocol's cache is what its dumps and its handled events make.
  lemma {:induction false} CacheOfRun(c: Setup, states: seq<State>, actions: seq<Convergence.Action>, kernel: map<Data, Data>)
    requires IsRun(c, false, states, actions) && states[0] == Start(kernel)
    ensures var s := states[|actions|];
            if s.phase == Watching then s.cache == Applied(c.ops, FirstWins(c.ops, s.read), Handled(states, actions))
            else Handled(states, actions) == []
    decreases |actions|
  {
    hide FirstWins; hide Applied;
    if actions != [] {
      var n := |actions| - 1;
      var a, s, s' := actions[n], states[n], states[n + 1];
      assert IsRun(c, false, states[..n + 1], actions[..n]);
      CacheOfRun(c, states[..n + 1], actions[..n], kernel);
      assert states[..n + 1][n] == s && Enabled(c, s, a, false) && s' == Next(c, s, a);
      var before := Handled(states[..n + 1], actions[..n]);
      var m := FirstWins(c.ops, s.read);
      if a.Handle? {
        AppliedAppend(c.ops, m, before, [s.queue[0]]);
      } else {
        assert before + [] == before;
        if a.Finish? { NothingApplied(c.ops, m); }
      }
    }
  }

  lemma NothingApplied(ops: ObjectOps, m: map<Data, Data>)
    ensures Applied(ops, m, []) == m
  {}

  // A cache on the heap that is refilled from the dumps of a run and includes
  // the events the run handled: once the run watches, the kernel's state is the
  // cache's after the waiting events, and with none waiting they are equal.
  method FollowRun(c: NlCache, dumps: seq<Dump>, extra: nat, events: seq<Entry>, cb: Callback, ghost f: Footprint,
                   ghost setup: Setup, ghost states: seq<State>, ghost actions: seq<Convergence.Action>, ghost kernel: map<Data, Data>)
    returns (log: seq<Event>, ghost f': Footprint)
    requires CacheOk(c) && Inside(c, f) && c.hashtable != null && AllComplete(c.objOps, dumps)
    requires forall e :: e in events ==> Complete(c.objOps, e.data)
    requires IsRun(setup, false, states, actions) && states[0] == Start(kernel) && setup.ops == c.objOps
    requires Keyed(setup.ops, kernel) && forall k :: k in kernel ==> setup.group(k) < setup.groups
    requires states[|actions|].phase == Watching
    requires Consumed(dumps, extra) == (Ok, states[|actions|].read) && events == Handled(states, actions)
    modifies c`nitems, c`Items, f.heads`next, f.heads`prev
    modifies f.objs`cache, f.objs`refcnt, f.objs`freed, f.objs`holders
    modifies Table(c)`Chains, Table(c)`nodes, f.nodes`next
    ensures CacheOk(c) && Inside(c, f')
    ensures var s := states[|actions|];
            && Applied(c.objOps, Content(c.objOps, c.Items), s.queue) == s.kernel
            && (s.queue == [] ==> Content(c.objOps, c.Items) == s.kernel && |c.Items| == |s.kernel|)
  {
    hide CacheOk; hide Inside; hide Content; hide Applied; hide Complete; hide Reported; hide FirstWins; hide Consumed;
    hide IsRun; hide Handled; hide DuplicateFree;
    CacheOfRun(setup, states, actions, kernel);
    Converges(setup, states, actions, kernel);
    var st;
    st, log, f' := FillAndFollow(c, dumps, extra, events, cb, f);
    HashedDuplicateFree(c);
    ContentSize(c.objOps, c.Items);
  }
}
