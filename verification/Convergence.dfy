// The protocol of the cache manager (lib/cache_mngr.c:337-349): groups are
// joined, the cache is filled from a dump, and then the queued events follow.

module Convergence {
  import opened Types
  import opened List
  import opened Objects
  import opened ResyncSpec

  // A cache type: how its objects are identified, how many multicast groups
  // announce their changes, and which of them announces a key.
  datatype Setup = Setup(ops: ObjectOps, groups: nat, group: Data -> nat)

  datatype Phase = Joining | Dumping | Watching

  // kernel: the kernel's objects by key.  joined: how many groups the event
  // socket is a member of.  seen: the keys the dumps have come by.  read: what
  // they reported.  queue: the events waiting on the event socket.
  datatype State = State(kernel: map<Data, Data>, joined: nat, phase: Phase, seen: set<Data>,
                         read: seq<Entry>, queue: seq<Entry>, cache: map<Data, Data>)

  datatype Action =
    | Change(e: Entry)      // the kernel sets or removes an object and announces it
    | Join                  // nl_socket_add_membership for the next group
    | Request               // nl_cache_refill clears the cache and asks for a dump
    | Visit(key: Data)      // a dump comes by a key, in any order, once or again
    | Finish                // the last dump ends and the cache is associated
    | Handle                // event_input includes the oldest event

  function Start(kernel: map<Data, Data>): State
  {
    State(kernel, 0, Joining, {}, [], [], map[])
  }

  // When a step is possible.  A dump may skip only keys that changed after
  // their group was joined.  late lets the dump start before the groups are joined.
  ghost predicate Enabled(c: Setup, s: State, a: Action, late: bool)
  {
    match a
    case Change(e) => e.act != ActOther && c.group(Key(c.ops, e.data)) < c.groups
    case Join => s.joined < c.groups && (s.phase == Joining || late)
    case Request => s.phase == Joining && (s.joined == c.groups || late)
    case Visit(k) => s.phase == Dumping
    case Finish => s.phase == Dumping && (forall k :: k in s.kernel && k !in s.seen ==> k in Touched(c.ops, s.queue))
    case Handle => s.phase == Watching && s.queue != []
  }

  function Next(c: Setup, s: State, a: Action): State
    requires a.Handle? ==> s.queue != []
  {
    match a
    case Change(e) =>
      s.(kernel := Applied(c.ops, s.kernel, [e]),
         queue := if c.group(Key(c.ops, e.data)) < s.joined then s.queue + [e] else s.queue)
    case Join => s.(joined := s.joined + 1)
    case Request => s.(phase := Dumping)
    case Visit(k) =>
      s.(seen := s.seen + {k},
         read := if k in s.kernel then s.read + [Entry(s.kernel[k], ActNew)] else s.read)
    case Finish => s.(phase := Watching, cache := FirstWins(c.ops, s.read))
    case Handle => s.(cache := Applied(c.ops, s.cache, [s.queue[0]]), queue := s.queue[1..])
  }

  // The states of a run.
  ghost predicate IsRun(c: Setup, late: bool, states: seq<State>, actions: seq<Action>)
  {
    && |states| == |actions| + 1
    && (forall i :: 0 <= i < |actions| ==>
          Enabled(c, states[i], actions[i], late) && states[i + 1] == Next(c, states[i], actions[i]))
  }

  ghost predicate Keyed(ops: ObjectOps, m: map<Data, Data>)
  {
    forall k :: k in m ==> Key(ops, m[k]) == k
  }

  // ---------- the invariant ----------

  ghost predicate Tracks(c: Setup, s: State, base: map<Data, Data>)
  {
    && (forall k :: k in base ==> c.group(k) < s.joined)
    && (forall k :: c.group(k) < s.joined ==>
          SameAt(Applied(c.ops, base, s.queue), s.kernel, k))
    && (forall k :: k in Touched(c.ops, s.queue) ==> c.group(k) < s.joined)
    && (forall e :: e in s.read ==> c.group(Key(c.ops, e.data)) < c.groups)
    && (forall e :: e in s.read && Key(c.ops, e.data) !in Touched(c.ops, s.queue) ==>
          Key(c.ops, e.data) in base && base[Key(c.ops, e.data)] == e.data)
    && (forall k :: k in s.seen && k in base && k !in Touched(c.ops, s.queue) ==>
          Entry(base[k], ActNew) in s.read)
  }

  // base: what each key was when its group was joined.  From there on the
  // queue tells everything that happened to it.
  ghost predicate Follows(c: Setup, s: State, base: map<Data, Data>)
  {
    && Keyed(c.ops, s.kernel) && (forall k :: k in s.kernel ==> c.group(k) < c.groups)
    && s.joined <= c.groups && (s.phase != Joining ==> s.joined == c.groups)
    && (s.phase == Joining ==> s.read == [] && s.seen == {})
    && (s.phase != Watching ==> Tracks(c, s, base))
    && (s.phase == Watching ==> Applied(c.ops, s.cache, s.queue) == s.kernel)
  }

  // Two maps bind a key alike.
  predicate SameAt(m: map<Data, Data>, n: map<Data, Data>, k: Data)
  {
    (k in m <==> k in n) && (k in m ==> m[k] == n[k])
  }

  lemma AllSame(m: map<Data, Data>, n: map<Data, Data>)
    requires forall k :: k in m || k in n ==> SameAt(m, n, k)
    ensures m == n
  {
    forall k | k in m ensures k in n && m[k] == n[k] { assert SameAt(m, n, k); }
    forall k | k in n ensures k in m { assert SameAt(m, n, k); }
  }

  // The same events from two maps leave the same at a key where the maps agree
  // or that some event touches.
  lemma AppliedSameAt(ops: ObjectOps, m: map<Data, Data>, n: map<Data, Data>, es: seq<Entry>, k: Data)
    requires k !in Touched(ops, es) ==> SameAt(m, n, k)
    ensures SameAt(Applied(ops, m, es), Applied(ops, n, es), k)
  {
    AppliedLocal(ops, m, es, k);
    AppliedLocal(ops, n, es, k);
  }

  // A key no event touches is as it was.
  lemma UntouchedSame(ops: ObjectOps, m: map<Data, Data>, es: seq<Entry>, k: Data)
    requires k !in Touched(ops, es)
    ensures SameAt(Applied(ops, m, es), m, k)
  {
    AppliedLocal(ops, m, es, k);
  }

  lemma TouchedMore(ops: ObjectOps, es: seq<Entry>, e: Entry)
    requires e.act != ActOther
    ensures Touched(ops, es + [e]) == Touched(ops, es) + {Key(ops, e.data)}
  {}

  lemma FollowsChange(c: Setup, s: State, base: map<Data, Data>, e: Entry)
    requires Follows(c, s, base) && Enabled(c, s, Change(e), false)
    ensures Follows(c, Next(c, s, Change(e)), base)
  {
    hide Key; hide Touched; hide Applied; hide Tracks;
    AppliedOne(c.ops, s.kernel, e);
    if s.phase == Watching {
      AppliedAppend(c.ops, s.cache, s.queue, [e]);
    } else {
      TracksChange(c, s, base, e);
    }
  }

  lemma TracksChange(c: Setup, s: State, base: map<Data, Data>, e: Entry)
    requires Tracks(c, s, base) && e.act != ActOther
    ensures Tracks(c, Next(c, s, Change(e)), base)
  {
    var s' := Next(c, s, Change(e));
    TracksQueue(c, s, s', base, e);
  }

  lemma TracksQueue(c: Setup, s: State, s': State, base: map<Data, Data>, e: Entry)
    requires Tracks(c, s, base) && e.act != ActOther && s' == Next(c, s, Change(e))
    requires s'.joined == s.joined && s'.read == s.read && s'.seen == s.seen
    requires s'.queue == s.queue + (if c.group(Key(c.ops, e.data)) < s.joined then [e] else [])
    ensures Tracks(c, s', base)
  {
    hide Key; hide Touched; hide Applied; hide SameAt; hide Next;
    TouchedMore(c.ops, s.queue, e);
    assert s.queue + [] == s.queue;
    forall k | c.group(k) < s.joined ensures SameAt(Applied(c.ops, base, s'.queue), s'.kernel, k) {
      ChangeTracked(c, s, base, e, k);
    }
  }

  lemma ChangeTracked(c: Setup, s: State, base: map<Data, Data>, e: Entry, k: Data)
    requires Tracks(c, s, base) && e.act != ActOther && c.group(k) < s.joined
    ensures var s' := Next(c, s, Change(e)); SameAt(Applied(c.ops, base, s'.queue), s'.kernel, k)
  {
    hide Key; hide Touched; hide Applied; hide SameAt;
    assert SameAt(Applied(c.ops, base, s.queue), s.kernel, k);
    if c.group(Key(c.ops, e.data)) < s.joined {
      ChangeSameAt(c.ops, base, s.queue, s.kernel, e, k);
    } else {
      SetElsewhere(c.ops, s.kernel, e, Applied(c.ops, base, s.queue), k);
    }
  }

  // A change and its event keep a key in step, and others do not matter.
  lemma ChangeSameAt(ops: ObjectOps, base: map<Data, Data>, queue: seq<Entry>, kernel: map<Data, Data>, e: Entry, k: Data)
    requires SameAt(Applied(ops, base, queue), kernel, k) && e.act != ActOther
    ensures SameAt(Applied(ops, base, queue + [e]), Applied(ops, kernel, [e]), k)
  {
    hide Key; hide Touched;
    AppliedAppend(ops, base, queue, [e]);
    AppliedOne(ops, Applied(ops, base, queue), e);
    AppliedOne(ops, kernel, e);
  }

  lemma SetElsewhere(ops: ObjectOps, kernel: map<Data, Data>, e: Entry, m: map<Data, Data>, k: Data)
    requires SameAt(m, kernel, k) && e.act != ActOther && Key(ops, e.data) != k
    ensures SameAt(m, Applied(ops, kernel, [e]), k)
  {
    hide Key;
    AppliedOne(ops, kernel, e);
  }

  // One event sets or removes its own key.
  lemma AppliedOne(ops: ObjectOps, m: map<Data, Data>, e: Entry)
    requires e.act != ActOther
    ensures Applied(ops, m, [e]) == if e.act == ActNew then m[Key(ops, e.data) := e.data] else m - {Key(ops, e.data)}
  {
    assert [e][..0] == [];
  }

  // What a key is when its group is joined.
  function Rebased(c: Setup, s: State, base: map<Data, Data>): map<Data, Data>
  {
    map k | k in base.Keys + s.kernel.Keys && (if c.group(k) == s.joined then k in s.kernel else k in base)
      :: if c.group(k) == s.joined then s.kernel[k] else base[k]
  }

  lemma FollowsJoin(c: Setup, s: State, base: map<Data, Data>)
    requires Follows(c, s, base) && Enabled(c, s, Join, false)
    ensures Follows(c, Next(c, s, Join), Rebased(c, s, base))
  {
    hide Key; hide Touched; hide Applied;
    var base' := Rebased(c, s, base);
    forall k | c.group(k) < s.joined + 1 ensures SameAt(Applied(c.ops, base', s.queue), s.kernel, k) {
      if c.group(k) == s.joined {
        UntouchedSame(c.ops, base', s.queue, k);
      } else {
        AppliedSameAt(c.ops, base', base, s.queue, k);
        assert SameAt(Applied(c.ops, base, s.queue), s.kernel, k);
      }
    }
  }

  lemma FollowsVisit(c: Setup, s: State, base: map<Data, Data>, k: Data)
    requires Follows(c, s, base) && Enabled(c, s, Visit(k), false)
    ensures Follows(c, Next(c, s, Visit(k)), base)
  {
    hide Key; hide Touched; hide Applied;
    if k !in Touched(c.ops, s.queue) {
      UntouchedSame(c.ops, base, s.queue, k);
      if k in s.kernel { assert SameAt(Applied(c.ops, base, s.queue), s.kernel, k); }
      if k in base && c.group(k) < c.groups { assert SameAt(Applied(c.ops, base, s.queue), s.kernel, k); }
    }
  }

  // A refilled cache holds entries the dumps reported, for every key they reported.
  lemma {:induction false} FirstWinsRead(ops: ObjectOps, es: seq<Entry>, k: Data)
    ensures k in FirstWins(ops, es) ==>
      exists e :: e in es && Key(ops, e.data) == k && FirstWins(ops, es)[k] == e.data
    ensures (exists e :: e in es && Key(ops, e.data) == k) ==> k in FirstWins(ops, es)
  {
    hide Key;
    if es != [] {
      var n := |es| - 1;
      FirstWinsRead(ops, es[..n], k);
      assert es == es[..n] + [es[n]];
      if k in FirstWins(ops, es[..n]) {
        var e :| e in es[..n] && Key(ops, e.data) == k && FirstWins(ops, es[..n])[k] == e.data;
        assert e in es;
      } else if k in FirstWins(ops, es) {
        assert es[n] in es;
      }
    }
  }

  // When the dump is over the cache lags behind the kernel by exactly the
  // events in the queue.
  lemma FollowsFinish(c: Setup, s: State, base: map<Data, Data>)
    requires Follows(c, s, base) && Enabled(c, s, Finish, false)
    ensures Follows(c, Next(c, s, Finish), base)
  {
    hide Key; hide Touched; hide Applied; hide FirstWins;
    var cache := FirstWins(c.ops, s.read);
    forall k | k in Applied(c.ops, cache, s.queue) || k in s.kernel
      ensures SameAt(Applied(c.ops, cache, s.queue), s.kernel, k)
    {
      FinishSameAt(c, s, base, k);
    }
    AllSame(Applied(c.ops, cache, s.queue), s.kernel);
  }

  lemma FinishSameAt(c: Setup, s: State, base: map<Data, Data>, k: Data)
    requires Follows(c, s, base) && Enabled(c, s, Finish, false)
    requires k in Applied(c.ops, FirstWins(c.ops, s.read), s.queue) || k in s.kernel
    ensures SameAt(Applied(c.ops, FirstWins(c.ops, s.read), s.queue), s.kernel, k)
  {
    hide Key; hide Touched; hide Applied; hide FirstWins;
    var cache := FirstWins(c.ops, s.read);
    FirstWinsRead(c.ops, s.read, k);
    AppliedLocal(c.ops, cache, s.queue, k);
    if k !in Touched(c.ops, s.queue) {
      UntouchedSame(c.ops, base, s.queue, k);
      if k in cache {
        var e :| e in s.read && Key(c.ops, e.data) == k && cache[k] == e.data;
        assert SameAt(base, cache, k);
      }
    }
    AppliedSameAt(c.ops, base, cache, s.queue, k);
    assert SameAt(Applied(c.ops, base, s.queue), s.kernel, k);
  }

  lemma FollowsRequest(c: Setup, s: State, base: map<Data, Data>)
    requires Follows(c, s, base) && Enabled(c, s, Request, false)
    ensures Follows(c, Next(c, s, Request), base)
  {
    hide Key; hide Touched; hide Applied; hide SameAt;
    assert Tracks(c, Next(c, s, Request), base);
  }

  lemma FollowsStep(c: Setup, s: State, base: map<Data, Data>, a: Action) returns (base': map<Data, Data>)
    requires Follows(c, s, base) && Enabled(c, s, a, false)
    ensures Follows(c, Next(c, s, a), base')
  {
    hide Key; hide Touched; hide Applied; hide FirstWins;
    base' := base;
    match a {
      case Change(e) => FollowsChange(c, s, base, e);
      case Join =>
        base' := Rebased(c, s, base);
        FollowsJoin(c, s, base);
      case Request => FollowsRequest(c, s, base);
      case Visit(k) => FollowsVisit(c, s, base, k);
      case Finish => FollowsFinish(c, s, base);
      case Handle =>
        assert s.queue == [s.queue[0]] + s.queue[1..];
        AppliedAppend(c.ops, s.cache, [s.queue[0]], s.queue[1..]);
    }
  }

  // ---------- the main results ----------

  lemma {:induction false} RunFollows(c: Setup, states: seq<State>, actions: seq<Action>, kernel: map<Data, Data>)
    returns (base: map<Data, Data>)
    requires IsRun(c, false, states, actions) && states[0] == Start(kernel)
    requires Keyed(c.ops, kernel) && forall k :: k in kernel ==> c.group(k) < c.groups
    ensures Follows(c, states[|actions|], base)
    decreases |actions|
  {
    if actions == [] {
      base := map[];
      hide Key;
      assert Touched(c.ops, []) == {};
      StartFollows(c, kernel);
    } else {
      var n := |actions| - 1;
      var before := RunFollows(c, states[..n + 1], actions[..n], kernel);
      base := FollowsStep(c, states[n], before, actions[n]);
    }
  }

  lemma StartFollows(c: Setup, kernel: map<Data, Data>)
    requires Keyed(c.ops, kernel) && forall k :: k in kernel ==> c.group(k) < c.groups
    ensures Follows(c, Start(kernel), map[])
  {}

  // In every interleaving of kernel changes with joining, dumping and event
  // handling: once the cache is managed, the kernel's state is the cache's
  // after the waiting events, so with no event waiting the two are equal.
  lemma Converges(c: Setup, states: seq<State>, actions: seq<Action>, kernel: map<Data, Data>)
    requires IsRun(c, false, states, actions) && states[0] == Start(kernel)
    requires Keyed(c.ops, kernel) && forall k :: k in kernel ==> c.group(k) < c.groups
    ensures var s := states[|actions|];
            s.phase == Watching ==> && Applied(c.ops, s.cache, s.queue) == s.kernel
                                    && (s.queue == [] ==> s.cache == s.kernel)
  {
    var base := RunFollows(c, states, actions, kernel);
  }

  // ---------- why the groups come first ----------

  lemma FirstWinsOne(ops: ObjectOps, e: Entry)
    ensures FirstWins(ops, [e]) == map[Key(ops, e.data) := e.data]
  {
    assert [e][..0] == [];
  }

  // Were the dump taken before the groups are joined, a change in between would
  // be lost: a run that ends with no event waiting and a wrong cache.
  lemma DumpBeforeJoinLoses(c: Setup, d: Data, old': Data) returns (states: seq<State>, actions: seq<Action>)
    requires c.groups == 1 && (forall k :: c.group(k) == 0)
    requires Key(c.ops, d) == Key(c.ops, old') && d != old'
    ensures IsRun(c, true, states, actions) && Keyed(c.ops, states[0].kernel)
    ensures states[0] == Start(states[0].kernel)
    ensures var s := states[|actions|];
            s.phase == Watching && s.joined == c.groups && s.queue == [] && s.cache != s.kernel
  {
    hide Key; hide Touched;
    var k, e := Key(c.ops, d), Entry(d, ActNew);
    var before, after := map[k := old'], map[k := d];
    FirstWinsOne(c.ops, Entry(old', ActNew));
    AppliedOne(c.ops, before, e);
    hide FirstWins; hide Applied;
    var s0 := Start(before);
    var s1 := s0.(phase := Dumping);
    var s2 := s1.(seen := {k}, read := [Entry(old', ActNew)]);
    var s3 := s2.(phase := Watching, cache := before);
    var s4 := s3.(kernel := after);
    var s5 := s4.(joined := 1);
    states, actions := [s0, s1, s2, s3, s4, s5], [Request, Visit(k), Finish, Change(e), Join];
    assert Enabled(c, s0, Request, true) && s1 == Next(c, s0, Request);
    assert Enabled(c, s1, Visit(k), true) && s2 == Next(c, s1, Visit(k));
    assert Enabled(c, s2, Finish, true) && s3 == Next(c, s2, Finish);
    assert Enabled(c, s3, Change(e), true) && s4 == Next(c, s3, Change(e));
    assert Enabled(c, s4, Join, true) && s5 == Next(c, s4, Join);
    assert before[k] != after[k];
    hide Enabled; hide Next;
  }

  // Runs as the protocol has them exist: here an object changes between the
  // joining and the dump, and its event is handled after it.
  lemma RunExists(c: Setup, d: Data, old': Data) returns (states: seq<State>, actions: seq<Action>)
    requires c.groups == 1 && (forall k :: c.group(k) == 0)
    requires Key(c.ops, d) == Key(c.ops, old')
    ensures IsRun(c, false, states, actions) && states[0] == Start(map[Key(c.ops, d) := old'])
    ensures var s := states[|actions|];
            s.phase == Watching && s.queue == [] && s.kernel == map[Key(c.ops, d) := d] == s.cache
  {
    hide Key; hide Enabled; hide Next;
    var k, e := Key(c.ops, d), Entry(d, ActNew);
    var s0 := Start(map[k := old']);
    var s1 := s0.(joined := 1);
    var s2 := s1.(kernel := map[k := d], queue := [e]);
    var s3 := s2.(phase := Dumping);
    var s4 := s3.(seen := {k}, read := [e]);
    var s5 := s4.(phase := Watching, cache := map[k := d]);
    var s6 := s5.(queue := []);
    states, actions := [s0, s1, s2, s3, s4, s5, s6], [Join, Change(e), Request, Visit(k), Finish, Handle];
    Beginning(c, k, e, s0, s1, s2, s3);
    Ending(c, k, e, s3, s4, s5, s6);
  }

  lemma Beginning(c: Setup, k: Data, e: Entry, s0: State, s1: State, s2: State, s3: State)
    requires c.groups == 1 && (forall k :: c.group(k) == 0) && e.act == ActNew && k == Key(c.ops, e.data)
    requires s0 == Start(s0.kernel) && s0.kernel.Keys == {k} && s1 == s0.(joined := 1)
    requires s2 == s1.(kernel := map[k := e.data], queue := [e]) && s3 == s2.(phase := Dumping)
    ensures Enabled(c, s0, Join, false) && s1 == Next(c, s0, Join)
    ensures Enabled(c, s1, Change(e), false) && s2 == Next(c, s1, Change(e))
    ensures Enabled(c, s2, Request, false) && s3 == Next(c, s2, Request)
  {
    hide Key; hide Applied;
    AppliedOne(c.ops, s0.kernel, e);
    assert s0.kernel[k := e.data] == map[k := e.data];
    assert [] + [e] == [e];
  }

  lemma Ending(c: Setup, k: Data, e: Entry, s3: State, s4: State, s5: State, s6: State)
    requires e.act == ActNew && k == Key(c.ops, e.data)
    requires s3.phase == Dumping && s3.kernel == map[k := e.data] && s3.queue == [e] && s3.read == [] && s3.seen == {}
    requires s4 == s3.(seen := {k}, read := [e]) && s5 == s4.(phase := Watching, cache := s3.kernel) && s6 == s5.(queue := [])
    ensures Enabled(c, s3, Visit(k), false) && s4 == Next(c, s3, Visit(k))
    ensures Enabled(c, s4, Finish, false) && s5 == Next(c, s4, Finish)
    ensures Enabled(c, s5, Handle, false) && s6 == Next(c, s5, Handle)
  {
    hide Key; hide Applied; hide FirstWins; hide Touched;
    FirstWinsOne(c.ops, e);
    AppliedOne(c.ops, s3.kernel, e);
    assert s3.kernel[k := e.data] == s3.kernel && [e][1..] == [] && [] + [e] == [e] && {} + {k} == {k};
  }
}
