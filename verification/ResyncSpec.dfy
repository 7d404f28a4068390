// What a resynchronisation or a refill leaves in a cache, as values.

module ResyncSpec {
  import opened Types
  import opened List
  import opened Objects
  import opened HashTables
  import opened CacheIndex

  // One object of a dump: what the parser made of a message, and what the
  // message type means for a cache.
  datatype Entry = Entry(data: Data, act: Action)

  // How reading one dump ends: with its end, with a sign that it is
  // inconsistent and must be asked for again, or with an error.
  datatype Outcome = Finished | Interrupted | Broken(error: Error)

  // The answer to one dump request.
  datatype Dump = Refused(error: Error) | Dump(entries: seq<Entry>, outcome: Outcome)

  // The entries read, in order, until as many dumps as wanted were complete
  // (extra + 1 of them) or one failed.  An interrupted dump is asked for again.
  function Consumed(dumps: seq<Dump>, extra: nat): (Status, seq<Entry>)
  {
    if dumps == [] then (Failed(OtherError(0)), [])
    else match dumps[0]
      case Refused(e) => (Failed(e), [])
      case Dump(es, Broken(e)) => (Failed(e), es)
      case Dump(es, Interrupted) =>
        var (st, rest) := Consumed(dumps[1..], extra); (st, es + rest)
      case Dump(es, Finished) =>
        if extra == 0 then (Ok, es)
        else var (st, rest) := Consumed(dumps[1..], extra - 1); (st, es + rest)
  }

  // How many dumps came to their end, and what all of them reported
  function Ended(dumps: seq<Dump>): nat
  {
    if dumps == [] then 0
    else (if dumps[0].Dump? && dumps[0].outcome == Finished then 1 else 0) + Ended(dumps[1..])
  }

  function EntriesOf(dumps: seq<Dump>): seq<Entry>
  {
    if dumps == [] then [] else (if dumps[0].Dump? then dumps[0].entries else []) + EntriesOf(dumps[1..])
  }

  // A run of requests that works ends with the dump that makes extra + 1 of them
  // complete; up to there none was refused or broken, and the entries of all of
  // them were read, those of interrupted ones too.
  lemma {:induction false} ConsumedOk(dumps: seq<Dump>, extra: nat) returns (n: nat)
    requires Consumed(dumps, extra).0 == Ok
    ensures 0 < n <= |dumps| && Consumed(dumps, extra).1 == EntriesOf(dumps[..n])
    ensures forall i :: 0 <= i < n ==> dumps[i].Dump? && !dumps[i].outcome.Broken?
    ensures dumps[n - 1].outcome == Finished && Ended(dumps[..n]) == extra + 1
  {
    assert dumps[..1] == [dumps[0]] && dumps[..1][1..] == [] && dumps[0].entries + [] == dumps[0].entries;
    if dumps[0].outcome == Finished && extra == 0 {
      n := 1;
    } else {
      var k := ConsumedOk(dumps[1..], if dumps[0].outcome == Finished then extra - 1 else extra);
      n := k + 1;
      assert dumps[..n][1..] == dumps[1..][..k];
      forall i | 0 <= i < n ensures dumps[i].Dump? && !dumps[i].outcome.Broken? {
        if i > 0 { assert dumps[i] == dumps[1..][i - 1]; }
      }
    }
  }

  // A run that fails, fails at its first dump that was refused or broken, with
  // that error, or where the answers run out; the entries of all dumps before
  // it were read, and what a broken dump reported.
  lemma {:induction false} ConsumedFailed(dumps: seq<Dump>, extra: nat) returns (n: nat)
    requires Consumed(dumps, extra).0 != Ok
    ensures n <= |dumps| && forall i :: 0 <= i < n ==> dumps[i].Dump? && !dumps[i].outcome.Broken?
    ensures Ended(dumps[..n]) <= extra
    ensures n < |dumps| ==>
      if dumps[n].Refused? then Consumed(dumps, extra) == (Failed(dumps[n].error), EntriesOf(dumps[..n]))
      else && dumps[n].outcome.Broken?
           && Consumed(dumps, extra) == (Failed(dumps[n].outcome.error), EntriesOf(dumps[..n]) + dumps[n].entries)
    ensures n == |dumps| ==> Consumed(dumps, extra).1 == EntriesOf(dumps)
  {
    if dumps == [] || dumps[0].Refused? || dumps[0].outcome.Broken? {
      n := 0;
      assert dumps[..0] == [];
      if dumps != [] && dumps[0].Dump? { assert [] + dumps[0].entries == dumps[0].entries; }
    } else {
      var k := ConsumedFailed(dumps[1..], if dumps[0].outcome == Finished then extra - 1 else extra);
      n := k + 1;
      assert dumps[..n][1..] == dumps[1..][..k] && dumps[..n][0] == dumps[0];
      if n < |dumps| && dumps[n].Dump? {
        assert dumps[0].entries + (EntriesOf(dumps[1..][..k]) + dumps[n].entries)
               == dumps[0].entries + EntriesOf(dumps[1..][..k]) + dumps[n].entries;
      }
    }
  }

  // ---------- the map after a run of entries ----------

  // Each entry sets or removes its key.
  function Applied(ops: ObjectOps, m: map<Data, Data>, es: seq<Entry>): map<Data, Data>
  {
    if es == [] then m
    else
      var e := es[|es| - 1];
      var before := Applied(ops, m, es[..|es| - 1]);
      var k := Key(ops, e.data);
      match e.act
      case ActNew => before[k := e.data]
      case ActDel => before - {k}
      case ActOther => before
  }

  // The keys some entry set or removed.
  function Touched(ops: ObjectOps, es: seq<Entry>): set<Data>
  {
    set e | e in es && e.act != ActOther :: Key(ops, e.data)
  }

  // Runs of entries compose.
  lemma {:induction false} AppliedAppend(ops: ObjectOps, m: map<Data, Data>, es: seq<Entry>, fs: seq<Entry>)
    ensures Applied(ops, m, es + fs) == Applied(ops, Applied(ops, m, es), fs)
  {
    if fs == [] {
      assert es + fs == es;
    } else {
      AppliedAppend(ops, m, es, fs[..|fs| - 1]);
      assert (es + fs)[..|es + fs| - 1] == es + fs[..|fs| - 1];
    }
  }

  // What is not touched is as before, what is touched does not depend on before.
  lemma {:induction false} AppliedLocal(ops: ObjectOps, m: map<Data, Data>, es: seq<Entry>, k: Data)
    ensures k in Touched(ops, es) ==> (k in Applied(ops, m, es) <==> k in Applied(ops, map[], es))
    ensures k in Touched(ops, es) && k in Applied(ops, m, es) ==> Applied(ops, m, es)[k] == Applied(ops, map[], es)[k]
    ensures k !in Touched(ops, es) ==> (k in Applied(ops, m, es) <==> k in m)
    ensures k !in Touched(ops, es) && k in m ==> Applied(ops, m, es)[k] == m[k]
  {
    if es != [] {
      var n := |es| - 1;
      var front, e := es[..n], es[n];
      AppliedLocal(ops, m, front, k);
      assert es == front + [e];
      assert k in Touched(ops, es) <==> k in Touched(ops, front) || (e.act != ActOther && Key(ops, e.data) == k);
    }
  }

  // The last entry about a key decides its value.
  lemma {:induction false} LastEntryWins(ops: ObjectOps, m: map<Data, Data>, es: seq<Entry>, i: nat)
    requires i < |es| && es[i].act == ActNew
    requires forall j :: i < j < |es| ==> es[j].act == ActOther || Key(ops, es[j].data) != Key(ops, es[i].data)
    ensures var k := Key(ops, es[i].data); k in Applied(ops, m, es) && Applied(ops, m, es)[k] == es[i].data
  {
    var n := |es| - 1;
    if i < n {
      LastEntryWins(ops, m, es[..n], i);
    }
  }

  // A complete dump of new objects leaves its keys, and nothing else.
  lemma {:induction false} DumpKeys(ops: ObjectOps, es: seq<Entry>)
    requires forall e :: e in es ==> e.act == ActNew
    ensures Applied(ops, map[], es).Keys == Touched(ops, es)
  {
    if es != [] {
      var n := |es| - 1;
      var front, e := es[..n], es[n];
      DumpKeys(ops, front);
      assert es == front + [e];
      assert Touched(ops, es) == Touched(ops, front) + {Key(ops, e.data)};
    }
  }

  // With restarts: every entry of the last dump is there with its value, and
  // nothing lies outside the dumps together.
  lemma RestartedDump(ops: ObjectOps, earlier: seq<Entry>, last: seq<Entry>)
    requires forall e :: e in earlier + last ==> e.act == ActNew
    ensures var m := Applied(ops, map[], earlier + last);
            var l := Applied(ops, map[], last);
            && (forall k :: k in l ==> k in m && m[k] == l[k])
            && m.Keys <= Touched(ops, earlier) + Touched(ops, last)
  {
    forall e | e in earlier ensures e.act == ActNew { assert e in earlier + last; }
    forall e | e in last ensures e.act == ActNew { assert e in earlier + last; }
    var m, l := Applied(ops, map[], earlier + last), Applied(ops, map[], last);
    AppliedAppend(ops, map[], earlier, last);
    DumpKeys(ops, last);
    DumpKeys(ops, earlier);
    forall k | k in l ensures k in m && m[k] == l[k] {
      AppliedLocal(ops, Applied(ops, map[], earlier), last, k);
    }
    forall k | k in m ensures k in Touched(ops, earlier) + Touched(ops, last) {
      AppliedLocal(ops, Applied(ops, map[], earlier), last, k);
    }
  }

  // A refill keeps the first object of each key.
  function FirstWins(ops: ObjectOps, es: seq<Entry>): map<Data, Data>
  {
    if es == [] then map[]
    else
      var e := es[|es| - 1];
      var before := FirstWins(ops, es[..|es| - 1]);
      var k := Key(ops, e.data);
      if k in before then before else before[k := e.data]
  }

  // ---------- the part of a list a resync has confirmed ----------

  // The objects of a list outside a set.
  function Kept(items: seq<NlObject>, out: set<NlObject>): (r: seq<NlObject>)
    ensures forall o :: o in r ==> o in items && o !in out
    ensures forall o :: o in items && o !in out ==> o in r
  {
    if items == [] then []
    else
      var last := items[|items| - 1];
      var front := Kept(items[..|items| - 1], out);
      assert items == items[..|items| - 1] + [last];
      if last in out then front else front + [last]
  }

  lemma {:induction false} KeptDistinct(items: seq<NlObject>, out: set<NlObject>)
    requires Distinct(items)
    ensures Distinct(Kept(items, out))
  {
    if items != [] {
      KeptDistinct(items[..|items| - 1], out);
      assert items[|items| - 1] !in items[..|items| - 1];
    }
  }

  // Freedom from duplicates is about members, not places.
  lemma DuplicateFreeMembers(ops: ObjectOps, items: seq<NlObject>, a: NlObject, b: NlObject)
    requires DuplicateFree(ops, items) && a in items && b in items && a != b
    ensures !IdenticalObjects(a, b)
  {
    var i :| 0 <= i < |items| && items[i] == a;
    var j :| 0 <= j < |items| && items[j] == b;
    if IdenticalObjects(a, b) { IdenticalIffSameKey(ops, a.data, b.data); IdenticalIffSameKey(ops, b.data, a.data); }
  }

  lemma SubsetDuplicateFree(ops: ObjectOps, items: seq<NlObject>, some: seq<NlObject>)
    requires DuplicateFree(ops, items) && Distinct(some) && forall o :: o in some ==> o in items
    ensures DuplicateFree(ops, some)
  {
    forall i, j | 0 <= i < j < |some| ensures !IdenticalObjects(some[i], some[j]) {
      DuplicateFreeMembers(ops, items, some[i], some[j]);
    }
  }

  // Two duplicate-free lists with the same members are the same map.
  lemma SameMembersSameContent(ops: ObjectOps, s: seq<NlObject>, t: seq<NlObject>)
    requires DuplicateFree(ops, s) && DuplicateFree(ops, t)
    requires forall o :: o in s <==> o in t
    ensures Content(ops, s) == Content(ops, t)
  {
    hide DuplicateFree; hide Content; hide Key;
    var m, m' := Content(ops, s), Content(ops, t);
    forall k | k in m ensures k in m' && m'[k] == m[k] {
      SameEntry(ops, s, t, k);
    }
    forall k | k in m' ensures k in m && m'[k] == m[k] {
      SameEntry(ops, t, s, k);
    }
    assert m == m';
  }

  lemma SameEntry(ops: ObjectOps, s: seq<NlObject>, t: seq<NlObject>, k: Data)
    requires DuplicateFree(ops, s) && DuplicateFree(ops, t) && k in Content(ops, s)
    requires forall o :: o in s <==> o in t
    ensures k in Content(ops, t) && Content(ops, t)[k] == Content(ops, s)[k]
  {
    hide DuplicateFree; hide Content; hide Key;
    var i := ContentOnly(ops, s, k);
    assert s[i] in t;
    var j :| 0 <= j < |t| && t[j] == s[i];
    ContentHas(ops, s, i);
    ContentHas(ops, t, j);
  }

  // The confirmed part follows the entries.
  lemma KeptRemove(ops: ObjectOps, items: seq<NlObject>, out: set<NlObject>, obj: NlObject)
    requires DuplicateFree(ops, items) && Distinct(items) && obj.ops == ops && Complete(ops, obj.data)
    ensures Content(ops, Kept(RemoveFirst(items, obj), out)) == Content(ops, Kept(items, out)) - {Key(ops, obj.data)}
  {
    hide DuplicateFree; hide Content; hide Key; hide RemoveFirst; hide Complete; hide IdenticalObjects;
    var less, kept := RemoveFirst(items, obj), Kept(items, out);
    RemoveFirstKeeps(ops, items, obj);
    KeptDistinct(items, out);
    KeptDistinct(less, out);
    SubsetDuplicateFree(ops, items, kept);
    SubsetDuplicateFree(ops, items, Kept(less, out));
    RemoveFirstKeeps(ops, kept, obj);
    RemoveFirstContent(ops, kept, obj);
    var o := FirstIdentical(items, obj);
    var p := FirstIdentical(kept, obj);
    if p != null {
      IdenticalUnique(ops, items, o, p, obj);
    }
    assert o != null && o !in out ==> o in kept;
    SameMembersSameContent(ops, Kept(less, out), RemoveFirst(kept, obj));
  }

  // The confirmed part and one entry.
  lemma KeptEntry(ops: ObjectOps, items: seq<NlObject>, out: set<NlObject>, obj: NlObject, es: seq<Entry>, e: Entry)
    requires DuplicateFree(ops, items) && Distinct(items) && obj.ops == ops && Complete(ops, obj.data)
    requires obj !in items && obj !in out && e.data == obj.data
    requires Content(ops, Kept(items, out)) == Applied(ops, map[], es)
    ensures e.act == ActNew ==> Content(ops, Kept(RemoveFirst(items, obj) + [obj], out)) == Applied(ops, map[], es + [e])
    ensures e.act == ActDel ==> Content(ops, Kept(RemoveFirst(items, obj), out)) == Applied(ops, map[], es + [e])
    ensures e.act == ActOther ==> Content(ops, Kept(items, out)) == Applied(ops, map[], es + [e])
  {
    hide DuplicateFree; hide Content; hide Key; hide RemoveFirst; hide Complete;
    assert (es + [e])[..|es|] == es;
    KeptRemove(ops, items, out, obj);
    var less := RemoveFirst(items, obj);
    assert (less + [obj])[..|less|] == less;
    ContentAdd(ops, Kept(less, out), obj);
  }

  // ---------- the part a resync has not seen ----------

  // The objects of a list inside a set.
  function Stale(items: seq<NlObject>, old': set<NlObject>): seq<NlObject>
  {
    if items == [] then []
    else
      var front := Stale(items[..|items| - 1], old');
      if items[|items| - 1] in old' then front + [items[|items| - 1]] else front
  }

  // The objects of a list whose key is not among some keys.
  function Untouched(ops: ObjectOps, items: seq<NlObject>, keys: set<Data>): seq<NlObject>
  {
    if items == [] then []
    else
      var front := Untouched(ops, items[..|items| - 1], keys);
      if Key(ops, items[|items| - 1].data) in keys then front else front + [items[|items| - 1]]
  }

  lemma {:induction false} StaleAppend(s: seq<NlObject>, t: seq<NlObject>, old': set<NlObject>)
    ensures Stale(s + t, old') == Stale(s, old') + Stale(t, old')
  {
    if t == [] {
      assert s + t == s;
    } else {
      StaleAppend(s, t[..|t| - 1], old');
      assert (s + t)[..|s + t| - 1] == s + t[..|t| - 1];
    }
  }

  lemma {:induction false} UntouchedAppend(ops: ObjectOps, s: seq<NlObject>, t: seq<NlObject>, keys: set<Data>)
    ensures Untouched(ops, s + t, keys) == Untouched(ops, s, keys) + Untouched(ops, t, keys)
  {
    if t == [] {
      assert s + t == s;
    } else {
      UntouchedAppend(ops, s, t[..|t| - 1], keys);
      assert (s + t)[..|s + t| - 1] == s + t[..|t| - 1];
    }
  }

  lemma {:induction false} UntouchedAll(ops: ObjectOps, items: seq<NlObject>, old': set<NlObject>, k: Data)
    requires forall i :: 0 <= i < |items| ==> Key(ops, items[i].data) != k
    ensures Untouched(ops, Stale(items, old'), {k}) == Stale(items, old')
  {
    if items != [] {
      var n := |items| - 1;
      UntouchedAll(ops, items[..n], old', k);
      var front := Stale(items[..n], old');
      assert (front + [items[n]])[..|front|] == front;
    }
  }

  lemma {:induction false} UntouchedTwice(ops: ObjectOps, items: seq<NlObject>, keys: set<Data>, more: set<Data>)
    ensures Untouched(ops, Untouched(ops, items, keys), more) == Untouched(ops, items, keys + more)
  {
    if items != [] {
      var n := |items| - 1;
      UntouchedTwice(ops, items[..n], keys, more);
      var front := Untouched(ops, items[..n], keys);
      assert (front + [items[n]])[..|front|] == front;
    }
  }

  // Each object whose key vanished is listed, once, and no other object is.
  lemma {:induction false} UntouchedMembers(ops: ObjectOps, items: seq<NlObject>, keys: set<Data>)
    requires Distinct(items)
    ensures Distinct(Untouched(ops, items, keys))
    ensures forall o :: o in Untouched(ops, items, keys) <==> o in items && Key(ops, o.data) !in keys
  {
    if items != [] {
      var n := |items| - 1;
      UntouchedMembers(ops, items[..n], keys);
      assert items == items[..n] + [items[n]];
      assert items[n] !in items[..n];
    }
  }

  lemma {:induction false} UntouchedNone(ops: ObjectOps, items: seq<NlObject>)
    ensures Untouched(ops, items, {}) == items
  {
    if items != [] {
      UntouchedNone(ops, items[..|items| - 1]);
    }
  }

  lemma {:induction false} StaleAll(items: seq<NlObject>, old': set<NlObject>)
    requires forall i :: 0 <= i < |items| ==> items[i] in old'
    ensures Stale(items, old') == items && Kept(items, old') == []
  {
    if items != [] {
      StaleAll(items[..|items| - 1], old');
    }
  }

  // An entry takes the object with its key out of the unseen part.
  lemma StaleRemove(ops: ObjectOps, items: seq<NlObject>, old': set<NlObject>, obj: NlObject)
    requires DuplicateFree(ops, items) && obj.ops == ops && Complete(ops, obj.data)
    ensures Stale(RemoveFirst(items, obj), old') == Untouched(ops, Stale(items, old'), {Key(ops, obj.data)})
  {
    hide Stale; hide Untouched;
    var k, i := Key(ops, obj.data), FirstIndex(items, obj);
    FirstIndexFinds(items, obj);
    forall j | 0 <= j < |items| && j != i ensures Key(ops, items[j].data) != k {
      if i < |items| {
        IdenticalIffSameKey(ops, items[i].data, obj.data);
        KeysApart(ops, items, j, i);
      } else {
        assert items[j] in items;
        IdenticalIffSameKey(ops, items[j].data, obj.data);
      }
    }
    if i < |items| {
      IdenticalIffSameKey(ops, items[i].data, obj.data);
      StaleRemoveAt(ops, items, old', i, k);
    } else {
      UntouchedAll(ops, items, old', k);
    }
  }

  lemma StaleRemoveAt(ops: ObjectOps, items: seq<NlObject>, old': set<NlObject>, i: nat, k: Data)
    requires i < |items| && Key(ops, items[i].data) == k
    requires forall j :: 0 <= j < |items| && j != i ==> Key(ops, items[j].data) != k
    ensures Stale(Without(items, i), old') == Untouched(ops, Stale(items, old'), {k})
  {
    hide Key; hide Stale; hide Untouched;
    var a, x, b := items[..i], [items[i]], items[i + 1..];
    assert items == a + (x + b) && Without(items, i) == a + b;
    StaleAppend(a, b, old');
    StaleAppend(a, x + b, old');
    StaleAppend(x, b, old');
    UntouchedAppend(ops, Stale(a, old'), Stale(x, old') + Stale(b, old'), {k});
    UntouchedAppend(ops, Stale(x, old'), Stale(b, old'), {k});
    UntouchedAll(ops, a, old', k);
    UntouchedAll(ops, b, old', k);
    TouchedSingle(ops, items[i], old', k);
  }

  lemma TouchedSingle(ops: ObjectOps, o: NlObject, old': set<NlObject>, k: Data)
    requires Key(ops, o.data) == k
    ensures Untouched(ops, Stale([o], old'), {k}) == []
  {
    assert [o][..0] == [];
  }

  // The unseen part and one entry.
  lemma StaleEntry(ops: ObjectOps, base: seq<NlObject>, items: seq<NlObject>, old': set<NlObject>,
                   obj: NlObject, es: seq<Entry>, e: Entry)
    requires DuplicateFree(ops, items) && obj.ops == ops && Complete(ops, obj.data)
    requires obj !in old' && e.data == obj.data
    requires Stale(items, old') == Untouched(ops, base, Touched(ops, es))
    ensures e.act == ActNew ==> Stale(RemoveFirst(items, obj) + [obj], old') == Untouched(ops, base, Touched(ops, es + [e]))
    ensures e.act == ActDel ==> Stale(RemoveFirst(items, obj), old') == Untouched(ops, base, Touched(ops, es + [e]))
    ensures e.act == ActOther ==> Stale(items, old') == Untouched(ops, base, Touched(ops, es + [e]))
  {
    hide DuplicateFree; hide Key; hide RemoveFirst; hide Complete; hide Untouched;
    StaleRemove(ops, items, old', obj);
    var k, less := Key(ops, obj.data), RemoveFirst(items, obj);
    UntouchedTwice(ops, base, Touched(ops, es), {k});
    assert (less + [obj])[..|less|] == less;
    if e.act == ActOther {
      assert Touched(ops, es + [e]) == Touched(ops, es);
    } else {
      assert Touched(ops, es + [e]) == Touched(ops, es) + {k};
    }
  }
}
