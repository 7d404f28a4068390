// When a hash index agrees with the list of a cache, and what it then answers.
// Objects never change their payload here, so all of this is about values.

module CacheIndex {
  import opened Types
  import opened List
  import opened Objects
  import opened HashTables

  // ---------- agreement ----------

  // Every object of the list can be told from every other by its identity.
  ghost predicate DuplicateFree(ops: ObjectOps, items: seq<NlObject>)
  {
    && (forall o :: o in items ==> o.ops == ops && Complete(ops, o.data))
    && (forall i, j :: 0 <= i < j < |items| ==> !IdenticalObjects(items[i], items[j]))
  }

  // The buckets hold exactly the objects of the list, each in the bucket of its key.
  ghost predicate Agrees(ops: ObjectOps, items: seq<NlObject>, v: seq<seq<NlObject>>)
  {
    && (forall k, o :: 0 <= k < |v| && o in v[k] ==> o in items && Keygen(ops, o.data, |v|) == k)
    && (forall k :: 0 <= k < |v| ==> Distinct(v[k]))
    && (forall o :: o in items ==> var k := Keygen(ops, o.data, |v|); k < |v| && o in v[k])
  }

  // Identity is shared: two objects identical to a third are identical.
  lemma IdenticalShared(a: NlObject, b: NlObject, needle: NlObject)
    requires IdenticalObjects(a, needle) && IdenticalObjects(b, needle)
    requires Complete(a.ops, a.data)
    ensures IdenticalObjects(a, b) && IdenticalObjects(b, a)
  {
    IdenticalIffSameKey(a.ops, a.data, needle.data);
    IdenticalIffSameKey(a.ops, b.data, needle.data);
    IdenticalIffSameKey(a.ops, a.data, b.data);
    IdenticalIffSameKey(a.ops, b.data, a.data);
  }

  // In a duplicate-free list at most one object is identical to a needle.
  lemma IdenticalUnique(ops: ObjectOps, items: seq<NlObject>, a: NlObject, b: NlObject, needle: NlObject)
    requires DuplicateFree(ops, items) && a in items && b in items
    requires IdenticalObjects(a, needle) && IdenticalObjects(b, needle)
    ensures a == b
  {
    var i :| 0 <= i < |items| && items[i] == a;
    var j :| 0 <= j < |items| && items[j] == b;
    IdenticalShared(a, b, needle);
  }

  // The hash lookup finds what a scan of the whole list finds.
  lemma LookupIsScan(ops: ObjectOps, items: seq<NlObject>, v: seq<seq<NlObject>>, needle: NlObject)
    requires DuplicateFree(ops, items) && Agrees(ops, items, v) && KeygenSound(ops, |v|)
    requires KeygenSound(needle.ops, |v|)
    ensures FirstIdentical(v[Keygen(needle.ops, needle.data, |v|)], needle) == FirstIdentical(items, needle)
  {
    var bucket := v[Keygen(needle.ops, needle.data, |v|)];
    var fast, scan := FirstIdentical(bucket, needle), FirstIdentical(items, needle);
    if scan != null {
      assert Keygen(ops, scan.data, |v|) == Keygen(ops, needle.data, |v|);
      assert scan in bucket;
    }
    if fast != null && scan != null {
      IdenticalUnique(ops, items, fast, scan, needle);
    }
  }

  // ---------- filters ----------

  // The first object of a list matching a filter (the loop of nl_cache_find).
  function FirstMatching(objs: seq<NlObject>, filter: NlObject): (r: NlObject?)
    ensures r != null ==> r in objs && MatchesFilter(r, filter)
    ensures r == null <==> forall o :: o in objs ==> !MatchesFilter(o, filter)
  {
    if objs == [] then null
    else if MatchesFilter(objs[0], filter) then objs[0]
    else FirstMatching(objs[1..], filter)
  }

  // An object has, of an attribute, what the filter asks for: the filter's value,
  // or one that a loose comparison takes for it.
  predicate Answers(o: NlObject, filter: NlObject, attr: Attr)
    requires attr in filter.data.attrs
  {
    && attr in o.data.attrs
    && (o.data.attrs[attr] == filter.data.attrs[attr] || o.ops.forgives(attr, o.data, filter.data))
  }

  // What the scan finds is of the filter's type and answers every attribute of
  // the filter that its type compares; every object before it is of another
  // type or fails at such an attribute, and so do all when it finds nothing.
  lemma {:induction false} MatchingMeans(objs: seq<NlObject>, filter: NlObject) returns (n: nat)
    ensures n <= |objs| && FirstMatching(objs, filter) == if n < |objs| then objs[n] else null
    ensures n < |objs| ==>
      && objs[n].ops == filter.ops && filter.ops.comparable
      && forall attr :: attr in filter.data.attrs && attr in filter.ops.compares ==>
           && attr in objs[n].data.attrs
           && (objs[n].data.attrs[attr] == filter.data.attrs[attr] || filter.ops.forgives(attr, objs[n].data, filter.data))
    ensures forall i :: 0 <= i < n ==>
      || objs[i].ops != filter.ops || !filter.ops.comparable
      || exists attr :: attr in filter.data.attrs && attr in filter.ops.compares
                        && (attr !in objs[i].data.attrs
                            || (&& objs[i].data.attrs[attr] != filter.data.attrs[attr]
                                && !filter.ops.forgives(attr, objs[i].data, filter.data)))
  {
    if objs == [] {
      n := 0;
    } else {
      MatchMeans(objs[0], filter);
      if MatchesFilter(objs[0], filter) {
        n := 0;
      } else {
        var k := MatchingMeans(objs[1..], filter);
        n := k + 1;
        forall i | 0 <= i < n
          ensures || objs[i].ops != filter.ops || !filter.ops.comparable
                  || exists attr :: attr in filter.data.attrs && attr in filter.ops.compares && !Answers(objs[i], filter, attr)
        {
          if i > 0 { assert objs[i] == objs[1..][i - 1]; }
        }
      }
    }
  }

  lemma MatchMeans(o: NlObject, filter: NlObject)
    ensures MatchesFilter(o, filter) <==>
      && o.ops == filter.ops && filter.ops.comparable
      && forall attr :: attr in filter.data.attrs && attr in filter.ops.compares ==> Answers(o, filter, attr)
  {
    if o.ops == filter.ops && filter.ops.comparable {
      var ops := filter.ops;
      var d := Diff(ops, o.data, filter.data, Mask(filter.data));
      if forall attr :: attr in filter.data.attrs && attr in ops.compares ==> Answers(o, filter, attr) {
        forall attr | attr in d ensures attr in o.data.attrs && attr in filter.data.attrs && ops.forgives(attr, o.data, filter.data) {
          assert Answers(o, filter, attr);
        }
      }
      if LooseDiff(ops, o.data, filter.data, Mask(filter.data)) == {} {
        forall attr | attr in filter.data.attrs && attr in ops.compares ensures Answers(o, filter, attr) {
          assert attr in d <==> Mismatch(o.data, filter.data, attr);
        }
      }
    }
  }

  // nl_object_get_id_attrs (object.c:552-566)
  function IdMask(ops: ObjectOps, d: Data): set<Attr>
  {
    match ops.idAttrs(d) case Common => {} case Listed(attrs) => attrs
  }

  // The filter carries exactly its id attributes: the fast path of nl_cache_find.
  predicate FastPath(filter: NlObject)
  {
    IdMask(filter.ops, filter.data) == Mask(filter.data)
  }

  // On the fast path the lookup finds what the filter scan finds exactly when
  // the scan finds nothing, or an object that is identified by the same
  // attributes as the filter and has the filter's values without a difference
  // that was passed over.
  lemma FastFindIsScan(ops: ObjectOps, items: seq<NlObject>, v: seq<seq<NlObject>>, filter: NlObject)
    requires DuplicateFree(ops, items) && Agrees(ops, items, v) && KeygenSound(ops, |v|)
    requires KeygenSound(filter.ops, |v|) && FastPath(filter)
    ensures var scan := FirstMatching(items, filter);
            FirstIdentical(v[Keygen(filter.ops, filter.data, |v|)], filter) == scan
            <==> (scan == null || (&& ops.idAttrs(scan.data) == ops.idAttrs(filter.data)
                                   && Diff(ops, scan.data, filter.data, Mask(filter.data)) == {}))
  {
    LookupIsScan(ops, items, v, filter);
    var found, scan := FirstIdentical(items, filter), FirstMatching(items, filter);
    if found != null {
      IdenticalMatches(ops, found, filter);
    }
    if scan != null {
      MatchIdentical(ops, scan, filter);
      if found != null && IdenticalObjects(scan, filter) { IdenticalUnique(ops, items, found, scan, filter); }
    }
  }

  lemma IdenticalMatches(ops: ObjectOps, o: NlObject, filter: NlObject)
    requires filter.ops == ops && FastPath(filter) && IdenticalObjects(o, filter) && Complete(ops, o.data)
    ensures MatchesFilter(o, filter)
  {}

  lemma MatchIdentical(ops: ObjectOps, o: NlObject, filter: NlObject)
    requires filter.ops == ops && FastPath(filter) && MatchesFilter(o, filter) && Complete(ops, o.data)
    ensures IdenticalObjects(o, filter)
            <==> && ops.idAttrs(o.data) == ops.idAttrs(filter.data)
                 && Diff(ops, o.data, filter.data, Mask(filter.data)) == {}
  {}

  // For types whose id attributes are fixed and compared strictly at all times
  // the fast path is right.
  lemma FixedFindIsScan(ops: ObjectOps, ids: set<Attr>, items: seq<NlObject>, v: seq<seq<NlObject>>, filter: NlObject)
    requires DuplicateFree(ops, items) && Agrees(ops, items, v) && KeygenSound(ops, |v|)
    requires filter.ops == ops && FastPath(filter)
    requires forall d :: ops.idAttrs(d) == Listed(ids)
    requires forall attr, a, b :: attr in ids ==> !ops.forgives(attr, a, b)
    ensures FirstIdentical(v[Keygen(ops, filter.data, |v|)], filter) == FirstMatching(items, filter)
  {
    FastFindIsScan(ops, items, v, filter);
  }

  // ---------- updates ----------

  lemma AddAgrees(ops: ObjectOps, items: seq<NlObject>, v: seq<seq<NlObject>>, o: NlObject)
    requires DuplicateFree(ops, items) && Agrees(ops, items, v) && KeygenSound(ops, |v|)
    requires o.ops == ops && Complete(ops, o.data) && FirstIdentical(v[Keygen(ops, o.data, |v|)], o) == null
    ensures var k := Keygen(ops, o.data, |v|);
            DuplicateFree(ops, items + [o]) && Agrees(ops, items + [o], v[k := [o] + v[k]])
  {
    var k := Keygen(ops, o.data, |v|);
    LookupIsScan(ops, items, v, o);
    SelfIdenticalIffComplete(ops, o.data);
    assert o !in items;
  }

  // The node found for a listed object is its own.
  lemma OwnNode(ops: ObjectOps, items: seq<NlObject>, v: seq<seq<NlObject>>, o: NlObject)
    requires DuplicateFree(ops, items) && Agrees(ops, items, v) && KeygenSound(ops, |v|) && o in items
    ensures var bucket := v[Keygen(ops, o.data, |v|)];
            FirstIndex(bucket, o) < |bucket| && bucket[FirstIndex(bucket, o)] == o
  {
    SelfIdenticalIffComplete(ops, o.data);
    LookupIsScan(ops, items, v, o);
    IdenticalUnique(ops, items, FirstIdentical(items, o), o, o);
    FirstIndexFinds(v[Keygen(ops, o.data, |v|)], o);
  }

  lemma RemoveAgrees(ops: ObjectOps, items: seq<NlObject>, v: seq<seq<NlObject>>, i: nat)
    requires DuplicateFree(ops, items) && Agrees(ops, items, v) && KeygenSound(ops, |v|)
    requires Distinct(items) && i < |items|
    ensures var k := Keygen(ops, items[i].data, |v|);
            var j := FirstIndex(v[k], items[i]);
            && j < |v[k]|
            && DuplicateFree(ops, Without(items, i))
            && Agrees(ops, Without(items, i), v[k := Without(v[k], j)])
  {
    hide IdenticalObjects; hide Complete; hide FirstIndex; hide FirstIdentical;
    var o := items[i];
    OwnNode(ops, items, v, o);
    var k := Keygen(ops, o.data, |v|);
    var j := FirstIndex(v[k], o);
    WithoutMembers(items, i);
    WithoutMembers(v[k], j);
  }

  lemma WithoutMembers<T>(s: seq<T>, i: nat)
    requires Distinct(s) && i < |s|
    ensures Distinct(Without(s, i))
    ensures forall x :: x in Without(s, i) <==> x in s && x != s[i]
  {
    var r := Without(s, i);
    forall x | x in s && x != s[i] ensures x in r {
      var k :| 0 <= k < |s| && s[k] == x;
      assert r[if k < i then k else k - 1] == x;
    }
  }

  // ---------- the cache as a map from identity to payload ----------

  // Later objects win where two have the same key.
  function Content(ops: ObjectOps, items: seq<NlObject>): map<Data, Data>
  {
    if items == [] then map[]
    else
      var last := items[|items| - 1];
      Content(ops, items[..|items| - 1])[Key(ops, last.data) := last.data]
  }

  lemma ContentAdd(ops: ObjectOps, items: seq<NlObject>, o: NlObject)
    ensures Content(ops, items + [o]) == Content(ops, items)[Key(ops, o.data) := o.data]
  {
    assert (items + [o])[..|items|] == items;
  }

  lemma KeysApart(ops: ObjectOps, items: seq<NlObject>, i: nat, j: nat)
    requires DuplicateFree(ops, items) && i < |items| && j < |items| && i != j
    ensures Key(ops, items[i].data) != Key(ops, items[j].data)
  {
    var (a, b) := if i < j then (items[i], items[j]) else (items[j], items[i]);
    IdenticalIffSameKey(ops, a.data, b.data);
  }

  // In a duplicate-free list every object's payload is in the map.
  lemma {:induction false} ContentHas(ops: ObjectOps, items: seq<NlObject>, i: nat)
    requires DuplicateFree(ops, items) && i < |items|
    ensures Key(ops, items[i].data) in Content(ops, items)
    ensures Content(ops, items)[Key(ops, items[i].data)] == items[i].data
  {
    var n := |items| - 1;
    if i < n {
      ContentHas(ops, items[..n], i);
      KeysApart(ops, items, i, n);
    }
  }

  // ... and nothing else is.
  lemma {:induction false} ContentOnly(ops: ObjectOps, items: seq<NlObject>, k: Data) returns (i: nat)
    requires k in Content(ops, items)
    ensures i < |items| && Key(ops, items[i].data) == k
  {
    var n := |items| - 1;
    if Key(ops, items[n].data) == k {
      i := n;
    } else {
      i := ContentOnly(ops, items[..n], k);
    }
  }

  lemma ContentRemove(ops: ObjectOps, items: seq<NlObject>, i: nat)
    requires DuplicateFree(ops, items) && Distinct(items) && i < |items|
    ensures Content(ops, Without(items, i)) == Content(ops, items) - {Key(ops, items[i].data)}
  {
    hide IdenticalObjects; hide Complete; hide Key; hide Content;
    var items', gone := Without(items, i), Key(ops, items[i].data);
    var m, m' := Content(ops, items), Content(ops, items');
    WithoutMembers(items, i);
    forall k | k in m && k != gone ensures k in m' && m'[k] == m[k] {
      var j := ContentOnly(ops, items, k);
      ContentHas(ops, items, j);
      ContentHas(ops, items', if j < i then j else j - 1);
    }
    forall k | k in m' ensures k in m && k != gone {
      var j := ContentOnly(ops, items', k);
      var j' := if j < i then j else j + 1;
      ContentHas(ops, items, j');
      KeysApart(ops, items, j', i);
    }
    assert m' == m - {gone};
  }

  // An object is found exactly when its key is in the map.
  lemma FoundIffKey(ops: ObjectOps, items: seq<NlObject>, needle: NlObject)
    requires DuplicateFree(ops, items) && needle.ops == ops && Complete(ops, needle.data)
    ensures FirstIdentical(items, needle) != null <==> Key(ops, needle.data) in Content(ops, items)
    ensures var r := FirstIdentical(items, needle);
            r != null ==> Key(ops, r.data) == Key(ops, needle.data) && Content(ops, items)[Key(ops, r.data)] == r.data
  {
    forall o | o in items ensures IdenticalObjects(o, needle) <==> Key(ops, o.data) == Key(ops, needle.data) {
      IdenticalIffSameKey(ops, o.data, needle.data);
    }
    var r := FirstIdentical(items, needle);
    if r != null {
      var i :| 0 <= i < |items| && items[i] == r;
      ContentHas(ops, items, i);
    } else if Key(ops, needle.data) in Content(ops, items) {
      var i := ContentOnly(ops, items, Key(ops, needle.data));
    }
  }

  // A duplicate-free list is as long as its map.
  lemma {:induction false} ContentSize(ops: ObjectOps, items: seq<NlObject>)
    requires DuplicateFree(ops, items)
    ensures |Content(ops, items)| == |items|
  {
    if items != [] {
      var n := |items| - 1;
      ContentSize(ops, items[..n]);
      var k := Key(ops, items[n].data);
      if k in Content(ops, items[..n]) {
        var i := ContentOnly(ops, items[..n], k);
        KeysApart(ops, items, i, n);
      }
    }
  }

  // ---------- including one object ----------

  // The list without its first object identical to the needle.
  function RemoveFirst(items: seq<NlObject>, needle: NlObject): seq<NlObject>
  {
    var i := FirstIndex(items, needle);
    if i < |items| then Without(items, i) else items
  }

  lemma RemoveFirstKeeps(ops: ObjectOps, items: seq<NlObject>, needle: NlObject)
    requires DuplicateFree(ops, items) && Distinct(items)
    ensures DuplicateFree(ops, RemoveFirst(items, needle)) && Distinct(RemoveFirst(items, needle))
    ensures forall o :: o in RemoveFirst(items, needle) <==> o in items && o != FirstIdentical(items, needle)
    ensures needle.ops == ops ==> FirstIdentical(RemoveFirst(items, needle), needle) == null
  {
    FirstIndexFinds(items, needle);
    var i := FirstIndex(items, needle);
    if i < |items| {
      WithoutMembers(items, i);
      forall o | o in Without(items, i) ensures !IdenticalObjects(o, needle) {
        if IdenticalObjects(o, needle) {
          IdenticalUnique(ops, items, o, items[i], needle);
        }
      }
    }
  }

  // Taking the first identical object out removes its key from the map.
  lemma RemoveFirstContent(ops: ObjectOps, items: seq<NlObject>, needle: NlObject)
    requires DuplicateFree(ops, items) && Distinct(items) && needle.ops == ops && Complete(ops, needle.data)
    ensures Content(ops, RemoveFirst(items, needle)) == Content(ops, items) - {Key(ops, needle.data)}
  {
    FirstIndexFinds(items, needle);
    FoundIffKey(ops, items, needle);
    var i := FirstIndex(items, needle);
    if i < |items| {
      ContentRemove(ops, items, i);
    }
  }

  // An object of the list is the one found for itself.
  lemma ItselfRemoved(ops: ObjectOps, items: seq<NlObject>, obj: NlObject)
    requires DuplicateFree(ops, items) && Distinct(items)
    ensures obj !in RemoveFirst(items, obj)
  {
    RemoveFirstKeeps(ops, items, obj);
    if obj in items {
      SelfIdenticalIffComplete(ops, obj.data);
      IdenticalUnique(ops, items, obj, FirstIdentical(items, obj), obj);
    }
  }

  // A new event: one object with the key is left, and it is the new one.
  lemma IncludeNewContent(ops: ObjectOps, items: seq<NlObject>, obj: NlObject)
    requires DuplicateFree(ops, items) && Distinct(items) && obj.ops == ops && Complete(ops, obj.data)
    ensures var items' := RemoveFirst(items, obj) + [obj];
            && DuplicateFree(ops, items') && Distinct(items')
            && Content(ops, items') == Content(ops, items)[Key(ops, obj.data) := obj.data]
  {
    hide DuplicateFree; hide RemoveFirst; hide Key; hide Complete; hide FirstIdentical; hide Content;
    var rest := RemoveFirst(items, obj);
    RemoveFirstKeeps(ops, items, obj);
    assert obj !in rest by { ItselfRemoved(ops, items, obj); }
    RemoveFirstContent(ops, items, obj);
    ContentAdd(ops, rest, obj);
    AddKeepsDuplicateFree(ops, rest, obj);
  }

  lemma AddKeepsDuplicateFree(ops: ObjectOps, items: seq<NlObject>, o: NlObject)
    requires DuplicateFree(ops, items) && o.ops == ops && Complete(ops, o.data) && FirstIdentical(items, o) == null
    ensures DuplicateFree(ops, items + [o])
  {}
}
