// Identity, comparison, keys and reference counts of objects (lib/object.c,
// include/netlink-private/object-api.h).

module Objects {
  import opened Types

  // ---------- comparison (object-api.h:210-266) ----------

  // ATTR_MISMATCH: present in one only, or present in both and different
  predicate Mismatch(a: Data, b: Data, attr: Attr)
  {
    || (attr in a.attrs) != (attr in b.attrs)
    || (attr in a.attrs && attr in b.attrs && a.attrs[attr] != b.attrs[attr])
  }

  // oo_compare: the listed attributes that mismatch, among those it compares
  function Diff(ops: ObjectOps, a: Data, b: Data, list: set<Attr>): (d: set<Attr>)
    ensures forall attr :: attr in d <==>
              && attr in list && attr in ops.compares
              && ((attr in a.attrs) != (attr in b.attrs)
                  || (attr in a.attrs && attr in b.attrs && a.attrs[attr] != b.attrs[attr]))
    ensures d == {} <==> forall attr :: attr in list && attr in ops.compares ==> !Mismatch(a, b, attr)
  {
    var d := set attr | attr in list && attr in ops.compares && Mismatch(a, b, attr);
    assert forall attr :: attr in list && attr in ops.compares && Mismatch(a, b, attr) ==> attr in d;
    d
  }

  // oo_compare with LOOSE_COMPARISON, b being the filter: a difference of two
  // values may be passed over.
  function LooseDiff(ops: ObjectOps, a: Data, b: Data, list: set<Attr>): (d: set<Attr>)
    ensures d == {} <==> forall attr :: attr in Diff(ops, a, b, list) ==>
                           attr in a.attrs && attr in b.attrs && ops.forgives(attr, a, b)
  {
    var d := set attr | attr in Diff(ops, a, b, list) && !(attr in a.attrs && attr in b.attrs && ops.forgives(attr, a, b));
    assert forall attr :: attr in Diff(ops, a, b, list) ==>
                            (attr in d <==> !(attr in a.attrs && attr in b.attrs && ops.forgives(attr, a, b)));
    d
  }

  // ce_mask
  function Mask(d: Data): set<Attr>
  {
    d.attrs.Keys
  }

  // nl_object_identical (object.c:314-348)
  predicate Identical(ops: ObjectOps, a: Data, b: Data)
  {
    ops.idAttrs(a) == ops.idAttrs(b) &&
    var req := match ops.idAttrs(a) case Common => Mask(a) * Mask(b) case Listed(attrs) => attrs;
    req <= Mask(a) && req <= Mask(b) && ops.comparable && Diff(ops, a, b, req) == {}
  }

  predicate IdenticalObjects(a: NlObject, b: NlObject)
  {
    a.ops == b.ops && Identical(a.ops, a.data, b.data)
  }

  // nl_object_diff64 of two objects (object.c:362-370); All stands for UINT64_MAX
  datatype Difference = All | Bits(attrs: set<Attr>) {
    predicate NonZero() {
      All? || attrs != {}
    }
  }

  // The attributes that the type compares and that mismatch, present in one only
  // or with different values: payloads that differ elsewhere make no difference.
  function ObjectDiff(a: NlObject, b: NlObject): (d: Difference)
    ensures a.ops == b.ops && a.ops.comparable ==>
              && d.Bits? && (d.NonZero() <==> Differ(a.ops, a.data, b.data))
              && (forall attr :: attr in d.attrs <==> attr in a.ops.compares && Mismatch(a.data, b.data, attr))
    ensures a.ops != b.ops || !a.ops.comparable ==> d.NonZero()
  {
    if a.ops != b.ops || !a.ops.comparable then All else Bits(Diff(a.ops, a.data, b.data, a.ops.compares))
  }

  // Some compared attribute is present in one only or has different values.
  predicate Differ(ops: ObjectOps, a: Data, b: Data)
  {
    exists attr :: attr in ops.compares && Mismatch(a, b, attr)
  }

  // nl_object_match_filter (object.c:406-415): compare what the filter carries
  predicate MatchesFilter(obj: NlObject, filter: NlObject)
  {
    && obj.ops == filter.ops && obj.ops.comparable
    && LooseDiff(obj.ops, obj.data, filter.data, Mask(filter.data)) == {}
  }

  // ---------- what identifies an object ----------

  // The object carries every attribute its type is identified by.
  predicate Carries(ops: ObjectOps, d: Data)
  {
    ops.comparable && (ops.idAttrs(d).Listed? ==> ops.idAttrs(d).attrs <= Mask(d))
  }

  // A type compares the attributes it is identified by.
  predicate IdsCompared(ops: ObjectOps, d: Data)
  {
    ops.idAttrs(d).Listed? ==> ops.idAttrs(d).attrs <= ops.compares
  }

  // The object carries all of a list of id attributes, and its type compares them.
  predicate Complete(ops: ObjectOps, d: Data)
  {
    Carries(ops, d) && IdsCompared(ops, d) && ops.idAttrs(d).Listed?
  }

  // The identifying attributes and their values.
  function Key(ops: ObjectOps, d: Data): Data
  {
    match ops.idAttrs(d)
    case Common => d
    case Listed(attrs) => Data(map attr | attr in d.attrs && attr in attrs :: d.attrs[attr])
  }

  // For listed id attributes, objects are identical exactly when both are
  // complete and carry the same key; without a list, when no compared attribute
  // that both carry differs.
  lemma IdenticalIffSameKey(ops: ObjectOps, a: Data, b: Data)
    requires IdsCompared(ops, a) && IdsCompared(ops, b)
    ensures Identical(ops, a, b) <==>
      match (ops.idAttrs(a), ops.idAttrs(b))
      case (Listed(_), Listed(_)) => Complete(ops, a) && Complete(ops, b) && Key(ops, a) == Key(ops, b)
      case (Common, Common) => ops.comparable && forall attr :: attr in a.attrs && attr in b.attrs && attr in ops.compares ==>
                                 a.attrs[attr] == b.attrs[attr]
      case _ => false
  {
    if ops.idAttrs(a).Listed? && ops.idAttrs(b).Listed? {
      var ka, kb := Key(ops, a).attrs, Key(ops, b).attrs;
      if Identical(ops, a, b) {
        assert forall attr :: attr in ops.idAttrs(a).attrs ==> !Mismatch(a, b, attr);
        assert ka == kb;
      }
      if Complete(ops, a) && Complete(ops, b) && Key(ops, a) == Key(ops, b) {
        assert ka.Keys == ops.idAttrs(a).attrs && kb.Keys == ops.idAttrs(b).attrs;
        assert forall attr :: attr in ops.idAttrs(a).attrs ==> ka[attr] == kb[attr];
      }
    } else if ops.idAttrs(a).Common? && ops.idAttrs(b).Common? {
      assert forall attr :: attr in Mask(a) * Mask(b) <==> attr in a.attrs && attr in b.attrs;
    }
  }

  // The same by values: both carry every listed attribute, with one value.
  lemma IdenticalMeans(ops: ObjectOps, a: Data, b: Data)
    requires IdsCompared(ops, a) && IdsCompared(ops, b) && ops.idAttrs(a).Listed?
    ensures Identical(ops, a, b) <==>
      && ops.comparable && ops.idAttrs(b) == ops.idAttrs(a)
      && forall attr :: attr in ops.idAttrs(a).attrs ==>
           attr in a.attrs && attr in b.attrs && a.attrs[attr] == b.attrs[attr]
  {
    IdenticalIffSameKey(ops, a, b);
    if Identical(ops, a, b) {
      assert forall attr :: attr in ops.idAttrs(a).attrs ==> !Mismatch(a, b, attr);
    }
  }

  // An object that lacks an id attribute is not even identical to itself.
  lemma SelfIdenticalIffComplete(ops: ObjectOps, a: Data)
    ensures Identical(ops, a, a) <==> Carries(ops, a)
  {}

  // nl_object_keygen (object.c:463-474)
  function Keygen(ops: ObjectOps, d: Data, size: nat): nat
  {
    if ops.hashes then ops.keygen(d, size) else 0
  }

  // What a key generator must do for a hash index to be sound.
  ghost predicate KeygenSound(ops: ObjectOps, size: nat)
  {
    && (forall d: Data :: Keygen(ops, d, size) < size)
    && (forall a: Data, b: Data :: Identical(ops, a, b) ==> Keygen(ops, a, size) == Keygen(ops, b, size))
  }

  // ---------- reference counts ----------

  // An object outside every cache: all its references are held outside.
  ghost predicate Loose(o: NlObject)
    reads o, o.list
  {
    && o.cache == null && o.list.owner == o
    && o.refcnt == o.holders
    && (o.freed <==> o.refcnt == 0)
  }

  // nl_object_get (object.c:205-210)
  method ObjectGet(o: NlObject)
    requires !o.freed
    modifies o`refcnt
    ensures o.refcnt == old(o.refcnt) + 1
  {
    o.refcnt := o.refcnt + 1;
  }

  // nl_object_put (object.c:216-230).  The count cannot fall below zero, and
  // the object is freed at zero, by when it must be out of its cache.
  method ObjectPut(o: NlObject)
    requires !o.freed && o.refcnt >= 1
    requires o.refcnt == 1 ==> o.cache == null
    modifies o`refcnt, o`freed
    ensures o.refcnt == old(o.refcnt) - 1
    ensures o.freed <==> o.refcnt == 0
  {
    o.refcnt := o.refcnt - 1;
    if o.refcnt <= 0 {
      o.freed := true;
    }
  }

  // nl_object_clone (object.c:111-146): same payload, its own single reference.
  method ObjectClone(o: NlObject) returns (new': NlObject)
    ensures fresh(new') && fresh(new'.list)
    ensures new'.ops == o.ops && new'.data == o.data && new'.msgtype == o.msgtype
    ensures Loose(new') && new'.refcnt == 1 && new'.list.next == new'.list && !new'.marked
  {
    new' := new NlObject(o.ops, o.data, o.msgtype);
  }
}
