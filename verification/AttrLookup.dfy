// What a parse finds in the bytes of a tree of attributes.

module AttrLookup {
  import opened Bytes
  import opened AttrStream
  import opened AttrParse
  import opened Options

  // The payload tb[t] points to after a parse
  function Payload(s: seq<Byte>, t: nat): Opt<seq<Byte>>
  {
    var r := LastOf(Attrs(s, 0), t);
    if r == -1 then None
    else
      LastInside(s, t);
      Some(s[r + HDRLEN..r + U16At(s, r)])
  }

  lemma {:induction false} LastIsOne(attrs: seq<Attr>, t: nat)
    requires LastOf(attrs, t) != -1
    ensures exists a :: a in attrs && a.off == LastOf(attrs, t)
  {
    if attrs != [] {
      var last := attrs[|attrs| - 1];
      assert attrs == attrs[..|attrs| - 1] + [last];
      if TypeOf(last.raw) != t {
        LastIsOne(attrs[..|attrs| - 1], t);
      } else {
        assert last in attrs;
      }
    }
  }

  lemma LastInside(s: seq<Byte>, t: nat)
    requires LastOf(Attrs(s, 0), t) != -1
    ensures var r := LastOf(Attrs(s, 0), t);
            r >= 0 && r + HDRLEN <= |s| && HDRLEN <= U16At(s, r) <= |s| - r
  {
    AttrsInside(s, 0);
    LastIsOne(Attrs(s, 0), t);
    AttrsAt(s, 0);
  }

  lemma {:induction false} AttrsAt(s: seq<Byte>, pos: nat)
    ensures forall a :: a in Attrs(s, pos) ==>
      a.off + HDRLEN <= |s| && a.len == U16At(s, a.off) && a.raw == U16At(s, a.off + 2)
    decreases |s| - pos
  {
    hide U16At;
    if AttrOk(s, pos, |s| - pos) {
      AlignBy(pos, U16At(s, pos));
      AttrsAt(s, pos + Align(U16At(s, pos)));
    }
  }

  // ---------- trees ----------

  // The payload of a tree's attribute
  function ContentOf(t: Tree): seq<Byte>
    requires Proper(t)
  {
    match t case Leaf(_, data) => data case Nest(_, kids) => EncodeAll(kids)
  }

  // The last tree of a type
  function LastTree(ts: seq<Tree>, t: nat): (r: Opt<Tree>)
    ensures r.Some? ==> r.value in ts && r.value.typ == t
  {
    if ts == [] then None
    else
      var r := LastTree(ts[1..], t);
      if r.Some? then r else if ts[0].typ == t then Some(ts[0]) else None
  }

  lemma {:induction false} MembersProper(ts: seq<Tree>)
    requires AllProper(ts)
    ensures forall x :: x in ts ==> Proper(x)
  {
    if ts != [] {
      MembersProper(ts[1..]);
      assert ts == [ts[0]] + ts[1..];
    }
  }

  // Attribute a is tree x, at its place in s.
  predicate Shows(s: seq<Byte>, a: Attr, x: Tree)
    requires Proper(x)
  {
    && TypeOf(a.raw) == x.typ && a.len == HDRLEN + |ContentOf(x)|
    && a.off + a.len <= |s| && s[a.off + HDRLEN..a.off + a.len] == ContentOf(x)
  }

  // Walking the bytes of some trees visits these trees.
  lemma {:induction false} AttrsEncode(s: seq<Byte>, pos: nat, ts: seq<Tree>)
    requires pos <= |s| && AllProper(ts) && s[pos..] == EncodeAll(ts)
    ensures |Attrs(s, pos)| == |ts| && (forall i :: 0 <= i < |ts| ==> Proper(ts[i]))
    ensures forall i :: 0 <= i < |ts| ==> Shows(s, Attrs(s, pos)[i], ts[i])
    decreases ts
  {
    hide AttrBytes; hide U16At; hide Align; hide Proper; hide Shows; hide ContentOf;
    if ts == [] {
      assert |s| - pos == 0;
    } else {
      FirstShown(s, pos, ts);
      var next := pos + Align(U16At(s, pos));
      AttrsEncode(s, next, ts[1..]);
      forall i | 0 <= i < |ts| ensures Proper(ts[i]) && Shows(s, Attrs(s, pos)[i], ts[i]) {
        if i > 0 { assert ts[i] == ts[1..][i - 1] && Attrs(s, pos)[i] == Attrs(s, next)[i - 1]; }
      }
    }
  }

  function RawOf(t: Tree): nat
  {
    match t case Leaf(typ, _) => typ case Nest(typ, _) => NESTED + typ
  }

  lemma FirstShown(s: seq<Byte>, pos: nat, ts: seq<Tree>)
    requires pos <= |s| && AllProper(ts) && ts != [] && s[pos..] == EncodeAll(ts)
    ensures AttrOk(s, pos, |s| - pos) && Proper(ts[0]) && Shows(s, AttrAt(s, pos), ts[0])
    ensures AllProper(ts[1..]) && pos + Align(U16At(s, pos)) <= |s|
    ensures s[pos + Align(U16At(s, pos))..] == EncodeAll(ts[1..])
  {
    hide AttrBytes; hide Align;
    var x, rest := ts[0], EncodeAll(ts[1..]);
    var c, n := ContentOf(x), HDRLEN + |ContentOf(x)|;
    assert s[pos..] == AttrBytes(RawOf(x), c) + rest;
    AttrParts(RawOf(x), c, rest);
    Shifted(s, pos);
    assert s[pos + HDRLEN..pos + n] == s[pos..][HDRLEN..n];
    assert s[pos + Align(n)..] == s[pos..][Align(n)..];
    NestedType(x);
  }

  lemma NestedType(x: Tree)
    requires Proper(x)
    ensures TypeOf(RawOf(x)) == x.typ
  {}

  lemma Shifted(s: seq<Byte>, pos: nat)
    requires pos + HDRLEN <= |s|
    ensures U16At(s, pos) == U16At(s[pos..], 0) && U16At(s, pos + 2) == U16At(s[pos..], 2)
  {}

  // What a parse finds in the bytes of some trees is the last tree of a type.
  lemma PayloadEncoded(ts: seq<Tree>, t: nat)
    requires AllProper(ts)
    ensures forall x :: x in ts ==> Proper(x)
    ensures Payload(EncodeAll(ts), t)
            == match LastTree(ts, t) case None => None case Some(x) => Some(ContentOf(x))
  {
    hide U16At; hide Attrs; hide LastOf; hide EncodeAll; hide Proper; hide TypeOf; hide ContentOf;
    var s := EncodeAll(ts);
    var attrs := Attrs(s, 0);
    MembersProper(ts);
    assert s[0..] == s;
    AttrsEncode(s, 0, ts);
    AttrsAt(s, 0);
    match LastTree(ts, t) {
      case None =>
        forall a | a in attrs ensures TypeOf(a.raw) != t {
          var i :| 0 <= i < |attrs| && attrs[i] == a;
          assert Shows(s, attrs[i], ts[i]);
          NotLast(ts, t, i);
        }
        LastOfNone(attrs, t);
      case Some(x) =>
        var i := LastAt(ts, t);
        forall j | i < j < |attrs| ensures TypeOf(attrs[j].raw) != t { assert Shows(s, attrs[j], ts[j]); }
        assert Shows(s, attrs[i], ts[i]);
        LastOfIs(attrs, t, i);
        assert attrs[i] in attrs;
    }
  }

  lemma LastOfNone(attrs: seq<Attr>, t: nat)
    requires forall a :: a in attrs ==> TypeOf(a.raw) != t
    ensures LastOf(attrs, t) == -1
  {}

  lemma {:induction false} NotLast(ts: seq<Tree>, t: nat, i: nat)
    requires i < |ts| && LastTree(ts, t) == None
    ensures ts[i].typ != t
  {
    if i > 0 { NotLast(ts[1..], t, i - 1); }
  }

  lemma {:induction false} LastAt(ts: seq<Tree>, t: nat) returns (i: nat)
    requires LastTree(ts, t).Some?
    ensures i < |ts| && LastTree(ts, t) == Some(ts[i]) && ts[i].typ == t
    ensures forall j :: i < j < |ts| ==> ts[j].typ != t
  {
    if LastTree(ts[1..], t).Some? {
      var k := LastAt(ts[1..], t);
      i := k + 1;
      forall j | i < j < |ts| ensures ts[j].typ != t { assert ts[j] == ts[1..][j - 1]; }
    } else {
      i := 0;
      forall j | 0 < j < |ts| ensures ts[j].typ != t { NotLast(ts[1..], t, j - 1); }
    }
  }

  // ---------- policies ----------

  // The attribute of a tree meets a policy that asks for a least length only.
  predicate Meets(x: Tree, maxtype: nat, policy: seq<Policy>)
    requires Proper(x) && PolicyOk(policy, maxtype)
  {
    x.typ > maxtype ||
    var p := policy[x.typ];
    && p.maxlen == 0 && p.typ != NLA_STRING
    && |ContentOf(x)| >= if p.minlen != 0 then p.minlen else if p.typ != NLA_UNSPEC then MinLen(p.typ) else 0
  }

  lemma FaultsEncoded(ts: seq<Tree>, maxtype: nat, policy: seq<Policy>)
    requires AllProper(ts) && PolicyOk(policy, maxtype)
    requires forall x :: x in ts ==> Proper(x) && Meets(x, maxtype, policy)
    ensures var s := EncodeAll(ts);
            InStream(s, Attrs(s, 0)) && FirstFault(s, Attrs(s, 0), maxtype, policy) == 0
  {
    hide U16At; hide Attrs; hide EncodeAll; hide FirstFault; hide Proper; hide MinLen; hide ContentOf; hide TypeOf;
    var s := EncodeAll(ts);
    var attrs := Attrs(s, 0);
    assert s[0..] == s;
    AttrsEncode(s, 0, ts);
    AttrsInside(s, 0);
    forall j | 0 <= j < |attrs| ensures Fault(s, attrs[j], maxtype, policy) == 0 {
      assert Shows(s, attrs[j], ts[j]) && ts[j] in ts && attrs[j] in attrs;
    }
    FirstFaultIs(s, attrs, maxtype, policy, |attrs|);
  }
}
