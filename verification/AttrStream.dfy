// Attribute streams as values: walking any bytes, and the bytes of a tree of
// attributes (lib/attr.c:56-178, 903-1006).

module AttrStream {
  import opened Bytes

  const HDRLEN := 4            // NLA_HDRLEN
  const NESTED := 0x8000       // NLA_F_NESTED
  const TYPES := 0x4000        // NLA_TYPE_MASK keeps what is below this
  const USHRT_MAX := 0xFFFF

  // ---------- walking ----------

  // An attribute in a stream: where it starts, its nla_len and its nla_type
  datatype Attr = Attr(off: nat, len: nat, raw: nat)

  // nla_type()
  function TypeOf(raw: nat): (t: nat)
    ensures t < TYPES
  {
    raw % TYPES
  }

  // nla_ok, for the attribute at pos of a stream
  predicate AttrOk(s: seq<Byte>, pos: nat, remaining: int)
    requires remaining == |s| - pos
  {
    remaining >= HDRLEN && U16At(s, pos) >= HDRLEN && U16At(s, pos) <= remaining
  }

  function AttrAt(s: seq<Byte>, pos: nat): Attr
    requires pos + HDRLEN <= |s|
  {
    Attr(pos, U16At(s, pos), U16At(s, pos + 2))
  }

  // The attributes nla_for_each_attr visits from pos on
  function Attrs(s: seq<Byte>, pos: nat): seq<Attr>
    decreases |s| - pos
  {
    if AttrOk(s, pos, |s| - pos) then [AttrAt(s, pos)] + Attrs(s, pos + Align(U16At(s, pos))) else []
  }

  // Whatever the bytes are, every attribute visited lies inside the stream and
  // behind the one before it.
  lemma {:induction false} AttrsInside(s: seq<Byte>, pos: nat)
    ensures forall a :: a in Attrs(s, pos) ==>
      pos <= a.off && HDRLEN <= a.len && a.off + a.len <= |s| && a.off % 4 == pos % 4
    ensures InOrder(Attrs(s, pos))
    decreases |s| - pos
  {
    hide InOrder; hide U16At; hide Align;
    if AttrOk(s, pos, |s| - pos) {
      AlignBy(pos, U16At(s, pos));
      var next := pos + Align(U16At(s, pos));
      AttrsInside(s, next);
      OneBefore(AttrAt(s, pos), Attrs(s, next));
    } else {
      assert InOrder([]) by { Nothing(); }
    }
  }

  // No attribute overlaps a later one.
  ghost predicate InOrder(attrs: seq<Attr>)
  {
    forall i, j :: 0 <= i < j < |attrs| ==> attrs[i].off + attrs[i].len <= attrs[j].off
  }

  lemma Nothing()
    ensures InOrder([])
  {}

  lemma OneBefore(a: Attr, rest: seq<Attr>)
    requires InOrder(rest) && forall b :: b in rest ==> a.off + a.len <= b.off
    ensures InOrder([a] + rest)
  {
    forall j | 1 <= j < |[a] + rest| ensures ([a] + rest)[j] in rest {}
  }

  lemma AlignBy(pos: nat, n: nat)
    ensures n <= Align(n) && (pos + Align(n)) % 4 == pos % 4
    ensures n > 0 ==> Align(n) > 0
  {}

  // ---------- trees ----------

  datatype Tree = Leaf(typ: nat, data: seq<Byte>) | Nest(typ: nat, kids: seq<Tree>)

  // The bytes an attribute takes: header, payload, padding
  function AttrBytes(raw: nat, payload: seq<Byte>): (r: seq<Byte>)
    requires raw < 0x1_0000 && HDRLEN + |payload| <= USHRT_MAX
    ensures |r| == HDRLEN + Align(|payload|)
  {
    U16Bytes(HDRLEN + |payload|) + U16Bytes(raw) + payload + Zeros(Align(|payload|) - |payload|)
  }

  // Byte by byte: the length with the header and then the type, both the low byte
  // first, the payload, and zeros up to a multiple of four
  lemma AttrLayout(raw: nat, payload: seq<Byte>)
    requires raw < 0x1_0000 && HDRLEN + |payload| <= USHRT_MAX
    ensures var r, n := AttrBytes(raw, payload), |payload|;
            && |r| % 4 == 0 && 4 + n <= |r| < 8 + n
            && r[0] as int + 0x100 * (r[1] as int) == 4 + n && r[2] as int + 0x100 * (r[3] as int) == raw
            && (forall i :: 0 <= i < n ==> r[4 + i] == payload[i]) && (forall i :: 4 + n <= i < |r| ==> r[i] == 0)
  {
    var l, t := U16Bytes(HDRLEN + |payload|), U16Bytes(raw);
    var r := AttrBytes(raw, payload);
    assert r[0] == l[0] && r[1] == l[1] && r[2] == t[0] && r[3] == t[1];
  }

  function Size(t: Tree): (n: nat)
    ensures n % 4 == 0
    decreases t
  {
    match t
    case Leaf(_, data) => HDRLEN + Align(|data|)
    case Nest(_, kids) => HDRLEN + SizeAll(kids)
  }

  function SizeAll(ts: seq<Tree>): (n: nat)
    ensures n % 4 == 0
    decreases ts
  {
    if ts == [] then 0 else Size(ts[0]) + SizeAll(ts[1..])
  }

  // Types fit below the flags, and every attribute's length fits its header.
  predicate Proper(t: Tree)
    decreases t
  {
    match t
    case Leaf(typ, data) => typ < TYPES && HDRLEN + |data| <= USHRT_MAX
    case Nest(typ, kids) => typ < TYPES && HDRLEN + SizeAll(kids) <= USHRT_MAX && AllProper(kids)
  }

  predicate AllProper(ts: seq<Tree>)
    decreases ts
  {
    ts == [] || (Proper(ts[0]) && AllProper(ts[1..]))
  }

  function Encode(t: Tree): (r: seq<Byte>)
    requires Proper(t)
    ensures |r| == Size(t)
    decreases t
  {
    match t
    case Leaf(typ, data) => AttrBytes(typ, data)
    case Nest(typ, kids) => AttrBytes(NESTED + typ, EncodeAll(kids))
  }

  function EncodeAll(ts: seq<Tree>): (r: seq<Byte>)
    requires AllProper(ts)
    ensures |r| == SizeAll(ts)
    decreases ts
  {
    if ts == [] then [] else Encode(ts[0]) + EncodeAll(ts[1..])
  }

  // Reading a stream back: the flag in the type tells a nest.
  function Read(s: seq<Byte>): seq<Tree>
    decreases |s|
  {
    if AttrOk(s, 0, |s|) then
      var len, raw := U16At(s, 0), U16At(s, 2);
      var payload := s[HDRLEN..len];
      var t := if raw >= NESTED then Nest(TypeOf(raw), Read(payload)) else Leaf(TypeOf(raw), payload);
      [t] + if Align(len) <= |s| then Read(s[Align(len)..]) else []
    else []
  }

  // The parts of an attribute's bytes followed by others
  lemma AttrParts(raw: nat, payload: seq<Byte>, rest: seq<Byte>)
    requires raw < 0x1_0000 && HDRLEN + |payload| <= USHRT_MAX
    ensures var s := AttrBytes(raw, payload) + rest;
            && AttrOk(s, 0, |s|) && U16At(s, 0) == HDRLEN + |payload| && U16At(s, 2) == raw
            && s[HDRLEN..HDRLEN + |payload|] == payload
            && Align(HDRLEN + |payload|) == |AttrBytes(raw, payload)| && s[Align(HDRLEN + |payload|)..] == rest
  {
    var s := AttrBytes(raw, payload) + rest;
    var l, r := U16Bytes(HDRLEN + |payload|), U16Bytes(raw);
    assert s[0] == l[0] && s[1] == l[1] && s[2] == r[0] && s[3] == r[1];
  }

  // One attribute is read, and then what follows it.
  lemma ReadFirst(raw: nat, payload: seq<Byte>, rest: seq<Byte>)
    requires raw < 0x1_0000 && HDRLEN + |payload| <= USHRT_MAX
    ensures Read(AttrBytes(raw, payload) + rest)
            == [if raw >= NESTED then Nest(TypeOf(raw), Read(payload)) else Leaf(TypeOf(raw), payload)] + Read(rest)
  {
    hide AttrBytes; hide U16At; hide Align;
    AttrParts(raw, payload, rest);
  }

  // Reading what a tree was written as gives the tree.
  lemma {:induction false} ReadEncode(ts: seq<Tree>)
    requires AllProper(ts)
    ensures Read(EncodeAll(ts)) == ts
    decreases ts
  {
    hide AttrBytes; hide Read; hide SizeAll;
    if ts == [] {
      ReadNothing();
    } else {
      var t, rest := ts[0], EncodeAll(ts[1..]);
      ReadEncode(ts[1..]);
      match t {
        case Leaf(typ, data) =>
          ReadFirst(typ, data, rest);
        case Nest(typ, kids) =>
          ReadEncode(kids);
          ReadFirst(NESTED + typ, EncodeAll(kids), rest);
      }
      assert ts == [t] + ts[1..];
    }
  }

  lemma ReadNothing()
    ensures Read([]) == []
  {}

  // ---------- empty nests ----------

  // nla_nest_end drops a nest that stayed empty, which may leave the one
  // around it empty in turn.
  function Prune(t: Tree): (r: seq<Tree>)
    ensures |r| <= 1
    decreases t
  {
    match t
    case Leaf(_, _) => [t]
    case Nest(typ, kids) => if PruneAll(kids) == [] then [] else [Nest(typ, PruneAll(kids))]
  }

  function PruneAll(ts: seq<Tree>): seq<Tree>
    decreases ts
  {
    if ts == [] then [] else Prune(ts[0]) + PruneAll(ts[1..])
  }

  lemma {:induction false} SizeAllAppend(s: seq<Tree>, t: seq<Tree>)
    ensures SizeAll(s + t) == SizeAll(s) + SizeAll(t)
  {
    if s == [] {
      assert s + t == t;
    } else {
      assert (s + t)[1..] == s[1..] + t;
      SizeAllAppend(s[1..], t);
    }
  }

  lemma {:induction false} AllProperAppend(s: seq<Tree>, t: seq<Tree>)
    requires AllProper(s) && AllProper(t)
    ensures AllProper(s + t) && EncodeAll(s + t) == EncodeAll(s) + EncodeAll(t)
  {
    hide Encode; hide Proper;
    if s == [] {
      assert s + t == t;
    } else {
      assert (s + t)[1..] == s[1..] + t;
      AllProperAppend(s[1..], t);
    }
  }

  // Pruning keeps a tree proper, and never makes it longer.
  lemma {:induction false} PruneProper(t: Tree)
    requires Proper(t)
    ensures AllProper(Prune(t)) && SizeAll(Prune(t)) <= Size(t)
    decreases t
  {
    match t {
      case Leaf(_, _) =>
      case Nest(typ, kids) =>
        PruneAllProper(kids);
        if PruneAll(kids) != [] {
          var n := Nest(typ, PruneAll(kids));
          assert [n][1..] == [] && SizeAll([n]) == Size(n);
        }
    }
  }

  lemma {:induction false} PruneAllProper(ts: seq<Tree>)
    requires AllProper(ts)
    ensures AllProper(PruneAll(ts)) && SizeAll(PruneAll(ts)) <= SizeAll(ts)
    decreases ts
  {
    if ts != [] {
      PruneProper(ts[0]);
      PruneAllProper(ts[1..]);
      SizeAllAppend(Prune(ts[0]), PruneAll(ts[1..]));
      AllProperAppend(Prune(ts[0]), PruneAll(ts[1..]));
    }
  }

  predicate NoEmptyNest(t: Tree)
    decreases t
  {
    t.Leaf? || (t.kids != [] && NoEmptyNests(t.kids))
  }

  predicate NoEmptyNests(ts: seq<Tree>)
    decreases ts
  {
    ts == [] || (NoEmptyNest(ts[0]) && NoEmptyNests(ts[1..]))
  }

  lemma {:induction false} PruneMeans(t: Tree)
    ensures Prune(t) != [] ==> NoEmptyNest(Prune(t)[0])
    ensures NoEmptyNest(t) ==> Prune(t) == [t]
    decreases t
  {
    if t.Nest? {
      PruneAllMeans(t.kids);
    }
  }

  // What is left has no empty nest, and a tree without empty nests stays.
  lemma {:induction false} PruneAllMeans(ts: seq<Tree>)
    ensures NoEmptyNests(PruneAll(ts))
    ensures NoEmptyNests(ts) ==> PruneAll(ts) == ts
    decreases ts
  {
    if ts != [] {
      PruneAllMeans(ts[1..]);
      PruneMeans(ts[0]);
      if Prune(ts[0]) != [] {
        assert PruneAll(ts)[0] == Prune(ts[0])[0] && PruneAll(ts)[1..] == PruneAll(ts[1..]);
      } else {
        assert PruneAll(ts) == PruneAll(ts[1..]);
      }
      assert ts == [ts[0]] + ts[1..];
    }
  }
}
