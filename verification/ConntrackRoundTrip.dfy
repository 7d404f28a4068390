// An entry that is built into a message and parsed again
// (lib/netfilter/ct.c:102-221, 318-391, 425-548).

module ConntrackRoundTrip {
  import opened Bytes
  import opened AttrStream
  import opened AttrParse
  import opened AttrLookup
  import opened Options
  import opened Message
  import opened Conntrack
  import opened ConntrackParse
  import WordBits

  // ---------- lookups ----------

  ghost predicate DistinctTypes(items: seq<Item>)
  {
    forall i, j :: 0 <= i < j < |items| ==> items[i].tree.typ != items[j].tree.typ
  }

  lemma {:induction false} NotPresent(items: seq<Item>, t: nat)
    requires forall i :: 0 <= i < |items| && items[i].present ==> items[i].tree.typ != t
    ensures LastTree(Present(items), t) == None
  {
    if items != [] {
      NotPresent(items[1..], t);
      var rest := Present(items[1..]);
      assert ([items[0].tree] + rest)[1..] == rest && [] + rest == rest;
    }
  }

  // Each attribute is found exactly when it was put.
  lemma {:induction false} PresentLookup(items: seq<Item>, i: nat)
    requires DistinctTypes(items) && i < |items|
    ensures LastTree(Present(items), items[i].tree.typ) == if items[i].present then Some(items[i].tree) else None
  {
    var rest := Present(items[1..]);
    assert ([items[0].tree] + rest)[1..] == rest && [] + rest == rest;
    if i == 0 {
      NotPresent(items[1..], items[0].tree.typ);
    } else {
      PresentLookup(items[1..], i - 1);
    }
  }

  ghost predicate Distinct(ts: seq<Tree>)
  {
    forall i, j :: 0 <= i < j < |ts| ==> ts[i].typ != ts[j].typ
  }

  lemma {:induction false} NoneOf(ts: seq<Tree>, t: nat)
    requires forall x :: x in ts ==> x.typ != t
    ensures LastTree(ts, t) == None && LastTree(PruneAll(ts), t) == None
  {
    if ts != [] {
      assert ts == [ts[0]] + ts[1..];
      NoneOf(ts[1..], t);
      PruneFirst(ts, t);
    }
  }

  lemma PruneFirst(ts: seq<Tree>, t: nat)
    requires ts != []
    ensures LastTree(PruneAll(ts), t)
            == if LastTree(PruneAll(ts[1..]), t).Some? then LastTree(PruneAll(ts[1..]), t)
               else if Prune(ts[0]) != [] && ts[0].typ == t then Some(Prune(ts[0])[0]) else None
    ensures Prune(ts[0]) != [] ==> Prune(ts[0])[0].typ == ts[0].typ
  {
    var rest := PruneAll(ts[1..]);
    if Prune(ts[0]) == [] {
      assert PruneAll(ts) == rest;
    } else {
      assert PruneAll(ts)[1..] == rest;
    }
  }

  // Pruning drops what is empty and finds the rest where it was.
  lemma {:induction false} PruneLookup(ts: seq<Tree>, t: nat)
    requires Distinct(ts)
    ensures LastTree(PruneAll(ts), t)
            == match LastTree(ts, t)
               case None => None
               case Some(x) => if Prune(x) == [] then None else Some(Prune(x)[0])
  {
    if ts != [] {
      PruneLookup(ts[1..], t);
      PruneFirst(ts, t);
      if ts[0].typ == t {
        forall x | x in ts[1..] ensures x.typ != t {
          var k :| 0 <= k < |ts[1..]| && ts[1..][k] == x;
          assert ts[k + 1] == x;
        }
        NoneOf(ts[1..], t);
      }
    }
  }

  lemma {:induction false} PresentFrom(items: seq<Item>, x: Tree) returns (i: nat)
    requires x in Present(items)
    ensures i < |items| && items[i].tree == x && items[i].present
  {
    var rest := Present(items[1..]);
    if items[0].present && items[0].tree == x {
      i := 0;
    } else {
      assert x in rest by {
        assert [] + rest == rest;
      }
      var k := PresentFrom(items[1..], x);
      i := k + 1;
    }
  }

  // ---------- entries that survive ----------

  // An address of the entry's family, in full length
  predicate FullAddress(ct: Ct, a: Address)
  {
    && a.family == ct.family && |a.bytes| == (if ct.family == AF_INET then 4 else 16)
    && a.prefixlen == 8 * |a.bytes|
  }

  predicate FullDir(ct: Ct, r: bool)
    requires WellTyped(ct)
  {
    && (ct.Has(r, SRC) ==> FullAddress(ct, ct.Dir(r).src.value))
    && (ct.Has(r, DST) ==> FullAddress(ct, ct.Dir(r).dst.value))
  }

  // An IPv4 or IPv6 entry
  predicate IpEntry(ct: Ct)
  {
    && WellTyped(ct) && FAMILY in ct.mask && (ct.family == AF_INET || ct.family == AF_INET6)
    && FullDir(ct, false) && FullDir(ct, true)
  }

  // ---------- what is read back ----------

  function IpCopied(c: Ct, ct: Ct, r: bool): Ct
  {
    var c1 := if ct.Has(r, SRC) then c.SetDir(r, c.Dir(r).(src := ct.Dir(r).src)).With(r, SRC) else c;
    if ct.Has(r, DST) then c1.SetDir(r, c1.Dir(r).(dst := ct.Dir(r).dst)).With(r, DST) else c1
  }

  function ProtoCopied(c: Ct, ct: Ct, r: bool): Ct
  {
    var d := ct.Dir(r);
    var c1 := if !r && PROTO in ct.mask then SetProto(c, ct.proto) else c;
    var c2 := if ct.Has(r, SRC_PORT) then SetSrcPort(c1, r, d.lo) else c1;
    var c3 := if ct.Has(r, DST_PORT) then SetDstPort(c2, r, d.hi) else c2;
    var c4 := if ct.Has(r, ICMP_ID) then SetIcmpId(c3, r, d.lo) else c3;
    var c5 := if ct.Has(r, ICMP_TYPE) then SetIcmpType(c4, r, IcmpType(d)) else c4;
    if ct.Has(r, ICMP_CODE) then SetIcmpCode(c5, r, IcmpCode(d)) else c5
  }

  // What a parse finds among some optional attributes
  lemma ItemPayload(items: seq<Item>, i: nat)
    requires DistinctTypes(items) && i < |items| && AllProper(Present(items))
    ensures items[i].present ==> Proper(items[i].tree)
    ensures Payload(EncodeAll(Present(items)), items[i].tree.typ)
            == if items[i].present then Some(ContentOf(items[i].tree)) else None
  {
    hide Payload; hide LastTree; hide Present; hide EncodeAll; hide AllProper; hide ContentOf; hide Proper;
    PresentLookup(items, i);
    MembersProper(Present(items));
    PayloadEncoded(Present(items), items[i].tree.typ);
  }

  lemma NoItemPayload(items: seq<Item>, t: nat)
    requires AllProper(Present(items)) && forall i :: 0 <= i < |items| ==> items[i].tree.typ != t
    ensures Payload(EncodeAll(Present(items)), t) == None
  {
    hide Payload; hide LastTree; hide Present; hide EncodeAll; hide AllProper; hide ContentOf; hide Proper;
    NotPresent(items, t);
    PayloadEncoded(Present(items), t);
  }

  // Attributes that all meet a policy
  lemma ItemsAccepted(items: seq<Item>, maxtype: nat, policy: seq<Policy>)
    requires AllProper(Present(items)) && PolicyOk(policy, maxtype) && DistinctTypes(items)
    requires forall i :: 0 <= i < |items| && items[i].present ==> Proper(items[i].tree) ==> Meets(items[i].tree, maxtype, policy)
    ensures FaultOf(EncodeAll(Present(items)), maxtype, policy) == 0
  {
    hide Present; hide EncodeAll; hide AllProper; hide Proper; hide Meets; hide FirstFault; hide PolicyOk;
    MembersProper(Present(items));
    forall x | x in Present(items) ensures Meets(x, maxtype, policy) {
      var i := PresentFrom(items, x);
    }
    FaultsEncoded(Present(items), maxtype, policy);
  }

  // The addresses of a tuple
  lemma IpBack(c: Ct, ct: Ct, r: bool)
    requires IpEntry(ct) && FAMILY in c.mask && c.family == ct.family
    ensures AllProper(Present(IpItems(ct, r)))
    ensures ParsedIp(c, r, EncodeAll(Present(IpItems(ct, r)))) == Done(IpCopied(c, ct, r))
  {
    hide Present; hide EncodeAll; hide AllProper; hide Payload; hide FaultOf; hide SizeAll;
    assert FullDir(ct, r);
    IpProper(ct, r);
    var items := IpItems(ct, r);
    var s := EncodeAll(Present(items));
    ItemsAccepted(items, IP_MAX, IP_POLICY);
    ItemPayload(items, 0);
    ItemPayload(items, 1);
    if ct.family == AF_INET {
      NoItemPayload(items, 3);
      NoItemPayload(items, 4);
    } else {
      NoItemPayload(items, 1);
      NoItemPayload(items, 2);
    }
  }

  // An integer attribute among some optional ones
  lemma ItemNum(items: seq<Item>, i: nat, maxtype: nat, policy: seq<Policy>)
    requires DistinctTypes(items) && i < |items| && AllProper(Present(items)) && PolicyOk(policy, maxtype)
    requires items[i].tree.Leaf? && items[i].tree.typ <= maxtype
    requires FaultOf(EncodeAll(Present(items)), maxtype, policy) == 0
    requires var p := policy[items[i].tree.typ];
             (p == U8 || p == U16 || p == U32) && |items[i].tree.data| >= Least(p)
    ensures var t := items[i].tree.typ;
            Num(EncodeAll(Present(items)), maxtype, policy, t)
            == if items[i].present then Some(Value(policy[t], items[i].tree.data)) else None
  {
    hide Payload; hide Present; hide EncodeAll; hide AllProper; hide Proper; hide FaultOf; hide Least;
    ItemPayload(items, i);
  }

  // The ports and ICMP fields of a tuple, number by number
  lemma ProtoNums(ct: Ct, r: bool)
    requires IpEntry(ct)
    ensures AllProper(Present(ProtoItems(ct, r)))
    ensures var s, d, first := EncodeAll(Present(ProtoItems(ct, r))), ct.Dir(r), if ct.family == AF_INET then 4 else 7;
            && FaultOf(s, PROTO_MAX, PROTO_POLICY) == 0
            && ProtoNum(s, 1) == (if PROTO in ct.mask then Some(ct.proto) else None)
            && ProtoNum(s, 2) == (if ct.Has(r, SRC_PORT) then Some(d.lo) else None)
            && ProtoNum(s, 3) == (if ct.Has(r, DST_PORT) then Some(d.hi) else None)
            && ProtoNum(s, first) == (if ct.Has(r, ICMP_ID) then Some(d.lo) else None)
            && ProtoNum(s, first + 1) == (if ct.Has(r, ICMP_TYPE) then Some(IcmpType(d)) else None)
            && ProtoNum(s, first + 2) == (if ct.Has(r, ICMP_CODE) then Some(IcmpCode(d)) else None)
  {
    hide Present; hide EncodeAll; hide AllProper; hide Payload; hide FaultOf; hide SizeAll; hide Num; hide Be16;
    hide Get16; hide Get32; hide Proper;
    ProtoAll(ct, r);
    var items := ProtoItems(ct, r);
    ItemNum(items, 0, PROTO_MAX, PROTO_POLICY);
    ItemNum(items, 1, PROTO_MAX, PROTO_POLICY);
    ItemNum(items, 2, PROTO_MAX, PROTO_POLICY);
    ItemNum(items, 3, PROTO_MAX, PROTO_POLICY);
    ItemNum(items, 4, PROTO_MAX, PROTO_POLICY);
    ItemNum(items, 5, PROTO_MAX, PROTO_POLICY);
    Numbers(ct.Dir(r), ct.proto);
  }

  lemma ProtoAll(ct: Ct, r: bool)
    requires IpEntry(ct)
    ensures AllProper(Present(ProtoItems(ct, r))) && FaultOf(EncodeAll(Present(ProtoItems(ct, r))), PROTO_MAX, PROTO_POLICY) == 0
    ensures DirTyped(ct.Dir(r)) && ct.proto < 0x100
  {
    hide Present; hide EncodeAll; hide Payload; hide FaultOf; hide Be16;
    ProtoProper(ct, r);
    assert DirTyped(ct.Dir(r));
    ItemsAccepted(ProtoItems(ct, r), PROTO_MAX, PROTO_POLICY);
  }

  lemma Numbers(d: Dir, proto: nat)
    requires DirTyped(d) && proto < 0x100
    ensures Get16(Be16(d.lo)) == d.lo && Get16(Be16(d.hi)) == d.hi
    ensures IcmpType(d) < 0x100 && IcmpCode(d) < 0x100
  {}

  lemma ProtoBack(c: Ct, ct: Ct, r: bool)
    requires IpEntry(ct) && c.family == ct.family
    ensures AllProper(Present(ProtoItems(ct, r)))
    ensures ParsedProto(c, r, EncodeAll(Present(ProtoItems(ct, r)))) == Done(ProtoCopied(c, ct, r))
  {
    hide Present; hide EncodeAll; hide AllProper; hide FaultOf; hide ProtoItems; hide ProtoNum;
    hide SetProto; hide SetSrcPort; hide SetDstPort; hide SetIcmpId; hide SetIcmpType; hide SetIcmpCode;
    hide IcmpType; hide IcmpCode; hide WellTyped; hide FullDir;
    ProtoNums(ct, r);
  }

  // A nest among some, after the empty ones are gone
  lemma NestPayload(ts: seq<Tree>, i: nat)
    requires AllProper(ts) && Distinct(ts) && i < |ts| && ts[i].Nest?
    ensures AllProper(PruneAll(ts)) && Proper(ts[i]) && AllProper(PruneAll(ts[i].kids))
    ensures Payload(EncodeAll(PruneAll(ts)), ts[i].typ)
            == if PruneAll(ts[i].kids) == [] then None else Some(EncodeAll(PruneAll(ts[i].kids)))
  {
    hide Payload; hide EncodeAll; hide AllProper; hide SizeAll; hide LastTree; hide PruneAll;
    PruneAllProper(ts);
    MembersProper(ts);
    assert ts[i] in ts;
    PruneAllProper(ts[i].kids);
    PruneLookup(ts, ts[i].typ);
    OnlyOne(ts, i);
    PayloadEncoded(PruneAll(ts), ts[i].typ);
    MembersProper(PruneAll(ts));
  }

  lemma {:induction false} OnlyOne(ts: seq<Tree>, i: nat)
    requires Distinct(ts) && i < |ts|
    ensures LastTree(ts, ts[i].typ) == Some(ts[i])
  {
    if i > 0 {
      OnlyOne(ts[1..], i - 1);
    } else {
      forall x | x in ts[1..] ensures x.typ != ts[0].typ {
        var k :| 0 <= k < |ts[1..]| && ts[1..][k] == x;
        assert ts[k + 1] == x;
      }
      NoneOf(ts[1..], ts[0].typ);
    }
  }

  function TupleKids(ct: Ct, r: bool): seq<Tree>
    requires WellTyped(ct)
  {
    [Nest(1, Present(IpItems(ct, r))), Nest(2, Present(ProtoItems(ct, r)))]
  }

  // A tuple that came out as something
  lemma TupleBack(c: Ct, ct: Ct, r: bool)
    requires IpEntry(ct) && FAMILY in c.mask && c.family == ct.family
    ensures AllProper(PruneAll(TupleKids(ct, r)))
    ensures ParsedTuple(c, r, EncodeAll(PruneAll(TupleKids(ct, r)))) == Done(ProtoCopied(IpCopied(c, ct, r), ct, r))
  {
    hide EncodeAll; hide AllProper; hide FaultOf; hide ProtoItems; hide IpItems; hide Present; hide Payload;
    hide ParsedIp; hide ParsedProto; hide WellTyped; hide FullDir; hide PruneAll; hide ProtoCopied; hide Proper; hide Size;
    var kids := TupleKids(ct, r);
    TupleKidsProper(ct, r);
    NestPayload(kids, 0);
    NestPayload(kids, 1);
    TupleAccepted(ct, r);
    LeavesOfIp(ct, r);
    IpBack(c, ct, r);
    var c1 := IpCopied(c, ct, r);
    assert c1.family == c.family && FAMILY in c1.mask;
    ProtoBack(c1, ct, r);
    NothingCopied(c, ct, r);
    NothingCopied(c1, ct, r);
  }

  lemma TupleKidsProper(ct: Ct, r: bool)
    requires WellTyped(ct)
    ensures AllProper(TupleKids(ct, r)) && Distinct(TupleKids(ct, r))
  {
    TupleProper(ct, r);
  }

  lemma LeavesOfIp(ct: Ct, r: bool)
    requires WellTyped(ct)
    ensures PruneAll(Present(IpItems(ct, r))) == Present(IpItems(ct, r))
    ensures PruneAll(Present(ProtoItems(ct, r))) == Present(ProtoItems(ct, r))
  {
    hide Present; hide PruneAll;
    LeavesOnly(IpItems(ct, r));
    PruneAllMeans(Present(IpItems(ct, r)));
    LeavesOnly(ProtoItems(ct, r));
    PruneAllMeans(Present(ProtoItems(ct, r)));
  }

  // Nests meet a policy that asks for nothing.
  lemma TupleAccepted(ct: Ct, r: bool)
    requires WellTyped(ct)
    ensures AllProper(PruneAll(TupleKids(ct, r)))
    ensures FaultOf(EncodeAll(PruneAll(TupleKids(ct, r))), TUPLE_MAX, TUPLE_POLICY) == 0
  {
    hide EncodeAll; hide AllProper; hide ProtoItems; hide IpItems; hide Present; hide WellTyped; hide FirstFault;
    var kids := TupleKids(ct, r);
    TupleKidsProper(ct, r);
    PruneAllProper(kids);
    var ts := PruneAll(kids);
    MembersProper(ts);
    PrunedNests(kids);
    forall x | x in ts ensures Meets(x, TUPLE_MAX, TUPLE_POLICY) {
      var k :| k in kids && k.Nest? && k.typ == x.typ && x.Nest?;
    }
    FaultsEncoded(ts, TUPLE_MAX, TUPLE_POLICY);
  }

  lemma {:induction false} PrunedNests(ts: seq<Tree>)
    ensures forall x :: x in PruneAll(ts) && x.Nest? ==> exists k :: k in ts && k.Nest? && k.typ == x.typ
    ensures (forall x :: x in ts ==> x.Nest?) ==> forall x :: x in PruneAll(ts) ==> x.Nest?
  {
    if ts != [] {
      PrunedNests(ts[1..]);
      assert ts == [ts[0]] + ts[1..];
      if Prune(ts[0]) != [] {
        assert Prune(ts[0]) == [Prune(ts[0])[0]];
      }
    }
  }

  // Without a single attribute nothing is copied.
  lemma NothingCopied(c: Ct, ct: Ct, r: bool)
    requires WellTyped(ct) && (ct.Family() == AF_INET || ct.Family() == AF_INET6)
    ensures Present(IpItems(ct, r)) == [] ==> IpCopied(c, ct, r) == c
    ensures Present(ProtoItems(ct, r)) == [] ==> ProtoCopied(c, ct, r) == c
  {
    if Present(IpItems(ct, r)) == [] {
      EmptyPresent(IpItems(ct, r));
      assert !IpItems(ct, r)[0].present && !IpItems(ct, r)[1].present;
    }
    if Present(ProtoItems(ct, r)) == [] {
      var items := ProtoItems(ct, r);
      EmptyPresent(items);
      assert !items[0].present && !items[1].present && !items[2].present;
      assert !items[3].present && !items[4].present && !items[5].present;
    }
  }

  lemma {:induction false} EmptyPresent(items: seq<Item>)
    requires Present(items) == []
    ensures forall i :: 0 <= i < |items| ==> !items[i].present
  {
    if items != [] {
      EmptyPresent(items[1..]);
      forall i | 0 <= i < |items| ensures !items[i].present {
        if i > 0 { assert items[i] == items[1..][i - 1]; }
      }
    }
  }

  // ---------- the whole message ----------

  function ScalarsCopied(c: Ct, ct: Ct): Ct
  {
    var c1 := if STATUS in ct.mask then SetStatus(c, ct.status) else c;
    var c2 := if TIMEOUT in ct.mask then SetTimeout(c1, ct.timeout) else c1;
    var c3 := if MARK in ct.mask then SetMark(c2, ct.mark) else c2;
    var c4 := if ID in ct.mask then SetId(c3, ct.id) else c3;
    if ZONE in ct.mask then SetZone(c4, ct.zone) else c4
  }

  function TupleCopied(c: Ct, ct: Ct, r: bool): Ct
  {
    ProtoCopied(IpCopied(c, ct, r), ct, r)
  }

  // The entry that is parsed
  function Copied(ct: Ct): Ct
  {
    var c0 := TupleCopied(SetFamily(EMPTY, ct.family), ct, false);
    ScalarsCopied(if ReplyEmitted(ct) then TupleCopied(c0, ct, true) else c0, ct)
  }

  lemma MessageTypes(ct: Ct)
    requires WellTyped(ct)
    ensures DistinctTypes(MessageItems(ct)) && |MessageItems(ct)| == 7
  {}

  lemma OneMoreApart(x: Tree, rest: seq<Tree>)
    requires Distinct(rest) && forall y :: y in rest ==> y.typ != x.typ
    ensures Distinct([x] + rest)
  {}

  lemma NoneApart()
    ensures Distinct([])
  {}

  lemma {:induction false} PresentApart(items: seq<Item>)
    requires DistinctTypes(items)
    ensures Distinct(Present(items))
  {
    hide Distinct;
    if items == [] {
      NoneApart();
    } else {
      LaterApart(items);
      PresentApart(items[1..]);
      var rest := Present(items[1..]);
      assert [] + rest == rest;
      if items[0].present { OneMoreApart(items[0].tree, rest); }
    }
  }

  lemma LaterApart(items: seq<Item>)
    requires DistinctTypes(items) && items != []
    ensures DistinctTypes(items[1..])
    ensures forall y :: y in Present(items[1..]) ==> y.typ != items[0].tree.typ
  {
    hide Present;
    forall y | y in Present(items[1..]) ensures y.typ != items[0].tree.typ {
      var k := PresentFrom(items[1..], y);
      assert items[k + 1].tree == y;
    }
  }

  // What a parse finds among optional attributes, nests included, after the
  // empty nests are gone
  lemma SentPayload(items: seq<Item>, i: nat)
    requires DistinctTypes(items) && i < |items| && AllProper(Present(items))
    ensures AllProper(PruneAll(Present(items))) && (items[i].present ==> Proper(items[i].tree))
    ensures items[i].present && items[i].tree.Nest? ==> AllProper(PruneAll(items[i].tree.kids))
    ensures Payload(EncodeAll(PruneAll(Present(items))), items[i].tree.typ)
            == if !items[i].present then None
               else match items[i].tree
                 case Leaf(_, data) => Some(data)
                 case Nest(_, kids) => if PruneAll(kids) == [] then None else Some(EncodeAll(PruneAll(kids)))
  {
    hide Payload; hide Present; hide EncodeAll; hide AllProper; hide SizeAll; hide LastTree; hide PruneAll;
    var ts, t := Present(items), items[i].tree.typ;
    PruneAllProper(ts);
    MembersProper(ts);
    PresentApart(items);
    PresentLookup(items, i);
    PruneLookup(ts, t);
    PayloadEncoded(PruneAll(ts), t);
    MembersProper(PruneAll(ts));
    if items[i].present && items[i].tree.Nest? { PruneAllProper(items[i].tree.kids); }
  }

  lemma NoSentPayload(items: seq<Item>, t: nat)
    requires DistinctTypes(items) && AllProper(Present(items)) && forall i :: 0 <= i < |items| ==> items[i].tree.typ != t
    ensures AllProper(PruneAll(Present(items)))
    ensures Payload(EncodeAll(PruneAll(Present(items))), t) == None
  {
    hide Payload; hide Present; hide EncodeAll; hide AllProper; hide SizeAll; hide LastTree; hide PruneAll;
    var ts := Present(items);
    PruneAllProper(ts);
    PresentApart(items);
    NotPresent(items, t);
    PruneLookup(ts, t);
    PayloadEncoded(PruneAll(ts), t);
  }

  // The message's attributes meet the policy.
  lemma MessageAccepted(ct: Ct)
    requires WellTyped(ct)
    ensures FaultOf(EncodeAll(SentTrees(ct)), CTA_MAX, CT_POLICY) == 0
  {
    hide EncodeAll; hide AllProper; hide TupleTree; hide Present; hide WellTyped; hide FirstFault; hide Be16; hide Be32;
    ItemsProper(ct);
    var items := MessageItems(ct);
    PruneAllProper(Present(items));
    var ts := SentTrees(ct);
    MembersProper(ts);
    forall x | x in ts ensures Meets(x, CTA_MAX, CT_POLICY) {
      MeetsMessage(ct, x);
    }
    FaultsEncoded(ts, CTA_MAX, CT_POLICY);
  }

  lemma {:induction false} PrunedFrom(ts: seq<Tree>, x: Tree) returns (y: Tree)
    requires x in PruneAll(ts)
    ensures y in ts && y.typ == x.typ && (y.Leaf? ==> x == y) && (y.Nest? ==> x.Nest?)
  {
    if x in Prune(ts[0]) {
      y := ts[0];
    } else {
      y := PrunedFrom(ts[1..], x);
      assert ts == [ts[0]] + ts[1..];
    }
  }

  lemma MeetsMessage(ct: Ct, x: Tree)
    requires WellTyped(ct) && x in SentTrees(ct) && Proper(x)
    ensures Meets(x, CTA_MAX, CT_POLICY)
  {
    hide EncodeAll; hide AllProper; hide Present; hide WellTyped; hide PruneAll; hide SentTrees;
    var items := MessageItems(ct);
    SentIs(ct);
    var y := PrunedFrom(Present(items), x);
    var i := PresentFrom(items, y);
    assert i < 7;
  }

  lemma SentIs(ct: Ct)
    requires WellTyped(ct)
    ensures SentTrees(ct) == PruneAll(Present(MessageItems(ct)))
  {}

  // ---------- the scalars ----------

  // One of the numbers after the tuples
  lemma ScalarBack(ct: Ct, i: nat, x: Item, t: nat)
    requires WellTyped(ct) && i < |MessageItems(ct)| && MessageItems(ct)[i] == x
    requires t in {3, 7, 8, 12, 18} && x.tree.Leaf? && x.tree.typ == t && |x.tree.data| >= Least(CT_POLICY[t])
    ensures FaultOf(EncodeAll(SentTrees(ct)), CTA_MAX, CT_POLICY) == 0
    ensures ScalarNum(EncodeAll(SentTrees(ct)), t) == if x.present then Some(Value(CT_POLICY[t], x.tree.data)) else None
  {
    hide EncodeAll; hide AllProper; hide TupleTree; hide Present; hide WellTyped; hide FirstFault; hide Be16; hide Be32;
    hide Payload; hide FaultOf; hide PruneAll; hide Proper; hide SentTrees; hide Get16; hide Get32;
    ItemsProper(ct);
    MessageTypes(ct);
    MessageAccepted(ct);
    SentIs(ct);
    SentPayload(MessageItems(ct), i);
  }

  lemma ScalarsNums(ct: Ct)
    requires WellTyped(ct)
    ensures var s := EncodeAll(SentTrees(ct));
            && FaultOf(s, CTA_MAX, CT_POLICY) == 0
            && ScalarNum(s, 3) == (if STATUS in ct.mask then Some(ct.status) else None)
            && ScalarNum(s, 7) == (if TIMEOUT in ct.mask then Some(ct.timeout) else None)
            && ScalarNum(s, 8) == (if MARK in ct.mask then Some(ct.mark) else None)
            && ScalarNum(s, 11) == None
            && ScalarNum(s, 12) == (if ID in ct.mask then Some(ct.id) else None)
            && ScalarNum(s, 18) == (if ZONE in ct.mask then Some(ct.zone) else None)
  {
    hide EncodeAll; hide AllProper; hide TupleTree; hide Present; hide FirstFault; hide Be16; hide Be32;
    hide Payload; hide FaultOf; hide PruneAll; hide Proper; hide SentTrees; hide Get16; hide Get32;
    ScalarBack(ct, 2, Item(STATUS in ct.mask, Leaf(3, Be32(ct.status))), 3);
    ScalarBack(ct, 3, Item(TIMEOUT in ct.mask, Leaf(7, Be32(ct.timeout))), 7);
    ScalarBack(ct, 4, Item(MARK in ct.mask, Leaf(8, Be32(ct.mark))), 8);
    ScalarBack(ct, 5, Item(ID in ct.mask, Leaf(12, Be32(ct.id))), 12);
    ScalarBack(ct, 6, Item(ZONE in ct.mask, Leaf(18, Be16(ct.zone))), 18);
    ItemsProper(ct);
    MessageTypes(ct);
    SentIs(ct);
    OtherTypes(ct);
    NoSentPayload(MessageItems(ct), 11);
  }

  lemma ScalarsBack(c: Ct, ct: Ct)
    requires WellTyped(ct) && c.status == 0
    ensures FaultOf(EncodeAll(SentTrees(ct)), CTA_MAX, CT_POLICY) == 0
    ensures ParsedScalars(c, EncodeAll(SentTrees(ct))) == ScalarsCopied(c, ct)
  {
    hide EncodeAll; hide AllProper; hide TupleTree; hide Present; hide FirstFault; hide WellTyped; hide ScalarNum;
    hide Payload; hide FaultOf; hide PruneAll; hide Proper; hide SentTrees; hide WordBits.Or;
    hide SetTimeout; hide SetMark; hide SetId; hide SetZone; hide SetUse;
    ScalarsNums(ct);
    OrZero(ct.status);
  }

  lemma OrZero(v: nat)
    ensures WordBits.Or(0, v) == v
  {}

  // ---------- the tuples ----------

  lemma TupleStepBack(c: Ct, ct: Ct, r: bool)
    requires IpEntry(ct) && FAMILY in c.mask && c.family == ct.family && (r ==> ReplyEmitted(ct))
    ensures var s := EncodeAll(SentTrees(ct));
            TupleStep(Done(c), r, Payload(s, if r then 2 else 1)) == Done(TupleCopied(c, ct, r))
  {
    hide EncodeAll; hide AllProper; hide Present; hide WellTyped; hide FirstFault; hide FullDir;
    hide Payload; hide PruneAll; hide Proper; hide SentTrees; hide IpItems; hide ProtoItems; hide ParsedTuple;
    hide IpCopied; hide ProtoCopied;
    ItemsProper(ct);
    MessageTypes(ct);
    SentIs(ct);
    SentPayload(MessageItems(ct), if r then 1 else 0);
    TupleBack(c, ct, r);
    if PruneAll(TupleKids(ct, r)) == [] {
      NothingLeft(ct, r);
      NothingCopied(c, ct, r);
    }
  }

  // A tuple that is dropped had nothing in it.
  lemma NothingLeft(ct: Ct, r: bool)
    requires WellTyped(ct) && PruneAll(TupleKids(ct, r)) == []
    ensures Present(IpItems(ct, r)) == [] && Present(ProtoItems(ct, r)) == []
  {
    hide Present; hide IpItems; hide ProtoItems; hide WellTyped;
    LeavesOfIp(ct, r);
    var kids := TupleKids(ct, r);
    assert kids[1..] == [kids[1]] && [kids[1]][1..] == [];
    assert PruneAll(kids) == Prune(kids[0]) + PruneAll(kids[1..]);
    assert PruneAll([kids[1]]) == Prune(kids[1]) + PruneAll([]);
  }

  lemma NoReply(ct: Ct)
    requires WellTyped(ct) && !ReplyEmitted(ct)
    ensures Payload(EncodeAll(SentTrees(ct)), 2) == None
  {
    hide EncodeAll; hide AllProper; hide Present; hide WellTyped; hide FirstFault;
    hide Payload; hide PruneAll; hide Proper; hide SentTrees; hide TupleKids; hide TupleTree;
    ItemsProper(ct);
    MessageTypes(ct);
    SentIs(ct);
    TupleTypes(ct);
    SentPayload(MessageItems(ct), 1);
  }

  lemma TupleTypes(ct: Ct)
    requires WellTyped(ct)
    ensures TupleTree(ct, true).typ == 2 && TupleTree(ct, false).typ == 1
  {}

  lemma FamilyKept(c: Ct, ct: Ct, r: bool)
    ensures var d := TupleCopied(c, ct, r);
            d.family == c.family && d.status == c.status && (FAMILY in c.mask ==> FAMILY in d.mask)
  {
    hide IpCopied; hide ProtoCopied; hide HiCopied; hide ProtoMask;
    IpForm(c, ct, r);
    ProtoForm(IpCopied(c, ct, r), ct, r);
  }

  // Parsing what was built gives the copy.
  lemma MessageBack(msg: seq<Byte>, ct: Ct)
    requires IpEntry(ct) && |msg| >= HEAD && msg[16] == ct.family && msg[HEAD..] == EncodeAll(SentTrees(ct))
    ensures ParsedMessage(msg) == Done(Copied(ct))
  {
    hide EncodeAll; hide Payload; hide SentTrees; hide FaultOf; hide ParsedScalars; hide TupleStep; hide WellTyped;
    hide FullDir; hide TupleCopied; hide ScalarsCopied; hide ProtoinfoStep; hide CountersStep; hide TimestampStep;
    var c := SetFamily(EMPTY, ct.family);
    FamilyKept(c, ct, false);
    TupleStepBack(c, ct, false);
    var c0 := TupleCopied(c, ct, false);
    if ReplyEmitted(ct) {
      FamilyKept(c0, ct, true);
      TupleStepBack(c0, ct, true);
      NoStep(TupleCopied(c0, ct, true));
      ScalarsBack(TupleCopied(c0, ct, true), ct);
    } else {
      NoReply(ct);
      NoStep(c0);
      ScalarsBack(c0, ct);
    }
    RegionIs(msg);
    NothingElse(ct);
    NoStep(Copied(ct));
  }

  lemma NoStep(c: Ct)
    ensures TupleStep(Done(c), true, None) == ProtoinfoStep(Done(c), None) == TimestampStep(Done(c), None) == Done(c)
    ensures CountersStep(Done(c), false, None) == CountersStep(Done(c), true, None) == Done(c)
  {}

  lemma NothingElse(ct: Ct)
    requires WellTyped(ct)
    ensures var s := EncodeAll(SentTrees(ct));
            Payload(s, 4) == Payload(s, 9) == Payload(s, 10) == Payload(s, 20) == None
  {
    hide EncodeAll; hide AllProper; hide Present; hide FirstFault; hide Be16; hide Be32; hide WellTyped;
    hide Payload; hide PruneAll; hide Proper; hide SentTrees; hide MessageItems;
    ItemsProper(ct);
    MessageTypes(ct);
    SentIs(ct);
    OtherTypes(ct);
    NoSentPayload(MessageItems(ct), 4);
    NoSentPayload(MessageItems(ct), 9);
    NoSentPayload(MessageItems(ct), 10);
    NoSentPayload(MessageItems(ct), 20);
  }

  lemma OtherTypes(ct: Ct)
    requires WellTyped(ct)
    ensures forall i :: 0 <= i < |MessageItems(ct)| ==> MessageItems(ct)[i].tree.typ !in {4, 9, 10, 11, 20}
  {
    hide WellTyped; hide Present; hide Be16; hide Be32;
    MessageTypes(ct);
  }

  lemma RegionIs(msg: seq<Byte>)
    requires |msg| >= HEAD
    ensures AttrRegion(msg, 4) == msg[HEAD..]
  {}

  // ---------- the copy agrees with the entry ----------

  // The attributes of a direction that the builder puts in a tuple
  const DIR_ATTRS: set<nat> := {SRC, DST, SRC_PORT, DST_PORT, ICMP_ID, ICMP_TYPE, ICMP_CODE}

  // The attributes that the builder emits
  function Emitted(ct: Ct): set<nat>
  {
    ct.mask * ({FAMILY, PROTO, STATUS, TIMEOUT, MARK, ID, ZONE}
               + DIR_ATTRS + if ReplyEmitted(ct) then set a | a in DIR_ATTRS :: a + REPL else {})
  }

  // Two entries agree on a direction's attributes.
  ghost predicate DirAgrees(c: Ct, ct: Ct, r: bool)
  {
    var x, y := c.Dir(r), ct.Dir(r);
    && (ct.Has(r, SRC) ==> x.src == y.src)
    && (ct.Has(r, DST) ==> x.dst == y.dst)
    && (ct.Has(r, SRC_PORT) || ct.Has(r, ICMP_ID) ==> x.lo == y.lo)
    && (ct.Has(r, DST_PORT) ==> x.hi == y.hi)
    && (ct.Has(r, ICMP_TYPE) ==> IcmpType(x) == IcmpType(y))
    && (ct.Has(r, ICMP_CODE) ==> IcmpCode(x) == IcmpCode(y))
  }

  ghost predicate ScalarsAgree(c: Ct, ct: Ct)
  {
    && c.family == ct.family
    && (PROTO in ct.mask ==> c.proto == ct.proto)
    && (STATUS in ct.mask ==> c.status == ct.status)
    && (TIMEOUT in ct.mask ==> c.timeout == ct.timeout)
    && (MARK in ct.mask ==> c.mark == ct.mark)
    && (ID in ct.mask ==> c.id == ct.id)
    && (ZONE in ct.mask ==> c.zone == ct.zone)
  }

  // Writing the ports and ICMP bytes into the union, in the parser's order
  function HiCopied(h: nat, y: nat, port: bool, typ: bool, code: bool): nat
  {
    var h1 := if port then y else h;
    var h2 := if typ then h1 / 0x100 * 0x100 + y % 0x100 else h1;
    if code then h2 % 0x100 + 0x100 * (y / 0x100) else h2
  }

  lemma HiByte(h: nat, v: nat)
    requires v < 0x100
    ensures (h / 0x100 * 0x100 + v) % 0x100 == v && (h / 0x100 * 0x100 + v) / 0x100 == h / 0x100
    ensures (h % 0x100 + 0x100 * v) % 0x100 == h % 0x100 && (h % 0x100 + 0x100 * v) / 0x100 == v
  {}

  lemma HiBack(h: nat, y: nat, port: bool, typ: bool, code: bool)
    requires y < 0x1_0000
    ensures var h3 := HiCopied(h, y, port, typ, code);
            (port ==> h3 == y) && (typ ==> h3 % 0x100 == y % 0x100) && (code ==> h3 / 0x100 == y / 0x100)
  {
    var h1 := if port then y else h;
    var h2 := if typ then h1 / 0x100 * 0x100 + y % 0x100 else h1;
    HiByte(h1, y % 0x100);
    HiByte(h2, y / 0x100);
  }

  function One(ct: Ct, r: bool, a: nat): set<nat>
  {
    if ct.Has(r, a) then {a + if r then REPL else 0} else {}
  }

  // A direction's attributes that are present
  function DirMask(ct: Ct, r: bool): set<nat>
  {
    ct.mask * (set a | a in DIR_ATTRS :: a + if r then REPL else 0)
  }

  lemma IpForm(c: Ct, ct: Ct, r: bool)
    ensures var d := Dir(if ct.Has(r, SRC) then ct.Dir(r).src else c.Dir(r).src,
                         if ct.Has(r, DST) then ct.Dir(r).dst else c.Dir(r).dst, c.Dir(r).lo, c.Dir(r).hi,
                         c.Dir(r).packets, c.Dir(r).bytes);
            IpCopied(c, ct, r) == c.SetDir(r, d).(mask := c.mask + One(ct, r, SRC) + One(ct, r, DST))
  {
  }

  function ProtoMask(ct: Ct, r: bool): set<nat>
  {
    (if r then {} else ct.mask * {PROTO}) + One(ct, r, SRC_PORT) + One(ct, r, DST_PORT)
    + One(ct, r, ICMP_ID) + One(ct, r, ICMP_TYPE) + One(ct, r, ICMP_CODE)
  }

  // The protocol and the ports; then the ICMP fields.
  function PortsCopied(c: Ct, ct: Ct, r: bool): Ct
  {
    var c1 := if !r && PROTO in ct.mask then SetProto(c, ct.proto) else c;
    var c2 := if ct.Has(r, SRC_PORT) then SetSrcPort(c1, r, ct.Dir(r).lo) else c1;
    if ct.Has(r, DST_PORT) then SetDstPort(c2, r, ct.Dir(r).hi) else c2
  }

  lemma PortsForm(c: Ct, ct: Ct, r: bool)
    ensures var y := ct.Dir(r);
            var d := c.Dir(r).(lo := if ct.Has(r, SRC_PORT) then y.lo else c.Dir(r).lo,
                               hi := if ct.Has(r, DST_PORT) then y.hi else c.Dir(r).hi);
            PortsCopied(c, ct, r)
            == c.SetDir(r, d).(proto := if !r && PROTO in ct.mask then ct.proto else c.proto,
                               mask := c.mask + ((if r then {} else ct.mask * {PROTO}) + One(ct, r, SRC_PORT) + One(ct, r, DST_PORT)))
  {}

  lemma IcmpForm(c: Ct, ct: Ct, r: bool)
    ensures var y := ct.Dir(r);
            var d := c.Dir(r).(lo := if ct.Has(r, ICMP_ID) then y.lo else c.Dir(r).lo,
                               hi := HiCopied(c.Dir(r).hi, y.hi, false, ct.Has(r, ICMP_TYPE), ct.Has(r, ICMP_CODE)));
            var c4 := if ct.Has(r, ICMP_ID) then SetIcmpId(c, r, y.lo) else c;
            var c5 := if ct.Has(r, ICMP_TYPE) then SetIcmpType(c4, r, IcmpType(y)) else c4;
            (if ct.Has(r, ICMP_CODE) then SetIcmpCode(c5, r, IcmpCode(y)) else c5)
            == c.SetDir(r, d).(mask := c.mask + (One(ct, r, ICMP_ID) + One(ct, r, ICMP_TYPE) + One(ct, r, ICMP_CODE)))
  {}

  lemma ProtoForm(c: Ct, ct: Ct, r: bool)
    ensures var y := ct.Dir(r);
            var d := c.Dir(r).(lo := if ct.Has(r, SRC_PORT) || ct.Has(r, ICMP_ID) then y.lo else c.Dir(r).lo,
                               hi := HiCopied(c.Dir(r).hi, y.hi, ct.Has(r, DST_PORT), ct.Has(r, ICMP_TYPE), ct.Has(r, ICMP_CODE)));
            ProtoCopied(c, ct, r)
            == c.SetDir(r, d).(proto := if !r && PROTO in ct.mask then ct.proto else c.proto,
                               mask := c.mask + ProtoMask(ct, r))
  {
    PortsForm(c, ct, r);
    IcmpForm(PortsCopied(c, ct, r), ct, r);
    hide SetIcmpId; hide SetIcmpType; hide SetIcmpCode; hide SetProto; hide SetSrcPort; hide SetDstPort; hide One;
    hide IcmpType; hide IcmpCode;
  }

  lemma DirMaskIs(ct: Ct, r: bool)
    ensures One(ct, r, SRC) + One(ct, r, DST) + ProtoMask(ct, r)
            == DirMask(ct, r) + if r then {} else ct.mask * {PROTO}
  {
    var off := if r then REPL else 0;
    assert (set a | a in DIR_ATTRS :: a + off)
           == {SRC + off, DST + off, SRC_PORT + off, DST_PORT + off, ICMP_ID + off, ICMP_TYPE + off, ICMP_CODE + off};
  }

  lemma TupleAgrees(c: Ct, ct: Ct, r: bool)
    requires WellTyped(ct)
    ensures var d := TupleCopied(c, ct, r);
            && DirAgrees(d, ct, r) && d.Dir(!r) == c.Dir(!r)
            && d == c.(proto := d.proto, mask := d.mask, orig := d.orig, repl := d.repl)
            && d.proto == (if !r && PROTO in ct.mask then ct.proto else c.proto)
            && d.mask == c.mask + (DirMask(ct, r) + if r then {} else ct.mask * {PROTO})
  {
    assert DirTyped(ct.Dir(r));
    hide WellTyped; hide IpCopied; hide ProtoCopied; hide HiCopied; hide DirMask; hide ProtoMask;
    var c1 := IpCopied(c, ct, r);
    IpForm(c, ct, r);
    ProtoForm(c1, ct, r);
    DirMaskIs(ct, r);
    HiBack(c1.Dir(r).hi, ct.Dir(r).hi, ct.Has(r, DST_PORT), ct.Has(r, ICMP_TYPE), ct.Has(r, ICMP_CODE));
  }

  const SCALARS: set<nat> := {STATUS, TIMEOUT, MARK, ID, ZONE}

  lemma ScalarsForm(c: Ct, ct: Ct)
    requires c.status == 0
    ensures var d := ScalarsCopied(c, ct);
            && d.mask == c.mask + ct.mask * SCALARS
            && d == c.(mask := d.mask, status := d.status, timeout := d.timeout, mark := d.mark, id := d.id, zone := d.zone)
            && (STATUS in ct.mask ==> d.status == ct.status) && (TIMEOUT in ct.mask ==> d.timeout == ct.timeout)
            && (MARK in ct.mask ==> d.mark == ct.mark) && (ID in ct.mask ==> d.id == ct.id)
            && (ZONE in ct.mask ==> d.zone == ct.zone)
  {
    OrZero(ct.status);
  }

  // The copy has the emitted attributes and no others, with equal values.
  lemma CopiedAgrees(ct: Ct)
    requires IpEntry(ct)
    ensures Copied(ct).mask == Emitted(ct)
    ensures ScalarsAgree(Copied(ct), ct) && DirAgrees(Copied(ct), ct, false)
    ensures ReplyEmitted(ct) ==> DirAgrees(Copied(ct), ct, true)
  {
    hide WellTyped; hide FullDir; hide TupleCopied; hide ScalarsCopied; hide DirAgrees; hide DirMask; hide WordBits.Or;
    var c := SetFamily(EMPTY, ct.family);
    TupleAgrees(c, ct, false);
    var c0 := TupleCopied(c, ct, false);
    var c1 := if ReplyEmitted(ct) then TupleCopied(c0, ct, true) else c0;
    TupleAgrees(c0, ct, true);
    ScalarsForm(c1, ct);
    SameDir(c0, c1, ct, false);
    SameDir(c1, Copied(ct), ct, false);
    SameDir(c1, Copied(ct), ct, true);
    EmittedMask(ct);
  }

  lemma SameDir(c: Ct, d: Ct, ct: Ct, r: bool)
    requires c.Dir(r) == d.Dir(r)
    ensures DirAgrees(c, ct, r) == DirAgrees(d, ct, r)
  {}

  lemma EmittedMask(ct: Ct)
    requires FAMILY in ct.mask
    ensures {FAMILY} + (DirMask(ct, false) + ct.mask * {PROTO}) + (if ReplyEmitted(ct) then DirMask(ct, true) else {})
            + ct.mask * SCALARS == Emitted(ct)
  {
    assert (set a | a in DIR_ATTRS :: a + 0) == DIR_ATTRS;
  }

  // An entry that is built into a message with room for it comes back from the
  // parser with exactly the attributes that were emitted.
  method BuildAndParse(size: nat, ct: Ct) returns (err: int, copy: Opt<Ct>)
    requires IpEntry(ct) && size < 0x8000_0000
    ensures copy.Some? <==> HEAD + TuplesPeak(ct) <= size && HEAD + SizeAll(SentTrees(ct)) <= size
    ensures copy.Some? ==>
      && copy.value.mask == Emitted(ct) && ScalarsAgree(copy.value, ct)
      && DirAgrees(copy.value, ct, false) && (ReplyEmitted(ct) ==> DirAgrees(copy.value, ct, true))
  {
    hide SizeAll; hide SentTrees; hide TuplesPeak; hide WellTyped; hide FullDir; hide Copied;
    hide ScalarsAgree; hide DirAgrees; hide EncodeAll; hide Emitted; hide ReplyEmitted; hide ParsedMessage;
    var m: NlMsg?;
    err, m := BuildMessage(size, ct);
    copy := None;
    if m != null {
      var msg := m.buf[..m.len];
      assert msg[HEAD..] == m.buf[HEAD..m.len];
      MessageBack(msg, ct);
      CopiedAgrees(ct);
      var p := ParseMessage(msg);
      copy := Some(p.ct);
    }
  }

  // ---------- the message as others read it ----------

  // Which attributes are emitted: those of the entry and of the original
  // direction that are present, and those of the reply when both its addresses are.
  lemma EmittedMeans(ct: Ct, attr: nat)
    ensures attr in Emitted(ct) <==>
              && attr in ct.mask
              && (attr == 0 || attr == 1 || attr == 3 || attr == 4 || attr == 5 || attr == 7 || attr == 27
                  || 8 <= attr <= 14 || (17 <= attr <= 23 && 17 in ct.mask && 18 in ct.mask))
  {
    if 17 <= attr <= 23 { assert attr == (attr - REPL) + REPL && attr - REPL in DIR_ATTRS; }
  }

  // The addresses, by the numbers of their attributes: 1 and 2 for IPv4, 3 and 4
  // for IPv6
  lemma IpWire(ct: Ct, r: bool)
    requires IpEntry(ct)
    ensures AllProper(Present(IpItems(ct, r)))
    ensures var s, d, v4 := EncodeAll(Present(IpItems(ct, r))), ct.Dir(r), ct.family == 2;
            && Payload(s, 1) == (if v4 && ct.Has(r, 8) then Some(d.src.value.bytes) else None)
            && Payload(s, 2) == (if v4 && ct.Has(r, 9) then Some(d.dst.value.bytes) else None)
            && Payload(s, 3) == (if !v4 && ct.Has(r, 8) then Some(d.src.value.bytes) else None)
            && Payload(s, 4) == (if !v4 && ct.Has(r, 9) then Some(d.dst.value.bytes) else None)
  {
    hide Present; hide EncodeAll; hide AllProper; hide Payload; hide SizeAll;
    assert FullDir(ct, r);
    IpProper(ct, r);
    var items := IpItems(ct, r);
    ItemPayload(items, 0);
    ItemPayload(items, 1);
    if ct.family == AF_INET {
      NoItemPayload(items, 3);
      NoItemPayload(items, 4);
    } else {
      NoItemPayload(items, 1);
      NoItemPayload(items, 2);
    }
  }

  // A tuple holds its addresses under 1 and its protocol under 2, and the message
  // the original tuple under 1 and the reply under 2.
  lemma TupleWire(ct: Ct, r: bool)
    requires IpEntry(ct) && (r ==> ReplyEmitted(ct))
    ensures AllProper(Present(IpItems(ct, r))) && AllProper(Present(ProtoItems(ct, r))) && AllProper(PruneAll(TupleKids(ct, r)))
    ensures var ip, proto := EncodeAll(Present(IpItems(ct, r))), EncodeAll(Present(ProtoItems(ct, r)));
            var tuple := EncodeAll(PruneAll(TupleKids(ct, r)));
            && Payload(EncodeAll(SentTrees(ct)), if r then 2 else 1) == (if tuple == [] then None else Some(tuple))
            && Payload(tuple, 1) == (if ip == [] then None else Some(ip))
            && Payload(tuple, 2) == (if proto == [] then None else Some(proto))
  {
    hide EncodeAll; hide AllProper; hide Present; hide WellTyped; hide FullDir; hide Payload; hide PruneAll; hide Proper;
    hide SentTrees; hide IpItems; hide ProtoItems; hide SizeAll; hide Size;
    ItemsProper(ct);
    MessageTypes(ct);
    SentIs(ct);
    SentPayload(MessageItems(ct), if r then 1 else 0);
    TupleKidsProper(ct, r);
    NestPayload(TupleKids(ct, r), 0);
    NestPayload(TupleKids(ct, r), 1);
    LeavesOfIp(ct, r);
    EmptyIff(PruneAll(TupleKids(ct, r)));
    EmptyIff(Present(IpItems(ct, r)));
    EmptyIff(Present(ProtoItems(ct, r)));
  }
}
