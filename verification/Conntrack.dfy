// Connection tracking entries: the setters and getters with their presence mask
// (lib/netfilter/ct_obj.c:357-828), the builder and the parser
// (lib/netfilter/ct.c:425-548).

module Conntrack {
  import opened Bytes
  import opened AttrStream
  import opened AttrParse
  import opened Options
  import opened Message
  import WordBits

  // ---------- the entry ----------

  const AF_INET := 2
  const AF_INET6 := 10

  // CT_ATTR_*: bit positions; those of the reply direction follow REPL later.
  const FAMILY := 0
  const PROTO := 1
  const TCP_STATE := 2
  const STATUS := 3
  const TIMEOUT := 4
  const MARK := 5
  const USE := 6
  const ID := 7
  const SRC := 8
  const DST := 9
  const SRC_PORT := 10
  const DST_PORT := 11
  const ICMP_ID := 12
  const ICMP_TYPE := 13
  const ICMP_CODE := 14
  const PACKETS := 15
  const BYTES := 16
  const TIMESTAMP := 26
  const ZONE := 27
  const REPL := 9

  // struct nl_addr: family, address, prefix length
  datatype Address = Address(family: nat, bytes: seq<Byte>, prefixlen: nat)

  // struct nfnl_ct_dir.  lo and hi are the two halves of union nfnl_ct_proto: the
  // ports, or the ICMP id, and the ICMP type and code in the bytes of hi.
  datatype Dir = Dir(src: Opt<Address>, dst: Opt<Address>, lo: nat, hi: nat, packets: nat, bytes: nat)

  // struct nfnl_ct.  mask is ce_mask.
  datatype Ct = Ct(mask: set<nat>, family: nat, proto: nat, status: nat, timeout: nat, mark: nat, use: nat, id: nat,
                   zone: nat, tcpState: nat, start: nat, stop: nat, orig: Dir, repl: Dir) {
    function Dir(repl': bool): Dir {
      if repl' then repl else orig
    }

    function SetDir(repl': bool, d: Dir): Ct {
      if repl' then this.(repl := d) else this.(orig := d)
    }

    // The attribute of a direction
    predicate Has(repl': bool, attr: nat) {
      attr + (if repl' then REPL else 0) in mask
    }

    function With(repl': bool, attr: nat): Ct {
      this.(mask := mask + {attr + if repl' then REPL else 0})
    }

    // nfnl_ct_get_family
    function Family(): nat {
      if FAMILY in mask then family else 0
    }
  }

  // nfnl_ct_alloc
  const EMPTY_DIR := Dir(None, None, 0, 0, 0, 0)
  const EMPTY := Ct({}, 0, 0, 0, 0, 0, 0, 0, 0, 0, 0, 0, EMPTY_DIR, EMPTY_DIR)

  // nfnl_ct_set_family and the other scalars
  function SetFamily(ct: Ct, v: nat): Ct { ct.(family := v, mask := ct.mask + {FAMILY}) }
  function SetProto(ct: Ct, v: nat): Ct { ct.(proto := v, mask := ct.mask + {PROTO}) }
  function SetTimeout(ct: Ct, v: nat): Ct { ct.(timeout := v, mask := ct.mask + {TIMEOUT}) }
  function SetMark(ct: Ct, v: nat): Ct { ct.(mark := v, mask := ct.mask + {MARK}) }
  function SetUse(ct: Ct, v: nat): Ct { ct.(use := v, mask := ct.mask + {USE}) }
  function SetId(ct: Ct, v: nat): Ct { ct.(id := v, mask := ct.mask + {ID}) }
  function SetZone(ct: Ct, v: nat): Ct { ct.(zone := v, mask := ct.mask + {ZONE}) }

  function SetTcpState(ct: Ct, v: nat): Ct { ct.(tcpState := v, mask := ct.mask + {TCP_STATE}) }
  function SetPackets(ct: Ct, r: bool, v: nat): Ct { ct.SetDir(r, ct.Dir(r).(packets := v)).With(r, PACKETS) }
  function SetBytes(ct: Ct, r: bool, v: nat): Ct { ct.SetDir(r, ct.Dir(r).(bytes := v)).With(r, BYTES) }
  function SetTimestamp(ct: Ct, start: nat, stop: nat): Ct
  {
    ct.(start := start, stop := stop, mask := ct.mask + {TIMESTAMP})
  }

  // nfnl_ct_set_status adds bits; on a fresh entry that is the value.
  function SetStatus(ct: Ct, v: nat): Ct
  {
    ct.(status := WordBits.Or(ct.status, v), mask := ct.mask + {STATUS})
  }

  // The port setters write a half of the union, the ICMP type and code a byte.
  function SetSrcPort(ct: Ct, r: bool, v: nat): Ct { ct.SetDir(r, ct.Dir(r).(lo := v)).With(r, SRC_PORT) }
  function SetDstPort(ct: Ct, r: bool, v: nat): Ct { ct.SetDir(r, ct.Dir(r).(hi := v)).With(r, DST_PORT) }
  function SetIcmpId(ct: Ct, r: bool, v: nat): Ct { ct.SetDir(r, ct.Dir(r).(lo := v)).With(r, ICMP_ID) }
  function SetIcmpType(ct: Ct, r: bool, v: nat): Ct
  {
    ct.SetDir(r, ct.Dir(r).(hi := ct.Dir(r).hi / 0x100 * 0x100 + v)).With(r, ICMP_TYPE)
  }
  function SetIcmpCode(ct: Ct, r: bool, v: nat): Ct
  {
    ct.SetDir(r, ct.Dir(r).(hi := ct.Dir(r).hi % 0x100 + 0x100 * v)).With(r, ICMP_CODE)
  }

  // nfnl_ct_get_icmp_type, nfnl_ct_get_icmp_code
  function IcmpType(d: Dir): nat { d.hi % 0x100 }
  function IcmpCode(d: Dir): nat { d.hi / 0x100 }

  const AF_MISMATCH := 15   // NLE_AF_MISMATCH
  const MSGSIZE := 9        // NLE_MSGSIZE

  // An operation that can fail
  datatype Parsed = Fail(err: int) | Done(ct: Ct)

  // ct_set_addr: the first address sets the family, later ones must match it.
  function SetAddr(ct: Ct, r: bool, attr: nat, a: Address): Parsed
  {
    if FAMILY in ct.mask && a.family != ct.family then Fail(-AF_MISMATCH)
    else
      var c := if FAMILY in ct.mask then ct else SetFamily(ct, a.family);
      var d := if attr == SRC then c.Dir(r).(src := Some(a)) else c.Dir(r).(dst := Some(a));
      Done(c.SetDir(r, d).With(r, attr))
  }

  // ---------- the builder ----------

  // An attribute that is put when its value is there
  datatype Item = Item(present: bool, tree: Tree)

  function Present(items: seq<Item>): seq<Tree>
  {
    if items == [] then []
    else (if items[0].present then [items[0].tree] else []) + Present(items[1..])
  }

  // htons and htonl in memory
  function Be16(v: nat): (r: seq<Byte>)
    requires v < 0x1_0000
    ensures |r| == 2 && 0x100 * (r[0] as int) + r[1] as int == v && Get16(r) == v
  {
    [v / 0x100, v % 0x100]
  }

  function Be32(v: nat): (r: seq<Byte>)
    requires v < 0x1_0000_0000
    ensures |r| == 4 && Get32(r) == v
    ensures 0x100_0000 * (r[0] as int) + 0x1_0000 * (r[1] as int) + 0x100 * (r[2] as int) + r[3] as int == v
  {
    var v1 := v / 0x100;
    var v2 := v1 / 0x100;
    [v2 / 0x100, v2 % 0x100, v1 % 0x100, v % 0x100]
  }

  // ntohs(nla_get_u16()), ntohl(nla_get_u32()), nla_get_u8() of a payload
  function Get16(s: seq<Byte>): (v: nat)
    requires |s| >= 2
  {
    0x100 * (s[0] as int) + s[1] as int
  }

  function Get32(s: seq<Byte>): (v: nat)
    requires |s| >= 4
  {
    0x100_0000 * (s[0] as int) + 0x1_0000 * (s[1] as int) + 0x100 * (s[2] as int) + s[3] as int
  }

  function Get8(s: seq<Byte>): nat
    requires |s| >= 1
  {
    s[0]
  }

  // What the C types say, and that an address that is present is there
  predicate WellTyped(ct: Ct)
  {
    && ct.family < 0x100 && ct.proto < 0x100 && ct.zone < 0x1_0000
    && ct.status < 0x1_0000_0000 && ct.timeout < 0x1_0000_0000 && ct.mark < 0x1_0000_0000 && ct.id < 0x1_0000_0000
    && (forall r :: DirTyped(ct.Dir(r)))
    && (forall r :: (ct.Has(r, SRC) ==> ct.Dir(r).src.Some?) && (ct.Has(r, DST) ==> ct.Dir(r).dst.Some?))
  }

  predicate DirTyped(d: Dir)
  {
    && d.lo < 0x1_0000 && d.hi < 0x1_0000
    && (d.src.Some? ==> |d.src.value.bytes| <= 0x4000) && (d.dst.Some? ==> |d.dst.value.bytes| <= 0x4000)
  }

  function IpItems(ct: Ct, r: bool): seq<Item>
    requires WellTyped(ct)
  {
    var v4 := ct.Family() == AF_INET;
    [Item(ct.Has(r, SRC), Leaf(if v4 then 1 else 3, if ct.Has(r, SRC) then ct.Dir(r).src.value.bytes else [])),
     Item(ct.Has(r, DST), Leaf(if v4 then 2 else 4, if ct.Has(r, DST) then ct.Dir(r).dst.value.bytes else []))]
  }

  function ProtoItems(ct: Ct, r: bool): seq<Item>
    requires WellTyped(ct)
  {
    var d, v4, v6 := ct.Dir(r), ct.Family() == AF_INET, ct.Family() == AF_INET6;
    [Item(PROTO in ct.mask, Leaf(1, [ct.proto])),
     Item(ct.Has(r, SRC_PORT), Leaf(2, Be16(d.lo))),
     Item(ct.Has(r, DST_PORT), Leaf(3, Be16(d.hi))),
     Item((v4 || v6) && ct.Has(r, ICMP_ID), Leaf(if v4 then 4 else 7, Be16(d.lo))),
     Item((v4 || v6) && ct.Has(r, ICMP_TYPE), Leaf(if v4 then 5 else 8, [IcmpType(d)])),
     Item((v4 || v6) && ct.Has(r, ICMP_CODE), Leaf(if v4 then 6 else 9, [IcmpCode(d)]))]
  }

  // nfnl_ct_build_tuple
  function TupleTree(ct: Ct, r: bool): Tree
    requires WellTyped(ct)
  {
    Nest(if r then 2 else 1, [Nest(1, Present(IpItems(ct, r))), Nest(2, Present(ProtoItems(ct, r)))])
  }

  // The reply tuple is optional: it takes both addresses.
  predicate ReplyEmitted(ct: Ct)
  {
    ct.Has(true, SRC) && ct.Has(true, DST)
  }

  function ScalarItems(ct: Ct): seq<Item>
    requires WellTyped(ct)
  {
    [Item(STATUS in ct.mask, Leaf(3, Be32(ct.status))),
     Item(TIMEOUT in ct.mask, Leaf(7, Be32(ct.timeout))),
     Item(MARK in ct.mask, Leaf(8, Be32(ct.mark))),
     Item(ID in ct.mask, Leaf(12, Be32(ct.id))),
     Item(ZONE in ct.mask, Leaf(18, Be16(ct.zone)))]
  }

  function MessageItems(ct: Ct): seq<Item>
    requires WellTyped(ct)
  {
    [Item(true, TupleTree(ct, false)), Item(ReplyEmitted(ct), TupleTree(ct, true))] + ScalarItems(ct)
  }

  // k times n
  function Times(k: nat, n: nat): nat
  {
    if k == 0 then 0 else n + Times(k - 1, n)
  }

  lemma {:induction false} PresentProper(items: seq<Item>, n: nat)
    requires forall i :: 0 <= i < |items| ==> Proper(items[i].tree) && Size(items[i].tree) <= n
    ensures AllProper(Present(items)) && SizeAll(Present(items)) <= Times(|items|, n)
  {
    hide Proper; hide Size; hide SizeAll; hide AllProper;
    if items == [] {
      NoneProper();
    } else {
      PresentProper(items[1..], n);
      if items[0].present {
        OneMore(items[0].tree, Present(items[1..]));
      } else {
        assert [] + Present(items[1..]) == Present(items[1..]);
      }
    }
  }

  lemma NoneProper()
    ensures AllProper([]) && SizeAll([]) == 0
  {}

  lemma OneMore(t: Tree, ts: seq<Tree>)
    ensures AllProper([t] + ts) <==> Proper(t) && AllProper(ts)
    ensures SizeAll([t] + ts) == Size(t) + SizeAll(ts)
  {
    assert ([t] + ts)[1..] == ts;
  }

  lemma IpProper(ct: Ct, r: bool)
    requires WellTyped(ct)
    ensures Proper(Nest(1, Present(IpItems(ct, r)))) && Size(Nest(1, Present(IpItems(ct, r)))) <= 0x8010
  {
    assert DirTyped(ct.Dir(r));
    PresentProper(IpItems(ct, r), 0x4004);
    assert Times(2, 0x4004) == 0x8008;
  }

  lemma ProtoProper(ct: Ct, r: bool)
    requires WellTyped(ct)
    ensures Proper(Nest(2, Present(ProtoItems(ct, r)))) && Size(Nest(2, Present(ProtoItems(ct, r)))) <= 0x40
  {
    assert DirTyped(ct.Dir(r));
    PresentProper(ProtoItems(ct, r), 8);
    assert Times(6, 8) == 48 by { assert Times(3, 8) == 24; assert Times(5, 8) == 16 + Times(3, 8); }
  }

  lemma TupleProper(ct: Ct, r: bool)
    requires WellTyped(ct)
    ensures Proper(TupleTree(ct, r))
  {
    hide Present; hide IpItems; hide ProtoItems;
    IpProper(ct, r);
    ProtoProper(ct, r);
    var ip, proto := Nest(1, Present(IpItems(ct, r))), Nest(2, Present(ProtoItems(ct, r)));
    NoneProper();
    OneMore(proto, []);
    OneMore(ip, [proto]);
    assert [ip] + [proto] == [ip, proto] && [proto] + [] == [proto];
  }

  lemma ItemsProper(ct: Ct)
    requires WellTyped(ct)
    ensures AllProper(Present(ScalarItems(ct))) && AllProper(Present(MessageItems(ct)))
    ensures Present(MessageItems(ct))
            == [TupleTree(ct, false)] + ((if ReplyEmitted(ct) then [TupleTree(ct, true)] else []) + Present(ScalarItems(ct)))
  {
    hide Proper; hide AllProper; hide TupleTree; hide ScalarItems; hide Size; hide SizeAll;
    ScalarsProper(ct);
    PresentProper(ScalarItems(ct), 8);
    TupleProper(ct, false);
    TupleProper(ct, true);
    var items, rest := MessageItems(ct), Present(ScalarItems(ct));
    assert items[1..][1..] == ScalarItems(ct);
    var reply := (if ReplyEmitted(ct) then [TupleTree(ct, true)] else []) + rest;
    assert Present(items[1..]) == reply;
    assert [] + rest == rest;
    OneMore(TupleTree(ct, true), rest);
    OneMore(TupleTree(ct, false), reply);
  }

  lemma ScalarsProper(ct: Ct)
    requires WellTyped(ct)
    ensures forall i :: 0 <= i < |ScalarItems(ct)| ==> Proper(ScalarItems(ct)[i].tree) && Size(ScalarItems(ct)[i].tree) <= 8
  {}

  // What a tuple comes out as: nothing, when it stays empty
  function SentTuple(ct: Ct, r: bool): seq<Tree>
    requires WellTyped(ct)
  {
    PruneAll([TupleTree(ct, r)])
  }

  // nfnl_ct_build_tuple
  method BuildTuple(m: NlMsg, ct: Ct, r: bool) returns (err: int)
    requires m.Valid() && m.Aligned() && 16 <= m.len && WellTyped(ct)
    modifies m`len, m.buf
    ensures m.Valid() && m.Aligned()
    ensures err == if old(m.len) + Peak(TupleTree(ct, r), false) <= m.buf.Length then 0 else -MSGSIZE
    ensures AllProper(SentTuple(ct, r))
    ensures err == 0 ==> && m.len == old(m.len) + SizeAll(SentTuple(ct, r))
                         && Grown(old(m.buf[..]), old(m.len), m.buf[..], EncodeAll(SentTuple(ct, r)))
  {
    TupleBuildable(ct, r);
    hide Buildable; hide TupleTree; hide PruneAll; hide Grown; hide EncodeAll; hide SizeAll; hide AllProper; hide Peak;
    var ok := BuildOne(m, TupleTree(ct, r), false);
    err := if ok then 0 else -MSGSIZE;
  }

  lemma TupleBuildable(ct: Ct, r: bool)
    requires WellTyped(ct)
    ensures Buildable(TupleTree(ct, r), false)
  {
    TupleProper(ct, r);
    Single(TupleTree(ct, r));
    ProperBuildable([TupleTree(ct, r)], false);
    OneBuildable(TupleTree(ct, r), false);
  }

  const HEAD := 20    // the netlink and netfilter headers

  // The attributes of the message, without the nests that stay empty
  function SentTrees(ct: Ct): (ts: seq<Tree>)
    requires WellTyped(ct)
    ensures AllProper(ts)
  {
    ItemsProper(ct);
    PruneAllProper(Present(MessageItems(ct)));
    PruneAll(Present(MessageItems(ct)))
  }

  // The tuples that are put, and what they come out as
  function Tuples(ct: Ct): seq<Tree>
    requires WellTyped(ct)
  {
    [TupleTree(ct, false)] + if ReplyEmitted(ct) then [TupleTree(ct, true)] else []
  }

  function SentTuples(ct: Ct): seq<Tree>
    requires WellTyped(ct)
  {
    PruneAll(Tuples(ct))
  }

  // How far the message grows at most while the tuples are put
  function TuplesPeak(ct: Ct): nat
    requires WellTyped(ct)
  {
    PeakAll(Tuples(ct), false)
  }

  // The message carries the entry's family and its attributes.
  ghost predicate Carries(m: NlMsg, ct: Ct)
    requires WellTyped(ct)
    reads m, m.buf
  {
    && HEAD <= m.len <= m.buf.Length && m.buf[16] == ct.Family() && m.buf[HEAD..m.len] == EncodeAll(SentTrees(ct))
  }

  lemma {:induction false} LeavesOnly(items: seq<Item>)
    requires forall i :: 0 <= i < |items| ==> items[i].tree.Leaf?
    ensures NoEmptyNests(Present(items))
  {
    if items != [] {
      LeavesOnly(items[1..]);
      var rest := Present(items[1..]);
      assert ([items[0].tree] + rest)[1..] == rest && [] + rest == rest;
    }
  }

  // The scalars come out as they are put, and need no more room on the way.
  lemma ScalarsStay(ct: Ct)
    requires WellTyped(ct)
    ensures var scalars := Present(ScalarItems(ct));
            && PruneAll(scalars) == scalars && AllProper(scalars) && AllBuildable(scalars, false)
            && PeakAll(scalars, false) == SizeAll(scalars)
  {
    hide WellTyped; hide Present; hide PeakAll;
    var scalars := Present(ScalarItems(ct));
    LeavesOnly(ScalarItems(ct));
    PruneAllMeans(scalars);
    ItemsProper(ct);
    ProperBuildable(scalars, false);
    PeakAllBetween(scalars, false);
  }

  // The message is the tuples followed by the scalars.
  lemma SentInTwo(ct: Ct)
    requires WellTyped(ct)
    ensures var scalars := Present(ScalarItems(ct));
            && AllProper(SentTuples(ct)) && AllProper(scalars)
            && EncodeAll(SentTrees(ct)) == EncodeAll(SentTuples(ct)) + EncodeAll(scalars)
            && SizeAll(SentTrees(ct)) == SizeAll(SentTuples(ct)) + SizeAll(scalars)
  {
    hide Proper; hide AllProper; hide TupleTree; hide ScalarItems; hide Size; hide SizeAll; hide PruneAll; hide Present;
    hide EncodeAll; hide Prune; hide MessageItems; hide WellTyped;
    var scalars := Present(ScalarItems(ct));
    ItemsProper(ct);
    TuplesProper(ct);
    PruneAllProper(Tuples(ct));
    ScalarsStay(ct);
    assert Present(MessageItems(ct)) == Tuples(ct) + scalars;
    PruneAllAppend(Tuples(ct), scalars);
    AllProperAppend(SentTuples(ct), scalars);
    SizeAllAppend(SentTuples(ct), scalars);
  }

  lemma TuplesProper(ct: Ct)
    requires WellTyped(ct)
    ensures AllProper(Tuples(ct))
  {
    hide Proper; hide AllProper; hide TupleTree; hide WellTyped;
    TupleProper(ct, false);
    TupleProper(ct, true);
    Single(TupleTree(ct, false));
    Single(TupleTree(ct, true));
    AllProperAppend([TupleTree(ct, false)], [TupleTree(ct, true)]);
    assert [TupleTree(ct, false)] + [] == [TupleTree(ct, false)];
  }

  // The original tuple, and the reply when it is there
  method BuildTuples(m: NlMsg, ct: Ct) returns (err: int)
    requires m.Valid() && m.Aligned() && 16 <= m.len && WellTyped(ct)
    modifies m`len, m.buf
    ensures m.Valid() && m.Aligned() && AllProper(SentTuples(ct))
    ensures err == if old(m.len) + TuplesPeak(ct) <= m.buf.Length then 0 else -MSGSIZE
    ensures err == 0 ==> && m.len == old(m.len) + SizeAll(SentTuples(ct))
                         && Grown(old(m.buf[..]), old(m.len), m.buf[..], EncodeAll(SentTuples(ct)))
  {
    hide AllProper; hide TupleTree; hide Peak; hide SizeAll; hide PruneAll; hide EncodeAll; hide Grown; hide WellTyped;
    hide SentTuples; hide TuplesPeak; hide ReplyEmitted; hide SentTuple; hide NlMsg.Valid; hide NlMsg.Aligned;
    OriginalRoom(ct);
    ghost var s, from := m.buf[..], m.len;
    err := BuildTuple(m, ct, false);
    if err < 0 {
      return;
    }
    if ReplyEmitted(ct) {
      err := BuildReply(m, ct, s, from);
    }
  }

  // The reply tuple, after the original one
  method BuildReply(m: NlMsg, ct: Ct, ghost s: seq<Byte>, ghost from: nat) returns (err: int)
    requires m.Valid() && m.Aligned() && 16 <= m.len && WellTyped(ct) && ReplyEmitted(ct)
    requires AllProper(SentTuple(ct, false)) && m.len == from + SizeAll(SentTuple(ct, false))
    requires from + Peak(TupleTree(ct, false), false) <= m.buf.Length
    requires Grown(s, from, m.buf[..], EncodeAll(SentTuple(ct, false)))
    modifies m`len, m.buf
    ensures m.Valid() && m.Aligned() && AllProper(SentTuples(ct))
    ensures err == if from + TuplesPeak(ct) <= m.buf.Length then 0 else -MSGSIZE
    ensures err == 0 ==> && m.len == from + SizeAll(SentTuples(ct))
                         && Grown(s, from, m.buf[..], EncodeAll(SentTuples(ct)))
  {
    hide AllProper; hide TupleTree; hide Peak; hide SizeAll; hide PruneAll; hide EncodeAll; hide Grown; hide WellTyped;
    hide SentTuples; hide TuplesPeak; hide ReplyEmitted; hide SentTuple; hide NlMsg.Valid; hide NlMsg.Aligned;
    ReplyRoom(ct);
    ghost var s1 := m.buf[..];
    err := BuildTuple(m, ct, true);
    if err == 0 {
      ReplyGrown(ct, s, from, s1, m.buf[..]);
    }
  }

  lemma OriginalRoom(ct: Ct)
    requires WellTyped(ct)
    ensures AllProper(SentTuple(ct, false)) && AllProper(SentTuples(ct))
    ensures Peak(TupleTree(ct, false), false) <= TuplesPeak(ct)
    ensures !ReplyEmitted(ct) ==> SentTuples(ct) == SentTuple(ct, false) && TuplesPeak(ct) == Peak(TupleTree(ct, false), false)
  {
    hide AllProper; hide TupleTree; hide Peak; hide SizeAll; hide WellTyped; hide SentTuple; hide SentTuples; hide TuplesPeak;
    TwoTuples(ct);
  }

  lemma ReplyRoom(ct: Ct)
    requires WellTyped(ct) && ReplyEmitted(ct)
    ensures AllProper(SentTuple(ct, false)) && AllProper(SentTuple(ct, true)) && AllProper(SentTuples(ct))
    ensures SizeAll(SentTuples(ct)) == SizeAll(SentTuple(ct, false)) + SizeAll(SentTuple(ct, true))
    ensures TuplesPeak(ct) == Max(Peak(TupleTree(ct, false), false),
                                  SizeAll(SentTuple(ct, false)) + Peak(TupleTree(ct, true), false))
  {
    hide AllProper; hide TupleTree; hide Peak; hide SizeAll; hide WellTyped; hide SentTuple; hide SentTuples; hide TuplesPeak;
    TwoTuples(ct);
  }

  lemma ReplyGrown(ct: Ct, s: seq<Byte>, from: nat, s1: seq<Byte>, s2: seq<Byte>)
    requires WellTyped(ct) && ReplyEmitted(ct)
    requires AllProper(SentTuple(ct, false)) && AllProper(SentTuple(ct, true)) && AllProper(SentTuples(ct))
    requires Grown(s, from, s1, EncodeAll(SentTuple(ct, false)))
    requires Grown(s1, from + SizeAll(SentTuple(ct, false)), s2, EncodeAll(SentTuple(ct, true)))
    ensures Grown(s, from, s2, EncodeAll(SentTuples(ct)))
  {
    hide AllProper; hide TupleTree; hide Size; hide SizeAll; hide EncodeAll; hide Grown; hide WellTyped;
    hide SentTuple; hide SentTuples; hide TuplesPeak;
    TwoTuples(ct);
    GrownBy(s, from, s1, EncodeAll(SentTuple(ct, false)), s2, EncodeAll(SentTuple(ct, true)));
  }

  lemma TwoTuples(ct: Ct)
    requires WellTyped(ct)
    ensures var t0, t1, all := SentTuple(ct, false), SentTuple(ct, true), SentTuples(ct);
            var p0, p1 := Peak(TupleTree(ct, false), false), Peak(TupleTree(ct, true), false);
            && AllProper(t0) && AllProper(t1) && AllProper(all)
            && (ReplyEmitted(ct) ==>
                  && EncodeAll(all) == EncodeAll(t0) + EncodeAll(t1) && SizeAll(all) == SizeAll(t0) + SizeAll(t1)
                  && TuplesPeak(ct) == Max(p0, SizeAll(t0) + p1))
            && (!ReplyEmitted(ct) ==> all == t0 && TuplesPeak(ct) == p0)
  {
    hide AllProper; hide TupleTree; hide Peak; hide SizeAll; hide PruneAll; hide EncodeAll; hide WellTyped; hide Proper;
    hide PeakAll;
    var u0, u1 := TupleTree(ct, false), TupleTree(ct, true);
    TupleProper(ct, false);
    TupleProper(ct, true);
    Single(u0);
    Single(u1);
    PruneAllProper([u0]);
    PruneAllProper([u1]);
    var t0, t1 := SentTuple(ct, false), SentTuple(ct, true);
    AllProperAppend(t0, t1);
    SizeAllAppend(t0, t1);
    PruneAllAppend([u0], [u1]);
    PeakOfTwo(u0, u1);
    assert [u0] + [] == [u0];
  }

  lemma PeakOfTwo(a: Tree, b: Tree)
    ensures PeakAll([a], false) == Peak(a, false)
    ensures PeakAll([a] + [b], false) == Max(Peak(a, false), SizeAll(PruneAll([a])) + Peak(b, false))
  {
    hide Peak; hide SizeAll; hide PruneAll;
    OneBuildable(a, false);
    var ts := [a] + [b];
    assert ts[..1] == [a] && |ts| == 2 && ts[1] == b;
  }

  // nfnl_ct_build_message.  The tuples need room for their peak, what follows
  // room for what is sent; when only the latter is missing the returned code is
  // 0 although there is no message.
  method BuildMessage(size: nat, ct: Ct) returns (err: int, m: NlMsg?)
    requires WellTyped(ct) && size < 0x8000_0000
    ensures err == if size < HEAD then -NOMEM else if size < HEAD + TuplesPeak(ct) then -MSGSIZE else 0
    ensures m != null <==> err == 0 && HEAD + SizeAll(SentTrees(ct)) <= size
    ensures m != null ==> m.Valid() && Carries(m, ct)
  {
    SentInTwo(ct);
    ScalarsStay(ct);
    FamilyByte(ct);
    hide AllProper; hide AllBuildable; hide ScalarItems; hide SizeAll; hide PeakAll; hide PruneAll; hide Present;
    hide Carries; hide EncodeAll; hide SentTrees; hide SentTuples; hide TuplesPeak; hide Grown; hide WellTyped;
    var n := new NlMsg(size);
    err := Head(n, ct.Family());
    if err < 0 {
      return -NOMEM, null;
    }
    ghost var s0 := n.buf[..];
    err := BuildTuples(n, ct);
    if err < 0 {
      return err, null;
    }
    ghost var s1 := n.buf[..];
    var ok := BuildAll(n, Present(ScalarItems(ct)), false);
    if !ok {
      return err, null;
    }
    GrownBy(s0, HEAD, s1, EncodeAll(SentTuples(ct)), n.buf[..], EncodeAll(Present(ScalarItems(ct))));
    CarriesWhole(n, ct, s0);
    m := n;
  }

  lemma FamilyByte(ct: Ct)
    requires WellTyped(ct)
    ensures ct.Family() < 0x100
  {}

  lemma CarriesWhole(m: NlMsg, ct: Ct, s0: seq<Byte>)
    requires WellTyped(ct) && m.Valid() && Grown(s0, HEAD, m.buf[..], EncodeAll(SentTrees(ct)))
    requires m.len == HEAD + |EncodeAll(SentTrees(ct))| && |s0| >= HEAD && s0[16] == ct.Family()
    ensures Carries(m, ct)
  {
    hide EncodeAll; hide SentTrees;
    assert m.buf[16] == m.buf[..][..HEAD][16] == s0[..HEAD][16];
  }

  // nfnlmsg_append: the netfilter header, the family first
  method Head(m: NlMsg, family: nat) returns (err: int)
    requires m.Valid() && m.Aligned() && m.len == 16 && family < 0x100
    modifies m`len, m.buf
    ensures m.Valid() && (err == 0 || err == -NOMEM) && (err == 0 <==> HEAD <= m.buf.Length)
    ensures err == 0 ==> m.len == HEAD && m.buf[16] == family
  {
    PaddedToFour(4);
    err := Append(m, [family, 0, 0, 0], 4);
  }

  // ---------- a buffer that is silently too short ----------

  // An entry with a status and the addresses of its reply.  In 48 bytes the
  // original tuple is dropped, the reply just fits while it is built and gives
  // back its empty nest, and the status finds no room any more: the caller is
  // told that all went well, and has no message.
  const UNNOTICED := EMPTY.(mask := {FAMILY, STATUS, SRC + REPL, DST + REPL}, family := AF_INET,
                            repl := EMPTY_DIR.(src := Some(Address(AF_INET, [10, 0, 0, 1], 32)),
                                               dst := Some(Address(AF_INET, [10, 0, 0, 2], 32))))

  method ShortBufferUnnoticed() returns (err: int, m: NlMsg?)
    ensures err == 0 && m == null
  {
    UnnoticedRoom();
    hide TuplesPeak; hide SizeAll; hide SentTrees;
    err, m := BuildMessage(48, UNNOTICED);
  }

  lemma UnnoticedRoom()
    ensures WellTyped(UNNOTICED) && TuplesPeak(UNNOTICED) == 28 && SizeAll(SentTrees(UNNOTICED)) == 32
  {
    UnnoticedTyped();
    hide TupleTree; hide WellTyped; hide Present; hide SentTrees; hide TuplesPeak; hide Peak; hide SizeAll; hide PruneAll;
    var ct := UNNOTICED;
    UnnoticedOriginal(ct);
    var a, b := UnnoticedReply(ct);
    OnlyStatus(ct);
    PeakOfNone(1);
    PeakOfReply(2, a, b);
    TwoTuples(ct);
    SentInTwo(ct);
  }

  lemma UnnoticedTyped()
    ensures WellTyped(UNNOTICED) && ReplyEmitted(UNNOTICED)
  {}

  lemma UnnoticedOriginal(ct: Ct)
    requires ct == UNNOTICED && WellTyped(ct)
    ensures TupleTree(ct, false) == Nest(1, [Nest(1, []), Nest(2, [])])
  {
    hide WellTyped; hide Present;
    NothingPresent(IpItems(ct, false));
    NothingPresent(ProtoItems(ct, false));
  }

  lemma UnnoticedReply(ct: Ct) returns (a: Tree, b: Tree)
    requires ct == UNNOTICED && WellTyped(ct)
    ensures a.Leaf? && b.Leaf? && |a.data| == |b.data| == 4
    ensures TupleTree(ct, true) == Nest(2, [Nest(1, [a, b]), Nest(2, [])])
  {
    hide WellTyped; hide Present;
    a, b := Leaf(1, [10, 0, 0, 1]), Leaf(2, [10, 0, 0, 2]);
    TwoPresent(IpItems(ct, true));
    NothingPresent(ProtoItems(ct, true));
  }

  // The room of a tuple without attributes, and of one with two addresses
  lemma PeakOfNone(typ: nat)
    ensures var t := Nest(typ, [Nest(1, []), Nest(2, [])]);
            Peak(t, false) == 8 && SizeAll(PruneAll([t])) == 0
  {
    var x, y := Nest(1, []), Nest(2, []);
    PeakOfTwo(x, y);
    assert [x] + [y] == [x, y] && [x, y][1..] == [y] && [y][1..] == [];
    PruneOne(x);
    PruneOne(y);
    PruneOne(Nest(typ, [x, y]));
    assert PeakAll([], false) == 0;
  }

  lemma PeakOfReply(typ: nat, a: Tree, b: Tree)
    requires a.Leaf? && b.Leaf? && |a.data| == |b.data| == 4
    ensures var t := Nest(typ, [Nest(1, [a, b]), Nest(2, [])]);
            Peak(t, false) == 28 && SizeAll(PruneAll([t])) == 24
  {
    var x, y := Nest(1, [a, b]), Nest(2, []);
    PeakOfTwo(a, b);
    PeakOfTwo(x, y);
    assert [a] + [b] == [a, b] && [a, b][1..] == [b] && [b][1..] == [];
    assert [x] + [y] == [x, y] && [x, y][1..] == [y] && [y][1..] == [] && [x][1..] == [];
    PruneOne(a);
    PruneOne(b);
    PruneOne(x);
    PruneOne(y);
    PruneAllAppend([a], [b]);
    PruneAllAppend([x], [y]);
    var t := Nest(typ, [x, y]);
    PruneOne(t);
    assert PruneAll([t]) == [Nest(typ, [x])];
    Single(Nest(typ, [x]));
    Single(x);
    Single(a);
    SizeAllAppend([a], [b]);
    Single(b);
    assert PeakAll([], false) == 0;
  }

  lemma TwoPresent(items: seq<Item>)
    requires |items| == 2 && items[0].present && items[1].present
    ensures Present(items) == [items[0].tree, items[1].tree]
  {
    assert Present(items[1..][1..]) == [];
  }

  lemma {:induction false} NothingPresent(items: seq<Item>)
    requires forall i :: 0 <= i < |items| ==> !items[i].present
    ensures Present(items) == []
  {
    if items != [] { NothingPresent(items[1..]); }
  }

  lemma OnlyStatus(ct: Ct)
    requires WellTyped(ct) && ct.mask == {FAMILY, STATUS, SRC + REPL, DST + REPL}
    ensures SizeAll(Present(ScalarItems(ct))) == 8
  {
    var items := ScalarItems(ct);
    NothingPresent(items[1..]);
    assert Present(items) == [items[0].tree] + [];
    Single(items[0].tree);
  }
}
