// Parsing a connection tracking message (lib/netfilter/ct.c:36-391),
// whatever its bytes are.

module ConntrackParse {
  import opened Bytes
  import opened AttrStream
  import opened AttrParse
  import opened AttrLookup
  import opened Options
  import opened Message
  import opened Conntrack

  // ---------- policies ----------

  const ANY := Policy(0, 0, 0)
  const U8 := Policy(1, 0, 0)
  const U16 := Policy(2, 0, 0)
  const U32 := Policy(3, 0, 0)
  const NESTED_ATTR := Policy(8, 0, 0)

  const U64 := Policy(4, 0, 0)

  const CTA_MAX := 24
  const TUPLE_MAX := 3
  const IP_MAX := 4
  const PROTO_MAX := 9
  const PROTOINFO_MAX := 3
  const TCP_MAX := 5
  const COUNTERS_MAX := 5
  const TIMESTAMP_MAX := 3

  const CT_POLICY: seq<Policy> :=
    [ANY, NESTED_ATTR, NESTED_ATTR, U32, NESTED_ATTR, ANY, ANY, U32, U32, NESTED_ATTR, NESTED_ATTR, U32, U32,
     ANY, ANY, ANY, ANY, ANY, U16, ANY, ANY, ANY, ANY, ANY, ANY]
  const TUPLE_POLICY: seq<Policy> := [ANY, NESTED_ATTR, NESTED_ATTR, ANY]
  const IP_POLICY: seq<Policy> := [ANY, U32, U32, Policy(0, 16, 0), Policy(0, 16, 0)]
  const PROTO_POLICY: seq<Policy> := [ANY, U8, U16, U16, U16, U8, U8, U16, U8, U8]
  const PROTOINFO_POLICY: seq<Policy> := [ANY, NESTED_ATTR, ANY, ANY]
  const TCP_POLICY: seq<Policy> := [ANY, U8, U8, U8, Policy(0, 2, 0), Policy(0, 2, 0)]
  const COUNTERS_POLICY: seq<Policy> := [ANY, U64, U64, U32, U32, ANY]
  const TIMESTAMP_POLICY: seq<Policy> := [ANY, U64, U64, ANY]

  // ---------- what the parser does ----------

  // What nla_parse returns for a stream
  function FaultOf(s: seq<Byte>, maxtype: nat, policy: seq<Policy>): int
    requires PolicyOk(policy, maxtype)
  {
    AttrsInside(s, 0);
    FirstFault(s, Attrs(s, 0), maxtype, policy)
  }

  // An address attribute, if it is there
  function AddrStep(p: Parsed, r: bool, attr: nat, payload: Opt<seq<Byte>>, family: nat): Parsed
  {
    if p.Fail? || payload == None then p
    else SetAddr(p.ct, r, attr, Address(family, payload.value, 8 * |payload.value|))
  }

  // ct_parse_ip
  function ParsedIp(ct: Ct, r: bool, s: seq<Byte>): Parsed
  {
    if FaultOf(s, IP_MAX, IP_POLICY) != 0 then Fail(FaultOf(s, IP_MAX, IP_POLICY))
    else
      var p1 := AddrStep(Done(ct), r, SRC, Payload(s, 1), AF_INET);
      var p2 := AddrStep(p1, r, DST, Payload(s, 2), AF_INET);
      var p3 := AddrStep(p2, r, SRC, Payload(s, 3), AF_INET6);
      AddrStep(p3, r, DST, Payload(s, 4), AF_INET6)
  }

  // How long a payload of this kind is at least
  function Least(p: Policy): nat
  {
    if p.minlen != 0 then p.minlen else if p.typ != NLA_UNSPEC then MinLen(p.typ) else 0
  }

  lemma {:induction false} NoFaultAt(s: seq<Byte>, attrs: seq<Attr>, maxtype: nat, policy: seq<Policy>, a: Attr)
    requires PolicyOk(policy, maxtype) && InStream(s, attrs) && a in attrs
    requires FirstFault(s, attrs, maxtype, policy) == 0
    ensures Fault(s, a, maxtype, policy) == 0
  {
    hide Fault;
    if attrs[0] != a {
      assert attrs == [attrs[0]] + attrs[1..];
      NoFaultAt(s, attrs[1..], maxtype, policy, a);
    }
  }

  // After a parse that succeeded a payload is as long as its policy asks.
  lemma PayloadLong(s: seq<Byte>, maxtype: nat, policy: seq<Policy>, t: nat)
    requires PolicyOk(policy, maxtype) && t <= maxtype && FaultOf(s, maxtype, policy) == 0 && Payload(s, t).Some?
    ensures |Payload(s, t).value| >= Least(policy[t])
  {
    hide U16At; hide Attrs; hide LastOf; hide FirstFault;
    var attrs := Attrs(s, 0);
    AttrsInside(s, 0);
    LastInside(s, t);
    LastOfType(attrs, t);
    var a :| a in attrs && a.off == LastOf(attrs, t) && TypeOf(a.raw) == t;
    AttrsAt(s, 0);
    NoFaultAt(s, attrs, maxtype, policy, a);
  }

  lemma {:induction false} LastOfType(attrs: seq<Attr>, t: nat)
    requires LastOf(attrs, t) != -1
    ensures exists a :: a in attrs && a.off == LastOf(attrs, t) && TypeOf(a.raw) == t
  {
    if attrs != [] {
      var last := attrs[|attrs| - 1];
      assert attrs == attrs[..|attrs| - 1] + [last];
      if TypeOf(last.raw) != t {
        LastOfType(attrs[..|attrs| - 1], t);
      } else {
        assert last in attrs;
      }
    }
  }

  // An integer attribute, in host order
  function Num(s: seq<Byte>, maxtype: nat, policy: seq<Policy>, t: nat): Opt<nat>
    requires PolicyOk(policy, maxtype) && t <= maxtype && FaultOf(s, maxtype, policy) == 0
    requires policy[t] == U8 || policy[t] == U16 || policy[t] == U32
  {
    if Payload(s, t) == None then None
    else
      PayloadLong(s, maxtype, policy, t);
      Some(Value(policy[t], Payload(s, t).value))
  }

  function Value(p: Policy, payload: seq<Byte>): nat
    requires (p == U8 || p == U16 || p == U32) && |payload| >= Least(p)
  {
    if p == U8 then Get8(payload) else if p == U16 then Get16(payload) else Get32(payload)
  }

  function Apply(ct: Ct, v: Opt<nat>, set': (Ct, nat) -> Ct): Ct
  {
    if v == None then ct else set'(ct, v.value)
  }

  function ProtoNum(s: seq<Byte>, t: nat): Opt<nat>
    requires 1 <= t <= PROTO_MAX && FaultOf(s, PROTO_MAX, PROTO_POLICY) == 0
  {
    Num(s, PROTO_MAX, PROTO_POLICY, t)
  }

  function ScalarNum(s: seq<Byte>, t: nat): Opt<nat>
    requires t in {3, 7, 8, 11, 12, 18} && FaultOf(s, CTA_MAX, CT_POLICY) == 0
  {
    Num(s, CTA_MAX, CT_POLICY, t)
  }

  // ct_parse_proto
  function ParsedProto(ct: Ct, r: bool, s: seq<Byte>): Parsed
  {
    if FaultOf(s, PROTO_MAX, PROTO_POLICY) != 0 then Fail(FaultOf(s, PROTO_MAX, PROTO_POLICY))
    else
      var c1 := if r then ct else Apply(ct, ProtoNum(s, 1), SetProto);
      var c2 := Apply(c1, ProtoNum(s, 2), (c: Ct, v: nat) => SetSrcPort(c, r, v));
      var c3 := Apply(c2, ProtoNum(s, 3), (c: Ct, v: nat) => SetDstPort(c, r, v));
      if ct.family != AF_INET && ct.family != AF_INET6 then Done(c3)
      else
        var first := if ct.family == AF_INET then 4 else 7;
        var c4 := Apply(c3, ProtoNum(s, first), (c: Ct, v: nat) => SetIcmpId(c, r, v));
        var c5 := Apply(c4, ProtoNum(s, first + 1), (c: Ct, v: nat) => SetIcmpType(c, r, v));
        Done(Apply(c5, ProtoNum(s, first + 2), (c: Ct, v: nat) => SetIcmpCode(c, r, v)))
  }

  // ct_parse_tuple
  function ParsedTuple(ct: Ct, r: bool, s: seq<Byte>): Parsed
  {
    if FaultOf(s, TUPLE_MAX, TUPLE_POLICY) != 0 then Fail(FaultOf(s, TUPLE_MAX, TUPLE_POLICY))
    else
      var p := match Payload(s, 1) case None => Done(ct) case Some(ip) => ParsedIp(ct, r, ip);
      if p.Fail? then p
      else match Payload(s, 2) case None => p case Some(proto) => ParsedProto(p.ct, r, proto)
  }

  function TupleStep(p: Parsed, r: bool, payload: Opt<seq<Byte>>): Parsed
  {
    if p.Fail? || payload == None then p else ParsedTuple(p.ct, r, payload.value)
  }

  // The scalar attributes of nfnlmsg_ct_parse
  function ParsedScalars(ct: Ct, s: seq<Byte>): Ct
    requires FaultOf(s, CTA_MAX, CT_POLICY) == 0
  {
    var c1 := Apply(ct, ScalarNum(s, 3), SetStatus);
    var c2 := Apply(c1, ScalarNum(s, 7), SetTimeout);
    var c3 := Apply(c2, ScalarNum(s, 8), SetMark);
    var c4 := Apply(c3, ScalarNum(s, 11), SetUse);
    var c5 := Apply(c4, ScalarNum(s, 12), SetId);
    Apply(c5, ScalarNum(s, 18), SetZone)
  }

  // A 64-bit attribute, in host order
  function Num64(s: seq<Byte>, maxtype: nat, policy: seq<Policy>, t: nat): Opt<nat>
    requires PolicyOk(policy, maxtype) && t <= maxtype && FaultOf(s, maxtype, policy) == 0 && policy[t] == U64
  {
    if Payload(s, t) == None then None
    else
      PayloadLong(s, maxtype, policy, t);
      Some(Get64(Payload(s, t).value))
  }

  function Get64(s: seq<Byte>): nat
    requires |s| >= 8
  {
    0x1_0000_0000 * Get32(s[..4]) + Get32(s[4..8])
  }

  // ct_parse_protoinfo_tcp
  function ParsedTcp(ct: Ct, s: seq<Byte>): Parsed
  {
    if FaultOf(s, TCP_MAX, TCP_POLICY) != 0 then Fail(FaultOf(s, TCP_MAX, TCP_POLICY))
    else Done(Apply(ct, Num(s, TCP_MAX, TCP_POLICY, 1), SetTcpState))
  }

  // ct_parse_protoinfo
  function ParsedProtoinfo(ct: Ct, s: seq<Byte>): Parsed
  {
    if FaultOf(s, PROTOINFO_MAX, PROTOINFO_POLICY) != 0 then Fail(FaultOf(s, PROTOINFO_MAX, PROTOINFO_POLICY))
    else match Payload(s, 1) case None => Done(ct) case Some(tcp) => ParsedTcp(ct, tcp)
  }

  function ProtoinfoStep(p: Parsed, payload: Opt<seq<Byte>>): Parsed
  {
    if p.Fail? || payload == None then p else ParsedProtoinfo(p.ct, payload.value)
  }

  // ct_parse_counters: the old 32-bit counters win over the 64-bit ones.
  function ParsedCounters(ct: Ct, r: bool, s: seq<Byte>): Parsed
  {
    if FaultOf(s, COUNTERS_MAX, COUNTERS_POLICY) != 0 then Fail(FaultOf(s, COUNTERS_MAX, COUNTERS_POLICY))
    else
      var c1 := Apply(ct, Num64(s, COUNTERS_MAX, COUNTERS_POLICY, 1), (c: Ct, v: nat) => SetPackets(c, r, v));
      var c2 := Apply(c1, Num(s, COUNTERS_MAX, COUNTERS_POLICY, 3), (c: Ct, v: nat) => SetPackets(c, r, v));
      var c3 := Apply(c2, Num64(s, COUNTERS_MAX, COUNTERS_POLICY, 2), (c: Ct, v: nat) => SetBytes(c, r, v));
      Done(Apply(c3, Num(s, COUNTERS_MAX, COUNTERS_POLICY, 4), (c: Ct, v: nat) => SetBytes(c, r, v)))
  }

  function CountersStep(p: Parsed, r: bool, payload: Opt<seq<Byte>>): Parsed
  {
    if p.Fail? || payload == None then p else ParsedCounters(p.ct, r, payload.value)
  }

  // ct_parse_timestamp: both ends or none
  function ParsedTimestamp(ct: Ct, s: seq<Byte>): Parsed
  {
    if FaultOf(s, TIMESTAMP_MAX, TIMESTAMP_POLICY) != 0 then Fail(FaultOf(s, TIMESTAMP_MAX, TIMESTAMP_POLICY))
    else
      var start, stop := Num64(s, TIMESTAMP_MAX, TIMESTAMP_POLICY, 1), Num64(s, TIMESTAMP_MAX, TIMESTAMP_POLICY, 2);
      Done(if start.Some? && stop.Some? then SetTimestamp(ct, start.value, stop.value) else ct)
  }

  function TimestampStep(p: Parsed, payload: Opt<seq<Byte>>): Parsed
  {
    if p.Fail? || payload == None then p else ParsedTimestamp(p.ct, payload.value)
  }

  // nfnlmsg_ct_parse of a message of nlmsg_len bytes
  function ParsedMessage(msg: seq<Byte>): Parsed
  {
    var s := AttrRegion(msg, 4);
    if |msg| < HEAD then Fail(-MSG_TOOSHORT)
    else if FaultOf(s, CTA_MAX, CT_POLICY) != 0 then Fail(FaultOf(s, CTA_MAX, CT_POLICY))
    else
      var p1 := TupleStep(Done(SetFamily(EMPTY, msg[16])), false, Payload(s, 1));
      var p2 := TupleStep(p1, true, Payload(s, 2));
      var p3 := ProtoinfoStep(p2, Payload(s, 4));
      if p3.Fail? then p3
      else
        var p4 := CountersStep(Done(ParsedScalars(p3.ct, s)), false, Payload(s, 9));
        TimestampStep(CountersStep(p4, true, Payload(s, 10)), Payload(s, 20))
  }

  // ---------- the parser ----------

  // The payload of an attribute in the index
  function Slot(s: seq<Byte>, r: int): Opt<seq<Byte>>
    requires r == -1 || (r >= 0 && r + HDRLEN <= |s| && HDRLEN <= U16At(s, r) <= |s| - r)
  {
    if r == -1 then None else Some(s[r + HDRLEN..r + U16At(s, r)])
  }

  ghost predicate Indexed(tb: array<int>, maxtype: nat, s: seq<Byte>)
    requires tb.Length == maxtype + 1
    reads tb
  {
    forall t: nat :: t <= maxtype ==> tb[t] == LastOf(Attrs(s, 0), t)
  }

  lemma SlotIsPayload(tb: array<int>, maxtype: nat, s: seq<Byte>, t: nat)
    requires tb.Length == maxtype + 1 && t <= maxtype && Indexed(tb, maxtype, s)
    ensures tb[t] == -1 || (tb[t] >= 0 && tb[t] + HDRLEN <= |s| && HDRLEN <= U16At(s, tb[t]) <= |s| - tb[t])
    ensures Slot(s, tb[t]) == Payload(s, t)
  {
    if tb[t] != -1 { LastInside(s, t); }
  }

  method ParseIp(ct: Ct, r: bool, s: seq<Byte>) returns (p: Parsed)
    ensures p == ParsedIp(ct, r, s)
  {
    hide SetAddr; hide Indexed; hide Slot; hide Payload; hide U16At;
    var tb := new int[IP_MAX + 1];
    var err := Parse(tb, IP_MAX, s, PolicyArg.With(IP_POLICY));
    if err < 0 {
      return Fail(err);
    }
    NeverPositive(s, IP_MAX, IP_POLICY);
    assert Indexed(tb, IP_MAX, s) by { IndexedNow(tb, IP_MAX, s); }
    SlotIsPayload(tb, IP_MAX, s, 1);
    SlotIsPayload(tb, IP_MAX, s, 2);
    SlotIsPayload(tb, IP_MAX, s, 3);
    SlotIsPayload(tb, IP_MAX, s, 4);
    p := Done(ct);
    p := AddrStep(p, r, SRC, Slot(s, tb[1]), AF_INET);
    if p.Fail? { return; }
    p := AddrStep(p, r, DST, Slot(s, tb[2]), AF_INET);
    if p.Fail? { return; }
    p := AddrStep(p, r, SRC, Slot(s, tb[3]), AF_INET6);
    if p.Fail? { return; }
    p := AddrStep(p, r, DST, Slot(s, tb[4]), AF_INET6);
  }

  // nla_get_u8, nla_get_u16 or nla_get_u32 of a slot, if it is filled
  function SlotNum(s: seq<Byte>, r: int, p: Policy): Opt<nat>
    requires p == U8 || p == U16 || p == U32
    requires r == -1 || (r >= 0 && r + HDRLEN <= |s| && HDRLEN <= U16At(s, r) <= |s| - r)
    requires r != -1 ==> U16At(s, r) - HDRLEN >= Least(p)
  {
    if r == -1 then None else Some(Value(p, s[r + HDRLEN..r + U16At(s, r)]))
  }

  lemma SlotIsNum(tb: array<int>, maxtype: nat, policy: seq<Policy>, s: seq<Byte>, t: nat)
    requires tb.Length == maxtype + 1 && t <= maxtype && Indexed(tb, maxtype, s)
    requires PolicyOk(policy, maxtype) && FaultOf(s, maxtype, policy) == 0
    requires policy[t] == U8 || policy[t] == U16 || policy[t] == U32
    ensures tb[t] == -1 || (tb[t] >= 0 && tb[t] + HDRLEN <= |s| && HDRLEN <= U16At(s, tb[t]) <= |s| - tb[t])
    ensures tb[t] != -1 ==> U16At(s, tb[t]) - HDRLEN >= Least(policy[t])
    ensures SlotNum(s, tb[t], policy[t]) == Num(s, maxtype, policy, t)
  {
    hide U16At; hide Value; hide Attrs; hide FaultOf;
    SlotIsPayload(tb, maxtype, s, t);
    if tb[t] != -1 { PayloadLong(s, maxtype, policy, t); }
  }

  method ParseProto(ct: Ct, r: bool, s: seq<Byte>) returns (p: Parsed)
    ensures p == ParsedProto(ct, r, s)
  {
    hide Indexed; hide SlotNum; hide U16At; hide FaultOf; hide Num; hide Attrs; hide FirstFault; hide InStream;
    var tb := new int[PROTO_MAX + 1];
    var err := Parse(tb, PROTO_MAX, s, PolicyArg.With(PROTO_POLICY));
    FaultIs(s, PROTO_MAX, PROTO_POLICY);
    NeverPositive(s, PROTO_MAX, PROTO_POLICY);
    if err < 0 {
      return Fail(err);
    }
    IndexedNow(tb, PROTO_MAX, s);
    var c := ProtoFields(ct, r, s, tb);
    p := Done(c);
  }

  // The fields of ct_parse_proto, once the index is filled
  method ProtoFields(ct: Ct, r: bool, s: seq<Byte>, tb: array<int>) returns (c: Ct)
    requires tb.Length == PROTO_MAX + 1 && Indexed(tb, PROTO_MAX, s) && FaultOf(s, PROTO_MAX, PROTO_POLICY) == 0
    ensures Done(c) == ParsedProto(ct, r, s)
  {
    hide Indexed; hide U16At; hide FaultOf; hide Num; hide Attrs; hide Value; hide Payload;
    hide SetProto; hide SetSrcPort; hide SetDstPort; hide SetIcmpId; hide SetIcmpType; hide SetIcmpCode;
    c := ct;
    SlotIsNum(tb, PROTO_MAX, PROTO_POLICY, s, 1);
    if !r && tb[1] != -1 { c := SetProto(c, SlotNum(s, tb[1], U8).value); }
    SlotIsNum(tb, PROTO_MAX, PROTO_POLICY, s, 2);
    if tb[2] != -1 { c := SetSrcPort(c, r, SlotNum(s, tb[2], U16).value); }
    SlotIsNum(tb, PROTO_MAX, PROTO_POLICY, s, 3);
    if tb[3] != -1 { c := SetDstPort(c, r, SlotNum(s, tb[3], U16).value); }
    if ct.family == AF_INET {
      c := IcmpFields(c, r, s, tb, 4);
    } else if ct.family == AF_INET6 {
      c := IcmpFields(c, r, s, tb, 7);
    }
  }

  // The ICMP id, type and code, at the places of IPv4 or of IPv6
  method IcmpFields(ct: Ct, r: bool, s: seq<Byte>, tb: array<int>, first: nat) returns (c: Ct)
    requires tb.Length == PROTO_MAX + 1 && Indexed(tb, PROTO_MAX, s) && FaultOf(s, PROTO_MAX, PROTO_POLICY) == 0
    requires first == 4 || first == 7
    ensures var c4 := Apply(ct, ProtoNum(s, first), (c: Ct, v: nat) => SetIcmpId(c, r, v));
            var c5 := Apply(c4, ProtoNum(s, first + 1), (c: Ct, v: nat) => SetIcmpType(c, r, v));
            c == Apply(c5, ProtoNum(s, first + 2), (c: Ct, v: nat) => SetIcmpCode(c, r, v))
  {
    hide Indexed; hide U16At; hide FaultOf; hide Num; hide Attrs; hide Value; hide Payload;
    hide SetIcmpId; hide SetIcmpType; hide SetIcmpCode;
    c := ct;
    SlotIsNum(tb, PROTO_MAX, PROTO_POLICY, s, first);
    if tb[first] != -1 { c := SetIcmpId(c, r, SlotNum(s, tb[first], U16).value); }
    SlotIsNum(tb, PROTO_MAX, PROTO_POLICY, s, first + 1);
    if tb[first + 1] != -1 { c := SetIcmpType(c, r, SlotNum(s, tb[first + 1], U8).value); }
    SlotIsNum(tb, PROTO_MAX, PROTO_POLICY, s, first + 2);
    if tb[first + 2] != -1 { c := SetIcmpCode(c, r, SlotNum(s, tb[first + 2], U8).value); }
  }

  lemma FaultIs(s: seq<Byte>, maxtype: nat, policy: seq<Policy>)
    requires PolicyOk(policy, maxtype) && InStream(s, Attrs(s, 0))
    ensures FaultOf(s, maxtype, policy) == FirstFault(s, Attrs(s, 0), maxtype, policy)
  {}

  lemma IndexedNow(tb: array<int>, maxtype: nat, s: seq<Byte>)
    requires tb.Length == maxtype + 1 && forall t: nat :: t <= maxtype ==> tb[t] == LastOf(Attrs(s, 0), t)
    ensures Indexed(tb, maxtype, s)
  {}

  lemma NeverPositive(s: seq<Byte>, maxtype: nat, policy: seq<Policy>)
    requires PolicyOk(policy, maxtype)
    ensures FaultOf(s, maxtype, policy) <= 0
  {
    AttrsInside(s, 0);
    FaultsNegative(s, Attrs(s, 0), maxtype, policy);
  }

  lemma {:induction false} FaultsNegative(s: seq<Byte>, attrs: seq<Attr>, maxtype: nat, policy: seq<Policy>)
    requires PolicyOk(policy, maxtype) && InStream(s, attrs)
    ensures FirstFault(s, attrs, maxtype, policy) <= 0
  {
    hide Fault;
    if attrs != [] {
      NoFault(s, attrs[0], maxtype, policy);
      FaultsNegative(s, attrs[1..], maxtype, policy);
    }
  }

  method ParseTuple(ct: Ct, r: bool, s: seq<Byte>) returns (p: Parsed)
    ensures p == ParsedTuple(ct, r, s)
  {
    hide Indexed; hide Slot; hide Payload; hide U16At; hide ParsedIp; hide ParsedProto; hide FaultOf; hide FirstFault;
    hide Attrs; hide InStream;
    var tb := new int[TUPLE_MAX + 1];
    var err := Parse(tb, TUPLE_MAX, s, PolicyArg.With(TUPLE_POLICY));
    FaultIs(s, TUPLE_MAX, TUPLE_POLICY);
    NeverPositive(s, TUPLE_MAX, TUPLE_POLICY);
    if err < 0 {
      return Fail(err);
    }
    IndexedNow(tb, TUPLE_MAX, s);
    SlotIsPayload(tb, TUPLE_MAX, s, 1);
    SlotIsPayload(tb, TUPLE_MAX, s, 2);
    p := Done(ct);
    var ip, proto := Slot(s, tb[1]), Slot(s, tb[2]);
    if ip.Some? {
      p := ParseIp(ct, r, ip.value);
      if p.Fail? { return; }
    }
    if proto.Some? {
      p := ParseProto(p.ct, r, proto.value);
    }
  }

  method ParseMessage(msg: seq<Byte>) returns (p: Parsed)
    ensures p == ParsedMessage(msg)
  {
    hide Indexed; hide Slot; hide Payload; hide U16At; hide ParsedTuple; hide FaultOf; hide FirstFault; hide Attrs;
    hide InStream; hide ParsedScalars; hide AttrRegion; hide TupleStep;
    hide ProtoinfoStep; hide CountersStep; hide TimestampStep;
    var tb := new int[CTA_MAX + 1];
    var err := MsgParse(tb, CTA_MAX, msg, 4, PolicyArg.With(CT_POLICY));
    if |msg| < HEAD {
      return Fail(err);
    }
    var s := AttrRegion(msg, 4);
    FaultIs(s, CTA_MAX, CT_POLICY);
    NeverPositive(s, CTA_MAX, CT_POLICY);
    if err < 0 {
      return Fail(err);
    }
    IndexedNow(tb, CTA_MAX, s);
    p := Tuples(SetFamily(EMPTY, msg[16]), s, tb);
    if p.Fail? { return; }
    var c := Scalars(p.ct, s, tb);
    p := Extras(c, s, tb);
  }

  // The two tuples and the protocol information, when they are there
  method Tuples(ct: Ct, s: seq<Byte>, tb: array<int>) returns (p: Parsed)
    requires tb.Length == CTA_MAX + 1 && Indexed(tb, CTA_MAX, s)
    ensures p == ProtoinfoStep(TupleStep(TupleStep(Done(ct), false, Payload(s, 1)), true, Payload(s, 2)), Payload(s, 4))
  {
    hide Indexed; hide Slot; hide Payload; hide U16At; hide ParsedTuple; hide ParsedProtoinfo;
    SlotIsPayload(tb, CTA_MAX, s, 4);
    SlotIsPayload(tb, CTA_MAX, s, 1);
    SlotIsPayload(tb, CTA_MAX, s, 2);
    p := Done(ct);
    var orig, reply, info := Slot(s, tb[1]), Slot(s, tb[2]), Slot(s, tb[4]);
    if orig.Some? {
      p := ParseTuple(p.ct, false, orig.value);
      if p.Fail? { return; }
    }
    if reply.Some? {
      p := ParseTuple(p.ct, true, reply.value);
      if p.Fail? { return; }
    }
    if info.Some? {
      p := ParseProtoinfo(p.ct, info.value);
    }
  }

  method Scalars(ct: Ct, s: seq<Byte>, tb: array<int>) returns (c: Ct)
    requires tb.Length == CTA_MAX + 1 && Indexed(tb, CTA_MAX, s) && FaultOf(s, CTA_MAX, CT_POLICY) == 0
    ensures c == ParsedScalars(ct, s)
  {
    hide Indexed; hide U16At; hide FaultOf; hide Num; hide Attrs; hide Value; hide Payload;
    hide SetStatus; hide SetTimeout; hide SetMark; hide SetUse; hide SetId; hide SetZone;
    c := ct;
    SlotIsNum(tb, CTA_MAX, CT_POLICY, s, 3);
    if tb[3] != -1 { c := SetStatus(c, SlotNum(s, tb[3], U32).value); }
    SlotIsNum(tb, CTA_MAX, CT_POLICY, s, 7);
    if tb[7] != -1 { c := SetTimeout(c, SlotNum(s, tb[7], U32).value); }
    SlotIsNum(tb, CTA_MAX, CT_POLICY, s, 8);
    if tb[8] != -1 { c := SetMark(c, SlotNum(s, tb[8], U32).value); }
    SlotIsNum(tb, CTA_MAX, CT_POLICY, s, 11);
    if tb[11] != -1 { c := SetUse(c, SlotNum(s, tb[11], U32).value); }
    SlotIsNum(tb, CTA_MAX, CT_POLICY, s, 12);
    if tb[12] != -1 { c := SetId(c, SlotNum(s, tb[12], U32).value); }
    SlotIsNum(tb, CTA_MAX, CT_POLICY, s, 18);
    if tb[18] != -1 { c := SetZone(c, SlotNum(s, tb[18], U16).value); }
  }

  // The counters and the timestamp, when they are there
  method Extras(ct: Ct, s: seq<Byte>, tb: array<int>) returns (p: Parsed)
    requires tb.Length == CTA_MAX + 1 && Indexed(tb, CTA_MAX, s)
    ensures var p4 := CountersStep(Done(ct), false, Payload(s, 9));
            p == TimestampStep(CountersStep(p4, true, Payload(s, 10)), Payload(s, 20))
  {
    hide Indexed; hide Slot; hide Payload; hide U16At; hide ParsedCounters; hide ParsedTimestamp;
    SlotIsPayload(tb, CTA_MAX, s, 9);
    SlotIsPayload(tb, CTA_MAX, s, 10);
    SlotIsPayload(tb, CTA_MAX, s, 20);
    p := Done(ct);
    var orig, reply, stamp := Slot(s, tb[9]), Slot(s, tb[10]), Slot(s, tb[20]);
    if orig.Some? {
      p := ParseCounters(p.ct, false, orig.value);
      if p.Fail? { return; }
    }
    if reply.Some? {
      p := ParseCounters(p.ct, true, reply.value);
      if p.Fail? { return; }
    }
    if stamp.Some? {
      p := ParseTimestamp(p.ct, stamp.value);
    }
  }

  method ParseTcp(ct: Ct, s: seq<Byte>) returns (p: Parsed)
    ensures p == ParsedTcp(ct, s)
  {
    hide Indexed; hide SlotNum; hide U16At; hide FaultOf; hide Num; hide Attrs; hide FirstFault; hide InStream;
    hide SetTcpState;
    var tb := new int[TCP_MAX + 1];
    var err := Parse(tb, TCP_MAX, s, PolicyArg.With(TCP_POLICY));
    FaultIs(s, TCP_MAX, TCP_POLICY);
    NeverPositive(s, TCP_MAX, TCP_POLICY);
    if err < 0 {
      return Fail(err);
    }
    IndexedNow(tb, TCP_MAX, s);
    SlotIsNum(tb, TCP_MAX, TCP_POLICY, s, 1);
    p := Done(Apply(ct, SlotNum(s, tb[1], U8), SetTcpState));
  }

  method ParseProtoinfo(ct: Ct, s: seq<Byte>) returns (p: Parsed)
    ensures p == ParsedProtoinfo(ct, s)
  {
    hide Indexed; hide Slot; hide Payload; hide U16At; hide ParsedTcp; hide FaultOf; hide FirstFault;
    hide Attrs; hide InStream;
    var tb := new int[PROTOINFO_MAX + 1];
    var err := Parse(tb, PROTOINFO_MAX, s, PolicyArg.With(PROTOINFO_POLICY));
    FaultIs(s, PROTOINFO_MAX, PROTOINFO_POLICY);
    NeverPositive(s, PROTOINFO_MAX, PROTOINFO_POLICY);
    if err < 0 {
      return Fail(err);
    }
    IndexedNow(tb, PROTOINFO_MAX, s);
    SlotIsPayload(tb, PROTOINFO_MAX, s, 1);
    p := Done(ct);
    var tcp := Slot(s, tb[1]);
    if tcp.Some? {
      p := ParseTcp(ct, tcp.value);
    }
  }

  // nla_get_u64 of a slot, if it is filled
  function SlotNum64(s: seq<Byte>, r: int): Opt<nat>
    requires r == -1 || (r >= 0 && r + HDRLEN + 8 <= |s| && HDRLEN + 8 <= U16At(s, r) <= |s| - r)
  {
    if r == -1 then None else Some(Get64(s[r + HDRLEN..r + U16At(s, r)]))
  }

  lemma SlotIsNum64(tb: array<int>, maxtype: nat, policy: seq<Policy>, s: seq<Byte>, t: nat)
    requires tb.Length == maxtype + 1 && t <= maxtype && Indexed(tb, maxtype, s)
    requires PolicyOk(policy, maxtype) && FaultOf(s, maxtype, policy) == 0 && policy[t] == U64
    ensures tb[t] == -1 || (tb[t] >= 0 && tb[t] + HDRLEN + 8 <= |s| && HDRLEN + 8 <= U16At(s, tb[t]) <= |s| - tb[t])
    ensures SlotNum64(s, tb[t]) == Num64(s, maxtype, policy, t)
  {
    hide U16At; hide Get64; hide Attrs; hide FaultOf;
    SlotIsPayload(tb, maxtype, s, t);
    if tb[t] != -1 { PayloadLong(s, maxtype, policy, t); }
  }

  method ParseCounters(ct: Ct, r: bool, s: seq<Byte>) returns (p: Parsed)
    ensures p == ParsedCounters(ct, r, s)
  {
    hide Indexed; hide U16At; hide FaultOf; hide Num; hide Num64; hide Attrs; hide FirstFault; hide InStream;
    var tb := new int[COUNTERS_MAX + 1];
    var err := Parse(tb, COUNTERS_MAX, s, PolicyArg.With(COUNTERS_POLICY));
    FaultIs(s, COUNTERS_MAX, COUNTERS_POLICY);
    NeverPositive(s, COUNTERS_MAX, COUNTERS_POLICY);
    if err < 0 {
      return Fail(err);
    }
    IndexedNow(tb, COUNTERS_MAX, s);
    var c := CounterFields(ct, r, s, tb);
    p := Done(c);
  }

  // The fields of ct_parse_counters, once the index is filled
  method CounterFields(ct: Ct, r: bool, s: seq<Byte>, tb: array<int>) returns (c: Ct)
    requires tb.Length == COUNTERS_MAX + 1 && Indexed(tb, COUNTERS_MAX, s)
    requires FaultOf(s, COUNTERS_MAX, COUNTERS_POLICY) == 0
    ensures Done(c) == ParsedCounters(ct, r, s)
  {
    hide Indexed; hide U16At; hide FaultOf; hide Num; hide Num64; hide Attrs; hide Value; hide Get64;
    hide SetPackets; hide SetBytes;
    c := ct;
    SlotIsNum64(tb, COUNTERS_MAX, COUNTERS_POLICY, s, 1);
    if tb[1] != -1 { c := SetPackets(c, r, SlotNum64(s, tb[1]).value); }
    SlotIsNum(tb, COUNTERS_MAX, COUNTERS_POLICY, s, 3);
    if tb[3] != -1 { c := SetPackets(c, r, SlotNum(s, tb[3], U32).value); }
    SlotIsNum64(tb, COUNTERS_MAX, COUNTERS_POLICY, s, 2);
    if tb[2] != -1 { c := SetBytes(c, r, SlotNum64(s, tb[2]).value); }
    SlotIsNum(tb, COUNTERS_MAX, COUNTERS_POLICY, s, 4);
    if tb[4] != -1 { c := SetBytes(c, r, SlotNum(s, tb[4], U32).value); }
  }

  method ParseTimestamp(ct: Ct, s: seq<Byte>) returns (p: Parsed)
    ensures p == ParsedTimestamp(ct, s)
  {
    hide Indexed; hide U16At; hide FaultOf; hide Num64; hide Attrs; hide FirstFault; hide InStream; hide Get64;
    var tb := new int[TIMESTAMP_MAX + 1];
    var err := Parse(tb, TIMESTAMP_MAX, s, PolicyArg.With(TIMESTAMP_POLICY));
    FaultIs(s, TIMESTAMP_MAX, TIMESTAMP_POLICY);
    NeverPositive(s, TIMESTAMP_MAX, TIMESTAMP_POLICY);
    if err < 0 {
      return Fail(err);
    }
    IndexedNow(tb, TIMESTAMP_MAX, s);
    SlotIsNum64(tb, TIMESTAMP_MAX, TIMESTAMP_POLICY, s, 1);
    SlotIsNum64(tb, TIMESTAMP_MAX, TIMESTAMP_POLICY, s, 2);
    p := Done(ct);
    if tb[1] != -1 && tb[2] != -1 {
      p := Done(SetTimestamp(ct, SlotNum64(s, tb[1]).value, SlotNum64(s, tb[2]).value));
    }
  }
}
