// What a parsed connection tracking entry is like, whatever bytes it was parsed
// from (lib/netfilter/ct.c:102-391).

module ConntrackSound {
  import opened Bytes
  import opened AttrStream
  import opened AttrParse
  import opened AttrLookup
  import opened Options
  import opened Conntrack
  import opened ConntrackParse

  // A direction's fields are as wide as in C, and an address that is present
  // is there and of the entry's family.
  predicate SoundDir(c: Ct, r: bool)
  {
    var d := c.Dir(r);
    && d.lo < 0x1_0000 && d.hi < 0x1_0000
    && (c.Has(r, SRC) ==> d.src.Some? && d.src.value.family == c.family)
    && (c.Has(r, DST) ==> d.dst.Some? && d.dst.value.family == c.family)
  }

  // The family is set, the fields are as wide as in C, and both directions are sound.
  predicate Sound(c: Ct)
  {
    && FAMILY in c.mask && c.proto < 0x100 && c.zone < 0x1_0000 && c.status < 0x1_0000_0000
    && c.timeout < 0x1_0000_0000 && c.mark < 0x1_0000_0000 && c.id < 0x1_0000_0000
    && SoundDir(c, false) && SoundDir(c, true)
  }

  // Parsing keeps an entry sound and of its family, and does not touch the status.
  predicate Keeps(c: Ct, p: Parsed)
  {
    Sound(c) && p.Done? ==> p.ct.family == c.family && p.ct.status == c.status && Sound(p.ct)
  }

  lemma KeepsTwice(c: Ct, d: Ct, p: Parsed)
    requires Keeps(c, Done(d)) && Keeps(d, p)
    ensures Keeps(c, p)
  {}

  lemma AddrStepKeeps(c: Ct, p: Parsed, r: bool, attr: nat, payload: Opt<seq<Byte>>, family: nat)
    requires Keeps(c, p) && (attr == SRC || attr == DST)
    ensures Keeps(c, AddrStep(p, r, attr, payload, family))
    ensures Sound(c) ==> var q := AddrStep(p, r, attr, payload, family);
              q.Fail? <==> p.Fail? || (payload.Some? && family != c.family)
  {}

  // Addresses of another family than the entry's are refused.
  lemma IpKeeps(c: Ct, r: bool, s: seq<Byte>)
    ensures Keeps(c, ParsedIp(c, r, s))
    ensures Sound(c) && FaultOf(s, IP_MAX, IP_POLICY) == 0 ==>
      (ParsedIp(c, r, s).Fail? <==> || (c.family != AF_INET && (Payload(s, 1).Some? || Payload(s, 2).Some?))
                                    || (c.family != AF_INET6 && (Payload(s, 3).Some? || Payload(s, 4).Some?)))
  {
    hide AddrStep; hide Keeps; hide Sound; hide FaultOf; hide Payload;
    Itself(c);
    var p1 := AddrStep(Done(c), r, SRC, Payload(s, 1), AF_INET);
    var p2 := AddrStep(p1, r, DST, Payload(s, 2), AF_INET);
    var p3 := AddrStep(p2, r, SRC, Payload(s, 3), AF_INET6);
    AddrStepKeeps(c, Done(c), r, SRC, Payload(s, 1), AF_INET);
    AddrStepKeeps(c, p1, r, DST, Payload(s, 2), AF_INET);
    AddrStepKeeps(c, p2, r, SRC, Payload(s, 3), AF_INET6);
    AddrStepKeeps(c, p3, r, DST, Payload(s, 4), AF_INET6);
    FailKeeps(c);
  }

  // Addresses shorter than their family's are refused.
  lemma IpLengths(s: seq<Byte>)
    requires FaultOf(s, IP_MAX, IP_POLICY) == 0
    ensures (Payload(s, 1).Some? ==> |Payload(s, 1).value| >= 4) && (Payload(s, 2).Some? ==> |Payload(s, 2).value| >= 4)
    ensures (Payload(s, 3).Some? ==> |Payload(s, 3).value| >= 16) && (Payload(s, 4).Some? ==> |Payload(s, 4).value| >= 16)
  {
    hide FaultOf; hide Payload;
    if Payload(s, 1).Some? { PayloadLong(s, IP_MAX, IP_POLICY, 1); }
    if Payload(s, 2).Some? { PayloadLong(s, IP_MAX, IP_POLICY, 2); }
    if Payload(s, 3).Some? { PayloadLong(s, IP_MAX, IP_POLICY, 3); }
    if Payload(s, 4).Some? { PayloadLong(s, IP_MAX, IP_POLICY, 4); }
  }

  lemma Itself(c: Ct)
    ensures Keeps(c, Done(c))
  {}

  lemma FailKeeps(c: Ct)
    ensures forall err :: Keeps(c, Fail(err))
  {}

  // Every number is as wide as its policy says.
  lemma NumWidth(s: seq<Byte>, maxtype: nat, policy: seq<Policy>, t: nat)
    requires PolicyOk(policy, maxtype) && t <= maxtype && FaultOf(s, maxtype, policy) == 0
    requires policy[t] == U8 || policy[t] == U16 || policy[t] == U32
    ensures var v := Num(s, maxtype, policy, t);
            v.Some? ==> v.value < if policy[t] == U8 then 0x100 else if policy[t] == U16 then 0x1_0000 else 0x1_0000_0000
  {
    hide FaultOf; hide Payload;
    if Payload(s, t).Some? { PayloadLong(s, maxtype, policy, t); }
  }

  lemma SetKeeps(c: Ct, r: bool, v: nat)
    requires v < 0x1_0000
    ensures Keeps(c, Done(SetSrcPort(c, r, v))) && Keeps(c, Done(SetDstPort(c, r, v))) && Keeps(c, Done(SetIcmpId(c, r, v)))
  {}

  lemma SetByteKeeps(c: Ct, r: bool, v: nat)
    requires v < 0x100
    ensures Keeps(c, Done(SetIcmpType(c, r, v))) && Keeps(c, Done(SetIcmpCode(c, r, v))) && Keeps(c, Done(SetProto(c, v)))
  {
    var h := c.Dir(r).hi;
    assert h < 0x1_0000 ==> h / 0x100 < 0x100;
  }

  lemma ProtoKeeps(c: Ct, r: bool, s: seq<Byte>)
    ensures Keeps(c, ParsedProto(c, r, s))
  {
    hide Keeps; hide Num; hide FaultOf;
    hide SetProto; hide SetSrcPort; hide SetDstPort; hide SetIcmpId; hide SetIcmpType; hide SetIcmpCode;
    FailKeeps(c);
    if FaultOf(s, PROTO_MAX, PROTO_POLICY) == 0 {
      var c1 := if r then c else Apply(c, ProtoNum(s, 1), SetProto);
      var c2 := Apply(c1, ProtoNum(s, 2), (c: Ct, v: nat) => SetSrcPort(c, r, v));
      var c3 := Apply(c2, ProtoNum(s, 3), (c: Ct, v: nat) => SetDstPort(c, r, v));
      Itself(c);
      Step8(c, c, r, s, 1);
      Step16(c, c1, r, s, 2);
      Step16(c, c2, r, s, 3);
      if c.family == AF_INET || c.family == AF_INET6 {
        var first := if c.family == AF_INET then 4 else 7;
        var c4 := Apply(c3, ProtoNum(s, first), (c: Ct, v: nat) => SetIcmpId(c, r, v));
        var c5 := Apply(c4, ProtoNum(s, first + 1), (c: Ct, v: nat) => SetIcmpType(c, r, v));
        Step16(c, c3, r, s, first);
        Step8(c, c4, r, s, first + 1);
        Step8(c, c5, r, s, first + 2);
      }
    }
  }

  // Setting a 16-bit field from its attribute, and an 8-bit one
  lemma Step16(c: Ct, d: Ct, r: bool, s: seq<Byte>, t: nat)
    requires Keeps(c, Done(d)) && FaultOf(s, PROTO_MAX, PROTO_POLICY) == 0 && t in {2, 3, 4, 7}
    ensures var v := ProtoNum(s, t);
            && Keeps(c, Done(Apply(d, v, (c: Ct, v: nat) => SetSrcPort(c, r, v))))
            && Keeps(c, Done(Apply(d, v, (c: Ct, v: nat) => SetDstPort(c, r, v))))
            && Keeps(c, Done(Apply(d, v, (c: Ct, v: nat) => SetIcmpId(c, r, v))))
  {
    hide Keeps; hide Num; hide FaultOf; hide SetSrcPort; hide SetDstPort; hide SetIcmpId;
    NumWidth(s, PROTO_MAX, PROTO_POLICY, t);
    var v := ProtoNum(s, t);
    if v.Some? {
      SetKeeps(d, r, v.value);
      KeepsTwice(c, d, Done(SetSrcPort(d, r, v.value)));
      KeepsTwice(c, d, Done(SetDstPort(d, r, v.value)));
      KeepsTwice(c, d, Done(SetIcmpId(d, r, v.value)));
    }
  }

  lemma Step8(c: Ct, d: Ct, r: bool, s: seq<Byte>, t: nat)
    requires Keeps(c, Done(d)) && FaultOf(s, PROTO_MAX, PROTO_POLICY) == 0 && t in {1, 5, 6, 8, 9}
    ensures var v := ProtoNum(s, t);
            && Keeps(c, Done(Apply(d, v, (c: Ct, v: nat) => SetIcmpType(c, r, v))))
            && Keeps(c, Done(Apply(d, v, (c: Ct, v: nat) => SetIcmpCode(c, r, v))))
            && Keeps(c, Done(Apply(d, v, SetProto)))
  {
    hide Keeps; hide Num; hide FaultOf; hide SetIcmpType; hide SetIcmpCode; hide SetProto;
    NumWidth(s, PROTO_MAX, PROTO_POLICY, t);
    var v := ProtoNum(s, t);
    if v.Some? {
      SetByteKeeps(d, r, v.value);
      KeepsTwice(c, d, Done(SetIcmpType(d, r, v.value)));
      KeepsTwice(c, d, Done(SetIcmpCode(d, r, v.value)));
      KeepsTwice(c, d, Done(SetProto(d, v.value)));
    }
  }

  lemma TupleKeeps(c: Ct, r: bool, s: seq<Byte>)
    ensures Keeps(c, ParsedTuple(c, r, s))
  {
    hide Keeps; hide FaultOf; hide Payload; hide ParsedIp; hide ParsedProto;
    FailKeeps(c);
    Itself(c);
    var p := match Payload(s, 1) case None => Done(c) case Some(ip) => ParsedIp(c, r, ip);
    if Payload(s, 1).Some? { IpKeeps(c, r, Payload(s, 1).value); }
    if p.Done? && Payload(s, 2).Some? {
      ProtoKeeps(p.ct, r, Payload(s, 2).value);
      KeepsTwice(c, p.ct, ParsedProto(p.ct, r, Payload(s, 2).value));
    }
  }

  // The tuples and the protocol information
  lemma FrontKeeps(c: Ct, s: seq<Byte>)
    ensures Keeps(c, ProtoinfoStep(TupleStep(TupleStep(Done(c), false, Payload(s, 1)), true, Payload(s, 2)), Payload(s, 4)))
  {
    hide Keeps; hide Payload; hide ParsedTuple; hide ParsedProtoinfo;
    Itself(c);
    var p1 := TupleStep(Done(c), false, Payload(s, 1));
    var p2 := TupleStep(p1, true, Payload(s, 2));
    if Payload(s, 1).Some? { TupleKeeps(c, false, Payload(s, 1).value); }
    if p1.Done? && Payload(s, 2).Some? {
      TupleKeeps(p1.ct, true, Payload(s, 2).value);
      KeepsTwice(c, p1.ct, p2);
    }
    if p2.Done? && Payload(s, 4).Some? {
      ProtoinfoKeeps(p2.ct, Payload(s, 4).value);
      KeepsTwice(c, p2.ct, ParsedProtoinfo(p2.ct, Payload(s, 4).value));
    }
  }

  lemma ProtoinfoKeeps(c: Ct, s: seq<Byte>)
    ensures Keeps(c, ParsedProtoinfo(c, s))
  {
    hide FaultOf; hide Payload; hide Num; hide Sound; hide SetTcpState;
    forall v: nat ensures Keeps(c, Done(SetTcpState(c, v))) { TcpStateKeeps(c, v); }
  }

  lemma TcpStateKeeps(c: Ct, v: nat)
    ensures Keeps(c, Done(SetTcpState(c, v)))
  {}

  // Counters and timestamps say nothing about the rest.
  lemma ExtrasKeep(c: Ct, s: seq<Byte>)
    ensures Keeps(c, TimestampStep(CountersStep(CountersStep(Done(c), false, Payload(s, 9)), true, Payload(s, 10)), Payload(s, 20)))
  {
    hide Keeps; hide Payload; hide ParsedCounters; hide ParsedTimestamp;
    Itself(c);
    var p1 := CountersStep(Done(c), false, Payload(s, 9));
    var p2 := CountersStep(p1, true, Payload(s, 10));
    if Payload(s, 9).Some? { CountersKeep(c, false, Payload(s, 9).value); }
    if p1.Done? && Payload(s, 10).Some? {
      CountersKeep(p1.ct, true, Payload(s, 10).value);
      KeepsTwice(c, p1.ct, p2);
    }
    if p2.Done? && Payload(s, 20).Some? {
      TimestampKeeps(p2.ct, Payload(s, 20).value);
      KeepsTwice(c, p2.ct, ParsedTimestamp(p2.ct, Payload(s, 20).value));
    }
  }

  // The old 32-bit counter wins over the 64-bit one, and the other direction
  // and everything else stay as they were.
  lemma CountersMean(c: Ct, r: bool, s: seq<Byte>)
    requires FaultOf(s, COUNTERS_MAX, COUNTERS_POLICY) == 0
    ensures var p64, b64 := Num64(s, COUNTERS_MAX, COUNTERS_POLICY, 1), Num64(s, COUNTERS_MAX, COUNTERS_POLICY, 2);
            var p32, b32 := Num(s, COUNTERS_MAX, COUNTERS_POLICY, 3), Num(s, COUNTERS_MAX, COUNTERS_POLICY, 4);
            var packets := if p32.Some? then p32 else p64;
            var bytes := if b32.Some? then b32 else b64;
            var p := ParsedCounters(c, r, s);
            && p.Done? && p.ct.Dir(!r) == c.Dir(!r)
            && p.ct.Dir(r) == c.Dir(r).(packets := if packets.Some? then packets.value else c.Dir(r).packets,
                                        bytes := if bytes.Some? then bytes.value else c.Dir(r).bytes)
            && p.ct == c.(orig := p.ct.orig, repl := p.ct.repl, mask := p.ct.mask)
            && p.ct.mask == c.mask + (if packets.Some? then {PACKETS + if r then REPL else 0} else {})
                                   + (if bytes.Some? then {BYTES + if r then REPL else 0} else {})
  {
    hide FaultOf; hide Num; hide Num64;
  }

  // A direction has the counters of its own attribute.
  ghost predicate CountersFrom(ct: Ct, r: bool, x: Opt<seq<Byte>>)
  {
    x.Some? ==>
      && FaultOf(x.value, 5, COUNTERS_POLICY) == 0
      && var p64, b64 := Num64(x.value, 5, COUNTERS_POLICY, 1), Num64(x.value, 5, COUNTERS_POLICY, 2);
         var p32, b32 := Num(x.value, 5, COUNTERS_POLICY, 3), Num(x.value, 5, COUNTERS_POLICY, 4);
         && (p32.Some? ==> ct.Dir(r).packets == p32.value) && (p32.None? && p64.Some? ==> ct.Dir(r).packets == p64.value)
         && (b32.Some? ==> ct.Dir(r).bytes == b32.value) && (b32.None? && b64.Some? ==> ct.Dir(r).bytes == b64.value)
  }

  lemma CountersStepMeans(p: Parsed, r: bool, x: Opt<seq<Byte>>)
    requires CountersStep(p, r, x).Done?
    ensures p.Done? && CountersFrom(CountersStep(p, r, x).ct, r, x) && CountersStep(p, r, x).ct.Dir(!r) == p.ct.Dir(!r)
  {
    hide FaultOf; hide Num; hide Num64; hide ParsedCounters;
    if x.Some? {
      if FaultOf(x.value, COUNTERS_MAX, COUNTERS_POLICY) == 0 {
        CountersMean(p.ct, r, x.value);
      } else {
        CountersFail(p.ct, r, x.value);
      }
    }
  }

  lemma StampKeepsDirs(c: Ct, x: Opt<seq<Byte>>)
    requires TimestampStep(Done(c), x).Done?
    ensures var d := TimestampStep(Done(c), x).ct; d.orig == c.orig && d.repl == c.repl
  {
    hide FaultOf; hide Num64;
  }

  // The counters of an accepted message: attribute 9 is the original
  // direction's, attribute 10 the reply's.
  lemma MessageCounters(msg: seq<Byte>)
    requires ParsedMessage(msg).Done?
    ensures var s, ct := AttrRegion(msg, 4), ParsedMessage(msg).ct;
            CountersFrom(ct, false, Payload(s, 9)) && CountersFrom(ct, true, Payload(s, 10))
  {
    hide FaultOf; hide ParsedScalars; hide Payload; hide AttrRegion; hide ProtoinfoStep; hide TupleStep;
    hide CountersStep; hide TimestampStep; hide CountersFrom;
    var s := AttrRegion(msg, 4);
    var p3 := ProtoinfoStep(TupleStep(TupleStep(Done(SetFamily(EMPTY, msg[16])), false, Payload(s, 1)), true, Payload(s, 2)),
                            Payload(s, 4));
    var p4 := CountersStep(Done(ParsedScalars(p3.ct, s)), false, Payload(s, 9));
    var p5 := CountersStep(p4, true, Payload(s, 10));
    StampFails(p5, Payload(s, 20));
    CountersStepMeans(p4, true, Payload(s, 10));
    CountersStepMeans(Done(ParsedScalars(p3.ct, s)), false, Payload(s, 9));
    StampKeepsDirs(p5.ct, Payload(s, 20));
    SameCounters(p4.ct, p5.ct, false, Payload(s, 9));
    SameCounters(p5.ct, ParsedMessage(msg).ct, false, Payload(s, 9));
    SameCounters(p5.ct, ParsedMessage(msg).ct, true, Payload(s, 10));
  }

  lemma StampFails(p: Parsed, x: Opt<seq<Byte>>)
    ensures p.Fail? ==> TimestampStep(p, x).Fail?
  {}

  lemma SameCounters(c: Ct, d: Ct, r: bool, x: Opt<seq<Byte>>)
    requires c.Dir(r) == d.Dir(r)
    ensures CountersFrom(c, r, x) == CountersFrom(d, r, x)
  {
    hide FaultOf; hide Num; hide Num64;
  }

  // Both ends of the timestamp, or nothing
  lemma TimestampMeans(c: Ct, s: seq<Byte>)
    requires FaultOf(s, TIMESTAMP_MAX, TIMESTAMP_POLICY) == 0
    ensures var start, stop := Payload(s, 1), Payload(s, 2);
            (start.Some? ==> |start.value| >= 8) && (stop.Some? ==> |stop.value| >= 8)
            && ParsedTimestamp(c, s)
               == Done(if start.None? || stop.None? then c
                       else c.(start := BigEndian(start.value[..8]), stop := BigEndian(stop.value[..8]), mask := c.mask + {26}))
  {
    hide FaultOf; hide Payload;
    if Payload(s, 1).Some? {
      PayloadLong(s, TIMESTAMP_MAX, TIMESTAMP_POLICY, 1);
      WideNumber(Payload(s, 1).value);
    }
    if Payload(s, 2).Some? {
      PayloadLong(s, TIMESTAMP_MAX, TIMESTAMP_POLICY, 2);
      WideNumber(Payload(s, 2).value);
    }
  }

  // A number in network order
  function BigEndian(s: seq<Byte>): nat
  {
    if s == [] then 0 else 0x100 * BigEndian(s[..|s| - 1]) + s[|s| - 1]
  }

  lemma WideNumber(s: seq<Byte>)
    requires |s| >= 8
    ensures Get64(s) == BigEndian(s[..8]) && Get32(s) == BigEndian(s[..4]) && Get16(s) == BigEndian(s[..2])
  {
    assert s[..2][..1] == s[..1] && s[..1][..0] == [] && s[..3][..2] == s[..2] && s[..4][..3] == s[..3];
    assert s[..5][..4] == s[..4] && s[..6][..5] == s[..5] && s[..7][..6] == s[..6] && s[..8][..7] == s[..7];
    assert BigEndian(s[..1]) == s[0] && BigEndian(s[..2]) == 0x100 * BigEndian(s[..1]) + s[1];
    assert BigEndian(s[..3]) == 0x100 * BigEndian(s[..2]) + s[2];
    assert BigEndian(s[..4]) == 0x100 * BigEndian(s[..3]) + s[3];
    assert BigEndian(s[..5]) == 0x100 * BigEndian(s[..4]) + s[4];
    assert BigEndian(s[..6]) == 0x100 * BigEndian(s[..5]) + s[5];
    assert BigEndian(s[..7]) == 0x100 * BigEndian(s[..6]) + s[6];
    assert BigEndian(s[..8]) == 0x100 * BigEndian(s[..7]) + s[7];
  }

  // The state of a TCP connection
  lemma TcpMeans(c: Ct, s: seq<Byte>)
    requires FaultOf(s, TCP_MAX, TCP_POLICY) == 0
    ensures var state := Payload(s, 1);
            (state.Some? ==> |state.value| >= 1)
            && ParsedTcp(c, s) == Done(if state.None? then c else c.(tcpState := state.value[0], mask := c.mask + {2}))
  {
    hide FaultOf; hide Payload;
    if Payload(s, 1).Some? { PayloadLong(s, TCP_MAX, TCP_POLICY, 1); }
  }

  // Each scalar comes from its own attribute, and the presence mask says which
  // were there.
  lemma ScalarsMean(c: Ct, s: seq<Byte>)
    requires FaultOf(s, CTA_MAX, CT_POLICY) == 0 && c.status == 0
    ensures var d := ParsedScalars(c, s);
            && d.status == (if ScalarNum(s, 3).Some? then ScalarNum(s, 3).value else 0)
            && d.timeout == (if ScalarNum(s, 7).Some? then ScalarNum(s, 7).value else c.timeout)
            && d.mark == (if ScalarNum(s, 8).Some? then ScalarNum(s, 8).value else c.mark)
            && d.use == (if ScalarNum(s, 11).Some? then ScalarNum(s, 11).value else c.use)
            && d.id == (if ScalarNum(s, 12).Some? then ScalarNum(s, 12).value else c.id)
            && d.zone == (if ScalarNum(s, 18).Some? then ScalarNum(s, 18).value else c.zone)
            && d == c.(status := d.status, timeout := d.timeout, mark := d.mark, use := d.use, id := d.id, zone := d.zone,
                       mask := d.mask)
            && d.mask == c.mask + (if ScalarNum(s, 3).Some? then {3} else {}) + (if ScalarNum(s, 7).Some? then {4} else {})
                         + (if ScalarNum(s, 8).Some? then {5} else {}) + (if ScalarNum(s, 11).Some? then {6} else {})
                         + (if ScalarNum(s, 12).Some? then {7} else {}) + (if ScalarNum(s, 18).Some? then {27} else {})
  {
    hide FaultOf; hide ScalarNum;
  }

  lemma CountersKeep(c: Ct, r: bool, s: seq<Byte>)
    ensures Keeps(c, ParsedCounters(c, r, s))
  {
    hide FaultOf; hide ParsedCounters;
    if FaultOf(s, COUNTERS_MAX, COUNTERS_POLICY) == 0 {
      CountersMean(c, r, s);
    } else {
      CountersFail(c, r, s);
    }
  }

  lemma CountersFail(c: Ct, r: bool, s: seq<Byte>)
    requires FaultOf(s, COUNTERS_MAX, COUNTERS_POLICY) != 0
    ensures ParsedCounters(c, r, s).Fail?
  {}

  lemma TimestampKeeps(c: Ct, s: seq<Byte>)
    ensures Keeps(c, ParsedTimestamp(c, s))
  {
    hide FaultOf; hide Num64;
  }

  lemma ScalarSound(c: Ct, v: nat)
    requires Sound(c) && v < 0x1_0000_0000
    ensures Sound(SetTimeout(c, v)) && Sound(SetMark(c, v)) && Sound(SetUse(c, v)) && Sound(SetId(c, v))
    ensures v < 0x1_0000 ==> Sound(SetZone(c, v))
    ensures c.status == 0 ==> Sound(SetStatus(c, v))
    ensures var fs := {SetTimeout(c, v), SetMark(c, v), SetUse(c, v), SetId(c, v), SetZone(c, v), SetStatus(c, v)};
            forall d :: d in fs ==> d.family == c.family
  {}

  // One scalar attribute, when it is there
  lemma ScalarStep(c: Ct, s: seq<Byte>, t: nat)
    requires Sound(c) && t in {3, 7, 8, 11, 12, 18} && FaultOf(s, CTA_MAX, CT_POLICY) == 0
    ensures var v := ScalarNum(s, t);
            v.Some? && t == 3 && c.status == 0 ==> Sound(SetStatus(c, v.value)) && SetStatus(c, v.value).family == c.family
    ensures var v := ScalarNum(s, t);
            v.Some? ==> && Sound(SetTimeout(c, v.value)) && SetTimeout(c, v.value).family == c.family
                        && Sound(SetMark(c, v.value)) && SetMark(c, v.value).family == c.family
                        && Sound(SetUse(c, v.value)) && SetUse(c, v.value).family == c.family
                        && Sound(SetId(c, v.value)) && SetId(c, v.value).family == c.family
                        && (t == 18 ==> Sound(SetZone(c, v.value)) && SetZone(c, v.value).family == c.family)
  {
    hide FaultOf; hide Num; hide Sound;
    NumWidth(s, CTA_MAX, CT_POLICY, t);
    var v := ScalarNum(s, t);
    if v.Some? { ScalarSound(c, v.value); }
  }

  lemma ScalarsSound(c: Ct, s: seq<Byte>)
    requires Sound(c) && c.status == 0 && FaultOf(s, CTA_MAX, CT_POLICY) == 0
    ensures Sound(ParsedScalars(c, s)) && ParsedScalars(c, s).family == c.family
  {
    hide FaultOf; hide ScalarNum; hide Sound;
    hide SetStatus; hide SetTimeout; hide SetMark; hide SetUse; hide SetId; hide SetZone;
    var c1 := Apply(c, ScalarNum(s, 3), SetStatus);
    ScalarStep(c, s, 3);
    var c2 := Apply(c1, ScalarNum(s, 7), SetTimeout);
    ScalarStep(c1, s, 7);
    var c3 := Apply(c2, ScalarNum(s, 8), SetMark);
    ScalarStep(c2, s, 8);
    var c4 := Apply(c3, ScalarNum(s, 11), SetUse);
    ScalarStep(c3, s, 11);
    var c5 := Apply(c4, ScalarNum(s, 12), SetId);
    ScalarStep(c4, s, 12);
    ScalarStep(c5, s, 18);
  }

  // Whatever the bytes are: a message that is accepted gives an entry of the
  // message's family, with addresses of that family only and every field within
  // its width.
  lemma ParsedSound(msg: seq<Byte>)
    requires ParsedMessage(msg).Done?
    ensures |msg| >= HEAD && Sound(ParsedMessage(msg).ct) && ParsedMessage(msg).ct.family == msg[16]
  {
    hide FaultOf; hide ParsedScalars; hide Payload; hide AttrRegion; hide ProtoinfoStep; hide TupleStep;
    hide CountersStep; hide TimestampStep;
    var s := AttrRegion(msg, 4);
    var c := SetFamily(EMPTY, msg[16]);
    FrontKeeps(c, s);
    var p3 := ProtoinfoStep(TupleStep(TupleStep(Done(c), false, Payload(s, 1)), true, Payload(s, 2)), Payload(s, 4));
    if p3.Done? {
      ScalarsSound(p3.ct, s);
      ExtrasKeep(ParsedScalars(p3.ct, s), s);
    }
  }
}
