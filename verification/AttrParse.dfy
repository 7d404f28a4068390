// Validating, indexing and searching an attribute stream of any bytes
// (lib/attr.c:189-334; lib/msg.c:145-223).

module AttrParse {
  import opened Bytes
  import opened AttrStream

  // ---------- policies ----------

  const NLA_UNSPEC := 0
  const NLA_STRING := 5
  const NLA_TYPE_MAX := 15

  // struct nla_policy
  datatype Policy = Policy(typ: nat, minlen: nat, maxlen: nat)

  // nla_attr_minlen
  function MinLen(typ: nat): nat
  {
    match typ
    case 1 => 1
    case 2 => 2
    case 3 => 4
    case 4 => 8
    case 5 => 1
    case _ => 0
  }

  const RANGE := 8          // NLE_RANGE
  const INVAL := 7          // NLE_INVAL
  const MSG_TOOSHORT := 21  // NLE_MSG_TOOSHORT

  // A policy array of maxtype + 1 entries, with types the library knows
  predicate PolicyOk(policy: seq<Policy>, maxtype: nat)
  {
    |policy| == maxtype + 1 && forall p :: p in policy ==> p.typ <= NLA_TYPE_MAX
  }

  // validate_nla: 0, or the negated error
  function Fault(s: seq<Byte>, a: Attr, maxtype: nat, policy: seq<Policy>): int
    requires PolicyOk(policy, maxtype) && HDRLEN <= a.len && a.off + a.len <= |s|
  {
    if TypeOf(a.raw) > maxtype then 0
    else
      var pt, len := policy[TypeOf(a.raw)], a.len - HDRLEN;
      var minlen := if pt.minlen != 0 then pt.minlen else if pt.typ != NLA_UNSPEC then MinLen(pt.typ) else 0;
      if len < minlen then -RANGE
      else if pt.maxlen != 0 && len > pt.maxlen then -RANGE
      else if pt.typ == NLA_STRING && s[a.off + a.len - 1] != 0 then -INVAL
      else 0
  }

  // What the code of one attribute says: its payload is shorter than the policy's
  // minlen, or than its type without one, or longer than its maxlen; or it is a
  // string whose last byte is not zero.
  lemma FaultMeans(s: seq<Byte>, a: Attr, maxtype: nat, policy: seq<Policy>)
    requires PolicyOk(policy, maxtype) && HDRLEN <= a.len && a.off + a.len <= |s|
    ensures var t, n := a.raw % 0x4000, a.len - 4;
            if t > maxtype then Fault(s, a, maxtype, policy) == 0
            else
              var p := policy[t];
              var short := n < (if p.minlen != 0 then p.minlen else if p.typ == 1 || p.typ == 5 then 1
                                else if p.typ == 2 then 2 else if p.typ == 3 then 4 else if p.typ == 4 then 8 else 0);
              && (Fault(s, a, maxtype, policy) == -8 <==> short || 0 < p.maxlen < n)
              && (Fault(s, a, maxtype, policy) == -7 <==>
                    !short && !(0 < p.maxlen < n) && p.typ == 5 && s[a.off + a.len - 1] != 0)
              && (Fault(s, a, maxtype, policy) == 0 <==>
                    !short && !(0 < p.maxlen < n) && (p.typ == 5 ==> s[a.off + a.len - 1] == 0))
  {}

  predicate InStream(s: seq<Byte>, attrs: seq<Attr>)
  {
    forall a :: a in attrs ==> HDRLEN <= a.len && a.off + a.len <= |s|
  }

  // The first attribute that does not meet the policy decides.
  function FirstFault(s: seq<Byte>, attrs: seq<Attr>, maxtype: nat, policy: seq<Policy>): int
    requires PolicyOk(policy, maxtype) && InStream(s, attrs)
  {
    if attrs == [] then 0
    else if Fault(s, attrs[0], maxtype, policy) != 0 then Fault(s, attrs[0], maxtype, policy)
    else FirstFault(s, attrs[1..], maxtype, policy)
  }

  // The last attribute of a type
  function LastOf(attrs: seq<Attr>, t: nat): (r: int)
    ensures r == -1 <==> forall a :: a in attrs ==> TypeOf(a.raw) != t
    ensures r >= -1
  {
    if attrs == [] then -1
    else
      assert attrs == attrs[..|attrs| - 1] + [attrs[|attrs| - 1]];
      if TypeOf(attrs[|attrs| - 1].raw) == t then attrs[|attrs| - 1].off
      else LastOf(attrs[..|attrs| - 1], t)
  }

  // The first attribute of a type
  function FirstOf(attrs: seq<Attr>, t: nat): (r: int)
    ensures r == -1 <==> forall a :: a in attrs ==> TypeOf(a.raw) != t
    ensures r >= -1
  {
    if attrs == [] then -1
    else if TypeOf(attrs[0].raw) == t then attrs[0].off
    else FirstOf(attrs[1..], t)
  }

  lemma {:induction false} LastOfIs(attrs: seq<Attr>, t: nat, i: nat)
    requires i < |attrs| && TypeOf(attrs[i].raw) == t
    requires forall j :: i < j < |attrs| ==> TypeOf(attrs[j].raw) != t
    ensures LastOf(attrs, t) == attrs[i].off
  {
    if i < |attrs| - 1 {
      LastOfIs(attrs[..|attrs| - 1], t, i);
    }
  }

  lemma {:induction false} FirstOfIs(attrs: seq<Attr>, t: nat, i: nat)
    requires i < |attrs| && TypeOf(attrs[i].raw) == t
    requires forall j :: 0 <= j < i ==> TypeOf(attrs[j].raw) != t
    ensures FirstOf(attrs, t) == attrs[i].off
  {
    if i > 0 {
      FirstOfIs(attrs[1..], t, i - 1);
    }
  }

  lemma {:induction false} FirstFaultIs(s: seq<Byte>, attrs: seq<Attr>, maxtype: nat, policy: seq<Policy>, i: nat)
    requires PolicyOk(policy, maxtype) && InStream(s, attrs) && i <= |attrs|
    requires forall j :: 0 <= j < i ==> Fault(s, attrs[j], maxtype, policy) == 0
    ensures i == |attrs| ==> FirstFault(s, attrs, maxtype, policy) == 0
    ensures i < |attrs| && Fault(s, attrs[i], maxtype, policy) != 0 ==>
      FirstFault(s, attrs, maxtype, policy) == Fault(s, attrs[i], maxtype, policy)
  {
    hide Fault;
    if i > 0 {
      FirstFaultIs(s, attrs[1..], maxtype, policy, i - 1);
    }
  }

  // Of the attributes of a stream the first n are as the policy asks, and the
  // next one, if there is one, decides the code: -8 for its length, -7 for a
  // string that is not terminated.
  lemma {:induction false} FirstFaultMeans(s: seq<Byte>, attrs: seq<Attr>, maxtype: nat, policy: seq<Policy>) returns (n: nat)
    requires PolicyOk(policy, maxtype) && InStream(s, attrs)
    ensures n <= |attrs| && (FirstFault(s, attrs, maxtype, policy) == 0 <==> n == |attrs|)
    ensures forall i :: 0 <= i < n ==>
      var a := attrs[i];
      a.raw % 0x4000 > maxtype ||
      var p, len := policy[a.raw % 0x4000], a.len - 4;
      && len >= (if p.minlen != 0 then p.minlen else if p.typ == 1 || p.typ == 5 then 1
                 else if p.typ == 2 then 2 else if p.typ == 3 then 4 else if p.typ == 4 then 8 else 0)
      && (p.maxlen == 0 || len <= p.maxlen) && (p.typ == 5 ==> s[a.off + a.len - 1] == 0)
    ensures n < |attrs| ==>
      var a := attrs[n];
      && a.raw % 0x4000 <= maxtype
      && var p, len := policy[a.raw % 0x4000], a.len - 4;
         var fits := && len >= (if p.minlen != 0 then p.minlen else if p.typ == 1 || p.typ == 5 then 1
                                else if p.typ == 2 then 2 else if p.typ == 3 then 4 else if p.typ == 4 then 8 else 0)
                     && (p.maxlen == 0 || len <= p.maxlen);
         && (!fits ==> FirstFault(s, attrs, maxtype, policy) == -8)
         && (fits ==> && p.typ == 5 && s[a.off + a.len - 1] != 0
                      && FirstFault(s, attrs, maxtype, policy) == -7)
  {
    hide Fault;
    if attrs == [] {
      n := 0;
    } else {
      FaultMeans(s, attrs[0], maxtype, policy);
      if Fault(s, attrs[0], maxtype, policy) != 0 {
        n := 0;
      } else {
        var k := FirstFaultMeans(s, attrs[1..], maxtype, policy);
        n := k + 1;
      }
    }
  }

  // ---------- the walk ----------

  // The walk stands at attribute i.
  ghost predicate At(s: seq<Byte>, attrs: seq<Attr>, pos: nat, rem: int, i: nat)
  {
    rem == |s| - pos && i <= |attrs| && Attrs(s, pos) == attrs[i..] && InStream(s, attrs)
  }

  lemma WalkStart(s: seq<Byte>)
    ensures At(s, Attrs(s, 0), 0, |s|, 0)
  {
    AttrsInside(s, 0);
    assert Attrs(s, 0)[0..] == Attrs(s, 0);
  }

  // One round of nla_for_each_attr
  lemma WalkStep(s: seq<Byte>, attrs: seq<Attr>, pos: nat, rem: int, i: nat)
    requires At(s, attrs, pos, rem, i)
    ensures AttrOk(s, pos, rem) <==> i < |attrs|
    ensures i < |attrs| ==>
      && attrs[i] == AttrAt(s, pos) && HDRLEN <= attrs[i].len && attrs[i].off + attrs[i].len <= |s|
      && Align(U16At(s, pos)) > 0
      && At(s, attrs, pos + Align(U16At(s, pos)), rem - Align(U16At(s, pos)), i + 1)
  {
    hide U16At;
    if i < |attrs| {
      assert attrs[i..][0] == attrs[i] && attrs[i..][1..] == attrs[i + 1..];
      assert attrs[i] in attrs;
      AlignBy(pos, U16At(s, pos));
    }
  }

  // nla_validate
  method Validate(s: seq<Byte>, maxtype: nat, policy: seq<Policy>) returns (err: int)
    requires PolicyOk(policy, maxtype)
    ensures InStream(s, Attrs(s, 0)) && err == FirstFault(s, Attrs(s, 0), maxtype, policy)
    ensures (err == 0 <==> AllAccepted(s, maxtype, policy)) && (err != 0 ==> err == -RANGE || err == -INVAL)
  {
    hide At; hide Fault; hide AttrAt; hide U16At; hide Attrs; hide PolicyOk; hide FirstFault; hide AllAccepted;
    ValidMeans(s, maxtype, policy);
    ghost var attrs, i := Attrs(s, 0), 0;
    WalkStart(s);
    InWalk(s, attrs, 0, |s|, 0);
    var pos, rem := 0, |s|;
    WalkStep(s, attrs, pos, rem, 0);
    while AttrOk(s, pos, rem)
      invariant 0 <= pos && i <= |attrs| && At(s, attrs, pos, rem, i) && rem == |s| - pos
      invariant AttrOk(s, pos, rem) <==> i < |attrs|
      invariant forall j :: 0 <= j < i ==> Fault(s, attrs[j], maxtype, policy) == 0
      decreases rem
    {
      WalkStep(s, attrs, pos, rem, i);
      err := Fault(s, AttrAt(s, pos), maxtype, policy);
      if err < 0 {
        FirstFaultIs(s, attrs, maxtype, policy, i);
        return;
      }
      NoFault(s, attrs[i], maxtype, policy);
      ghost var before := pos;
      pos, rem := pos + Align(U16At(s, pos)), rem - Align(U16At(s, pos));
      i := i + 1;
      WalkStep(s, attrs, pos, rem, i);
    }
    FirstFaultIs(s, attrs, maxtype, policy, i);
    err := 0;
  }

  // An attribute of a known type has a payload at least as long as asked, at most
  // as long as allowed, and with a zero byte at its end if it is a string.
  predicate Accepted(s: seq<Byte>, a: Attr, maxtype: nat, policy: seq<Policy>)
    requires PolicyOk(policy, maxtype) && HDRLEN <= a.len && a.off + a.len <= |s|
  {
    TypeOf(a.raw) > maxtype ||
    var p := policy[TypeOf(a.raw)];
    && a.len - HDRLEN >= (if p.minlen != 0 then p.minlen else if p.typ == 1 || p.typ == 5 then 1
                          else if p.typ == 2 then 2 else if p.typ == 3 then 4 else if p.typ == 4 then 8 else 0)
    && (p.maxlen == 0 || a.len - HDRLEN <= p.maxlen) && (p.typ == 5 ==> s[a.off + a.len - 1] == 0)
  }

  // Every attribute is as the policy asks.
  ghost predicate AllAccepted(s: seq<Byte>, maxtype: nat, policy: seq<Policy>)
    requires PolicyOk(policy, maxtype)
  {
    InStream(s, Attrs(s, 0)) && forall a :: a in Attrs(s, 0) ==> Accepted(s, a, maxtype, policy)
  }

  lemma ValidMeans(s: seq<Byte>, maxtype: nat, policy: seq<Policy>)
    requires PolicyOk(policy, maxtype)
    ensures InStream(s, Attrs(s, 0))
    ensures var err := FirstFault(s, Attrs(s, 0), maxtype, policy);
            (err == 0 <==> AllAccepted(s, maxtype, policy)) && (err != 0 ==> err == -RANGE || err == -INVAL)
  {
    hide Attrs; hide FirstFault; hide Accepted;
    AttrsInside(s, 0);
    StreamMeans(s, Attrs(s, 0), maxtype, policy);
  }

  lemma {:induction false} StreamMeans(s: seq<Byte>, attrs: seq<Attr>, maxtype: nat, policy: seq<Policy>)
    requires PolicyOk(policy, maxtype) && InStream(s, attrs)
    ensures var err := FirstFault(s, attrs, maxtype, policy);
            && (err == 0 <==> forall a :: a in attrs ==> Accepted(s, a, maxtype, policy))
            && (err != 0 ==> err == -RANGE || err == -INVAL)
  {
    hide Fault; hide Accepted; hide PolicyOk;
    if attrs != [] {
      AcceptedIff(s, attrs[0], maxtype, policy);
      StreamMeans(s, attrs[1..], maxtype, policy);
      assert attrs == [attrs[0]] + attrs[1..];
    }
  }

  lemma AcceptedIff(s: seq<Byte>, a: Attr, maxtype: nat, policy: seq<Policy>)
    requires PolicyOk(policy, maxtype) && HDRLEN <= a.len && a.off + a.len <= |s|
    ensures var err := Fault(s, a, maxtype, policy);
            (err == 0 <==> Accepted(s, a, maxtype, policy)) && (err != 0 ==> err == -RANGE || err == -INVAL)
  {
    FaultMeans(s, a, maxtype, policy);
  }

  lemma InWalk(s: seq<Byte>, attrs: seq<Attr>, pos: nat, rem: int, i: nat)
    requires At(s, attrs, pos, rem, i)
    ensures InStream(s, attrs)
  {}

  lemma NoFault(s: seq<Byte>, a: Attr, maxtype: nat, policy: seq<Policy>)
    requires PolicyOk(policy, maxtype) && HDRLEN <= a.len && a.off + a.len <= |s|
    ensures Fault(s, a, maxtype, policy) <= 0
  {}

  // nla_find
  method Find(s: seq<Byte>, t: nat) returns (r: int)
    ensures r == FirstOf(Attrs(s, 0), t)
  {
    hide At; hide U16At; hide Attrs; hide TypeOf;
    ghost var attrs, i := Attrs(s, 0), 0;
    WalkStart(s);
    var pos, rem := 0, |s|;
    WalkStep(s, attrs, pos, rem, 0);
    assert attrs[0..] == attrs;
    while AttrOk(s, pos, rem)
      invariant 0 <= pos && i <= |attrs| && At(s, attrs, pos, rem, i) && rem == |s| - pos
      invariant AttrOk(s, pos, rem) <==> i < |attrs|
      invariant FirstOf(attrs, t) == FirstOf(attrs[i..], t)
      decreases rem
    {
      WalkStep(s, attrs, pos, rem, i);
      assert attrs[i..][0] == attrs[i] && attrs[i..][1..] == attrs[i + 1..];
      if TypeOf(U16At(s, pos + 2)) == t {
        return pos;
      }
      pos, rem := pos + Align(U16At(s, pos)), rem - Align(U16At(s, pos));
      i := i + 1;
      WalkStep(s, attrs, pos, rem, i);
    }
    assert attrs[i..] == [];
    return -1;
  }

  // A policy, or none
  datatype PolicyArg = NoPolicy | With(policy: seq<Policy>)

  // What nla_parse returns
  function ParseFault(s: seq<Byte>, attrs: seq<Attr>, maxtype: nat, arg: PolicyArg): int
    requires (arg.With? ==> PolicyOk(arg.policy, maxtype)) && InStream(s, attrs)
  {
    match arg case NoPolicy => 0 case With(policy) => FirstFault(s, attrs, maxtype, policy)
  }

  // nla_parse: tb gets, for every type up to maxtype, the offset of its last
  // attribute, or -1 for a null pointer.
  method Parse(tb: array<int>, maxtype: nat, s: seq<Byte>, arg: PolicyArg) returns (err: int)
    requires tb.Length == maxtype + 1 && (arg.With? ==> PolicyOk(arg.policy, maxtype))
    modifies tb
    ensures InStream(s, Attrs(s, 0)) && err == ParseFault(s, Attrs(s, 0), maxtype, arg)
    ensures if arg.With? then (err == 0 <==> AllAccepted(s, maxtype, arg.policy)) && (err != 0 ==> err == -RANGE || err == -INVAL)
            else err == 0
    ensures err == 0 ==> forall t: nat :: t <= maxtype ==> tb[t] == LastOf(Attrs(s, 0), t)
  {
    hide At; hide Fault; hide AttrAt; hide U16At; hide Attrs; hide PolicyOk; hide FirstFault; hide LastOf; hide TypeOf;
    hide AllAccepted;
    if arg.With? { ValidMeans(s, maxtype, arg.policy); }
    ghost var attrs, i := Attrs(s, 0), 0;
    WalkStart(s);
    InWalk(s, attrs, 0, |s|, 0);
    forall t | 0 <= t < tb.Length { tb[t] := -1; }
    Indexed0(attrs, maxtype);
    var pos, rem := 0, |s|;
    WalkStep(s, attrs, pos, rem, 0);
    while AttrOk(s, pos, rem)
      invariant 0 <= pos && i <= |attrs| && At(s, attrs, pos, rem, i) && rem == |s| - pos
      invariant AttrOk(s, pos, rem) <==> i < |attrs|
      invariant arg.With? ==> forall j :: 0 <= j < i ==> Fault(s, attrs[j], maxtype, arg.policy) == 0
      invariant forall t: nat :: t <= maxtype ==> tb[t] == LastOf(attrs[..i], t)
      decreases rem
    {
      WalkStep(s, attrs, pos, rem, i);
      var typ := TypeAt(s, pos);
      if typ <= maxtype {
        if arg.With? {
          err := Fault(s, AttrAt(s, pos), maxtype, arg.policy);
          if err < 0 {
            FirstFaultIs(s, attrs, maxtype, arg.policy, i);
            return;
          }
          NoFault(s, attrs[i], maxtype, arg.policy);
        }
        tb[typ] := pos;
      } else if arg.With? {
        OverMax(s, attrs[i], maxtype, arg.policy, pos);
      }
      forall t: nat | t <= maxtype ensures tb[t] == LastOf(attrs[..i + 1], t) {
        LastOfMore(attrs, i, t, s, pos);
        if t == typ { assert tb[t] == pos; } else { assert tb[t] == LastOf(attrs[..i], t); }
      }
      pos, rem := pos + Align(U16At(s, pos)), rem - Align(U16At(s, pos));
      i := i + 1;
      WalkStep(s, attrs, pos, rem, i);
    }
    assert attrs[..i] == attrs;
    if arg.With? { FirstFaultIs(s, attrs, maxtype, arg.policy, i); }
    err := 0;
  }

  function TypeAt(s: seq<Byte>, pos: nat): nat
    requires pos + HDRLEN <= |s|
  {
    TypeOf(U16At(s, pos + 2))
  }

  lemma Indexed0(attrs: seq<Attr>, maxtype: nat)
    ensures forall t: nat :: t <= maxtype ==> LastOf(attrs[..0], t) == -1
  {}

  lemma LastOfMore(attrs: seq<Attr>, i: nat, t: nat, s: seq<Byte>, pos: nat)
    requires i < |attrs| && pos + HDRLEN <= |s| && attrs[i] == AttrAt(s, pos)
    ensures LastOf(attrs[..i + 1], t) == if TypeAt(s, pos) == t then pos else LastOf(attrs[..i], t)
  {
    hide U16At; hide TypeOf;
    assert attrs[..i + 1][..i] == attrs[..i];
  }

  lemma OverMax(s: seq<Byte>, a: Attr, maxtype: nat, policy: seq<Policy>, pos: nat)
    requires pos + HDRLEN <= |s| && a == AttrAt(s, pos) && TypeAt(s, pos) > maxtype
    requires PolicyOk(policy, maxtype) && HDRLEN <= a.len && a.off + a.len <= |s|
    ensures Fault(s, a, maxtype, policy) == 0
  {}

  // ---------- the attributes of a message ----------

  const MSG_HDRLEN := 16    // NLMSG_HDRLEN

  // nlmsg_attrdata and nlmsg_attrlen: what lies behind the family's header, in
  // a message of nlmsg_len bytes
  function AttrRegion(msg: seq<Byte>, hdrlen: nat): seq<Byte>
  {
    if MSG_HDRLEN + Align(hdrlen) <= |msg| then msg[MSG_HDRLEN + Align(hdrlen)..] else []
  }

  // nlmsg_parse
  method MsgParse(tb: array<int>, maxtype: nat, msg: seq<Byte>, hdrlen: nat, arg: PolicyArg) returns (err: int)
    requires tb.Length == maxtype + 1 && (arg.With? ==> PolicyOk(arg.policy, maxtype))
    modifies tb
    ensures |msg| < MSG_HDRLEN + hdrlen ==> err == -MSG_TOOSHORT && tb[..] == old(tb[..])
    ensures |msg| >= MSG_HDRLEN + hdrlen ==>
      var s := AttrRegion(msg, hdrlen);
      && InStream(s, Attrs(s, 0)) && err == ParseFault(s, Attrs(s, 0), maxtype, arg)
      && (err == 0 ==> forall t: nat :: t <= maxtype ==> tb[t] == LastOf(Attrs(s, 0), t))
  {
    if |msg| < MSG_HDRLEN + hdrlen {
      return -MSG_TOOSHORT;
    }
    err := Parse(tb, maxtype, AttrRegion(msg, hdrlen), arg);
  }
}
