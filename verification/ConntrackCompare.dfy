// Comparing connection tracking entries (lib/netfilter/ct_obj.c:301-352), and what
// it says of an entry that went through a message.

module ConntrackCompare {
  import opened Options
  import opened Conntrack
  import opened ConntrackRoundTrip
  import Addresses

  // ATTR_MISMATCH: present in one only, or in both and found different
  predicate Misses(a: Ct, b: Ct, attr: nat, differ: bool)
  {
    (attr in a.mask) != (attr in b.mask) || (attr in a.mask && attr in b.mask && differ)
  }

  // ATTR_DIFF
  function AttrDiff(attrs: set<nat>, attr: nat, a: Ct, b: Ct, differ: bool): set<nat>
  {
    if attr in attrs && Misses(a, b, attr, differ) then {attr} else {}
  }

  // An address as nl_addr_cmp sees it
  function Raw(a: Address): Addresses.Addr
  {
    Addresses.Addr(a.family, seq(|a.bytes|, i requires 0 <= i < |a.bytes| => a.bytes[i] as bv8), a.prefixlen)
  }

  // nl_addr_cmp of the two addresses is zero.
  predicate SameAddress(a: Opt<Address>, b: Opt<Address>)
  {
    match (a, b)
    case (Some(x), Some(y)) => Addresses.Cmp(Raw(x), Raw(y)) == 0
    case _ => a == b
  }

  lemma SameItself(a: Opt<Address>)
    ensures SameAddress(a, a)
  {
    if a.Some? { Addresses.CmpZero(Raw(a.value), Raw(a.value)); }
  }

  function DirDiff(attrs: set<nat>, a: Ct, b: Ct, r: bool): set<nat>
  {
    var x, y, off := a.Dir(r), b.Dir(r), if r then REPL else 0;
    AttrDiff(attrs, SRC + off, a, b, !SameAddress(x.src, y.src)) + AttrDiff(attrs, DST + off, a, b, !SameAddress(x.dst, y.dst))
    + AttrDiff(attrs, SRC_PORT + off, a, b, x.lo != y.lo) + AttrDiff(attrs, DST_PORT + off, a, b, x.hi != y.hi)
    + AttrDiff(attrs, ICMP_ID + off, a, b, x.lo != y.lo) + AttrDiff(attrs, ICMP_TYPE + off, a, b, IcmpType(x) != IcmpType(y))
    + AttrDiff(attrs, ICMP_CODE + off, a, b, IcmpCode(x) != IcmpCode(y))
    + AttrDiff(attrs, PACKETS + off, a, b, x.packets != y.packets) + AttrDiff(attrs, BYTES + off, a, b, x.bytes != y.bytes)
  }

  // ct_compare without LOOSE_COMPARISON.  There is no term for the zone or the
  // timestamp.
  function Compare(a: Ct, b: Ct, attrs: set<nat>): set<nat>
  {
    AttrDiff(attrs, FAMILY, a, b, a.family != b.family) + AttrDiff(attrs, PROTO, a, b, a.proto != b.proto)
    + AttrDiff(attrs, TCP_STATE, a, b, a.tcpState != b.tcpState) + AttrDiff(attrs, TIMEOUT, a, b, a.timeout != b.timeout)
    + AttrDiff(attrs, MARK, a, b, a.mark != b.mark) + AttrDiff(attrs, USE, a, b, a.use != b.use)
    + AttrDiff(attrs, ID, a, b, a.id != b.id)
    + DirDiff(attrs, a, b, false) + DirDiff(attrs, a, b, true)
    + AttrDiff(attrs, STATUS, a, b, a.status != b.status)
  }

  // What an attribute's value is, whatever it is compared for
  datatype Field = Number(n: nat) | Location(address: Opt<Address>)

  function DirField(d: Dir, attr: nat): Field
  {
    if attr == SRC then Location(d.src) else if attr == DST then Location(d.dst)
    else Number(if attr == SRC_PORT || attr == ICMP_ID then d.lo else if attr == DST_PORT then d.hi
                else if attr == ICMP_TYPE then IcmpType(d) else if attr == ICMP_CODE then IcmpCode(d)
                else if attr == PACKETS then d.packets else d.bytes)
  }

  function FieldOf(ct: Ct, attr: nat): Field
  {
    if attr == FAMILY then Number(ct.family) else if attr == PROTO then Number(ct.proto)
    else if attr == TCP_STATE then Number(ct.tcpState) else if attr == STATUS then Number(ct.status)
    else if attr == TIMEOUT then Number(ct.timeout) else if attr == MARK then Number(ct.mark)
    else if attr == USE then Number(ct.use) else if attr == ID then Number(ct.id)
    else if SRC <= attr <= BYTES then DirField(ct.orig, attr)
    else if SRC + REPL <= attr <= BYTES + REPL then DirField(ct.repl, attr - REPL)
    else Number(ct.zone)
  }

  predicate SameField(x: Field, y: Field)
  {
    match (x, y)
    case (Location(a), Location(b)) => SameAddress(a, b)
    case _ => x == y
  }

  // Present in one only, or in both with different values
  predicate Mismatch(a: Ct, b: Ct, attr: nat)
  {
    Misses(a, b, attr, !SameField(FieldOf(a, attr), FieldOf(b, attr)))
  }

  // The attributes up to the reply direction's last: the timestamp and the
  // zone come after it.
  predicate Compared(attr: nat)
  {
    attr <= BYTES + REPL
  }

  lemma AttrDiffIs(attrs: set<nat>, attr: nat, a: Ct, b: Ct, differ: bool, x: nat)
    ensures x in AttrDiff(attrs, attr, a, b, differ) <==> x == attr && x in attrs && Misses(a, b, x, differ)
  {}

  lemma DirDiffIs(a: Ct, b: Ct, attrs: set<nat>, r: bool, attr: nat)
    ensures attr in DirDiff(attrs, a, b, r)
            <==> var off := if r then REPL else 0;
                 SRC + off <= attr <= BYTES + off && attr in attrs && Misses(a, b, attr, !SameField(FieldOf(a, attr), FieldOf(b, attr)))
  {
    hide AttrDiff; hide SameAddress; hide IcmpType; hide IcmpCode; hide Misses;
    var x, y, off := a.Dir(r), b.Dir(r), if r then REPL else 0;
    AttrDiffIs(attrs, SRC + off, a, b, !SameAddress(x.src, y.src), attr);
    AttrDiffIs(attrs, DST + off, a, b, !SameAddress(x.dst, y.dst), attr);
    AttrDiffIs(attrs, SRC_PORT + off, a, b, x.lo != y.lo, attr);
    AttrDiffIs(attrs, DST_PORT + off, a, b, x.hi != y.hi, attr);
    AttrDiffIs(attrs, ICMP_ID + off, a, b, x.lo != y.lo, attr);
    AttrDiffIs(attrs, ICMP_TYPE + off, a, b, IcmpType(x) != IcmpType(y), attr);
    AttrDiffIs(attrs, ICMP_CODE + off, a, b, IcmpCode(x) != IcmpCode(y), attr);
    AttrDiffIs(attrs, PACKETS + off, a, b, x.packets != y.packets, attr);
    AttrDiffIs(attrs, BYTES + off, a, b, x.bytes != y.bytes, attr);
    if SRC + off <= attr <= BYTES + off {
      FieldAt(a, r, attr - off);
      FieldAt(b, r, attr - off);
    }
  }

  lemma FieldAt(ct: Ct, r: bool, attr: nat)
    requires SRC <= attr <= BYTES
    ensures FieldOf(ct, attr + if r then REPL else 0) == DirField(ct.Dir(r), attr)
  {}

  // The comparison reports exactly the mismatches among the compared attributes.
  lemma CompareIs(a: Ct, b: Ct, attrs: set<nat>, attr: nat)
    ensures attr in Compare(a, b, attrs) <==> Compared(attr) && attr in attrs && Mismatch(a, b, attr)
  {
    hide AttrDiff; hide DirDiff; hide SameAddress; hide DirField; hide Misses;
    DirDiffIs(a, b, attrs, false, attr);
    DirDiffIs(a, b, attrs, true, attr);
    AttrDiffIs(attrs, FAMILY, a, b, a.family != b.family, attr);
    AttrDiffIs(attrs, PROTO, a, b, a.proto != b.proto, attr);
    AttrDiffIs(attrs, TCP_STATE, a, b, a.tcpState != b.tcpState, attr);
    AttrDiffIs(attrs, TIMEOUT, a, b, a.timeout != b.timeout, attr);
    AttrDiffIs(attrs, MARK, a, b, a.mark != b.mark, attr);
    AttrDiffIs(attrs, USE, a, b, a.use != b.use, attr);
    AttrDiffIs(attrs, ID, a, b, a.id != b.id, attr);
    AttrDiffIs(attrs, STATUS, a, b, a.status != b.status, attr);
  }

  // Entries that differ in nothing but the zone and the timestamp compare as equal.
  lemma ZoneUnseen(a: Ct, zone: nat, start: nat, stop: nat, attrs: set<nat>)
    ensures var b := a.(zone := zone, start := start, stop := stop, mask := a.mask + {ZONE, TIMESTAMP});
            Compare(a, b, attrs) == {}
  {
    var b := a.(zone := zone, start := start, stop := stop, mask := a.mask + {ZONE, TIMESTAMP});
    hide Compare; hide Mismatch; hide Compared;
    forall attr | attr in Compare(a, b, attrs) ensures false {
      CompareIs(a, b, attrs, attr);
      SameBelow(a, b, attr);
    }
  }

  lemma SameBelow(a: Ct, b: Ct, attr: nat)
    requires b == a.(zone := b.zone, start := b.start, stop := b.stop, mask := a.mask + {ZONE, TIMESTAMP})
    requires Compared(attr)
    ensures !Mismatch(a, b, attr)
  {
    hide IcmpType; hide IcmpCode; hide SameAddress;
    SameFieldItself(FieldOf(a, attr));
  }

  lemma SameFieldItself(x: Field)
    ensures SameField(x, x)
  {
    hide SameAddress;
    if x.Location? { SameItself(x.address); }
  }

  // Of an entry that was built into a message and parsed, the comparison
  // misses exactly the attributes that the builder does not emit.
  lemma CompareCopied(ct: Ct, attrs: set<nat>, attr: nat)
    requires IpEntry(ct)
    ensures attr in Compare(Copied(ct), ct, attrs) <==> Compared(attr) && attr in attrs && attr in ct.mask && attr !in Emitted(ct)
  {
    hide Copied; hide Compare; hide Emitted; hide IpEntry; hide IcmpType; hide IcmpCode; hide ReplyEmitted;
    var c := Copied(ct);
    CompareIs(c, ct, attrs, attr);
    CopiedAgrees(ct);
    if attr in Emitted(ct) {
      EmittedAttr(ct, attr);
      AgreedField(c, ct, attr);
    }
  }

  // Every emitted attribute is a scalar, or belongs to a direction that was
  // emitted.
  lemma EmittedAttr(ct: Ct, attr: nat)
    requires attr in Emitted(ct)
    ensures attr in ct.mask
    ensures attr in {FAMILY, PROTO, STATUS, TIMEOUT, MARK, ID, ZONE} || SRC <= attr <= ICMP_CODE
            || (ReplyEmitted(ct) && SRC + REPL <= attr <= ICMP_CODE + REPL)
  {}

  lemma AgreedField(c: Ct, ct: Ct, attr: nat)
    requires attr in Emitted(ct) && attr in c.mask && ScalarsAgree(c, ct)
    requires DirAgrees(c, ct, false) && (ReplyEmitted(ct) ==> DirAgrees(c, ct, true))
    ensures attr != ZONE ==> SameField(FieldOf(c, attr), FieldOf(ct, attr))
  {
    hide IcmpType; hide IcmpCode; hide ReplyEmitted; hide Emitted; hide DirAgrees; hide FieldOf; hide DirField;
    EmittedAttr(ct, attr);
    if SRC <= attr <= ICMP_CODE {
      AgreedIn(c, ct, false, attr);
    } else if SRC + REPL <= attr <= ICMP_CODE + REPL {
      AgreedIn(c, ct, true, attr - REPL);
    } else {
      ScalarField(c, ct, attr);
    }
  }

  lemma AgreedIn(c: Ct, ct: Ct, r: bool, attr: nat)
    requires SRC <= attr <= ICMP_CODE && ct.Has(r, attr) && DirAgrees(c, ct, r)
    ensures var at := attr + if r then REPL else 0;
            SameField(FieldOf(c, at), FieldOf(ct, at))
  {
    hide IcmpType; hide IcmpCode; hide SameAddress;
    SameItself(ct.Dir(r).src);
    SameItself(ct.Dir(r).dst);
    FieldAt(c, r, attr);
    FieldAt(ct, r, attr);
  }

  lemma ScalarField(c: Ct, ct: Ct, attr: nat)
    requires attr in {FAMILY, PROTO, STATUS, TIMEOUT, MARK, ID, ZONE} && attr in ct.mask && ScalarsAgree(c, ct)
    ensures FieldOf(c, attr) == FieldOf(ct, attr)
  {}
}
