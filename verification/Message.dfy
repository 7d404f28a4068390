// Writing attributes into a message buffer, with padding, back-patched lengths
// and cancellation (lib/attr.c:457-521, 903-1006; lib/msg.c:112-115, 411-461).

module Message {
  import opened Bytes
  import opened AttrStream
  import WordBits

  const NOMEM := 5       // NLE_NOMEM
  const INVAL := 7       // NLE_INVAL
  const ATTRSIZE := 34   // NLE_ATTRSIZE

  // s with t in place of what was at pos
  function Write(s: seq<Byte>, pos: nat, t: seq<Byte>): (r: seq<Byte>)
    requires pos + |t| <= |s|
    ensures |r| == |s|
  {
    s[..pos] + t + s[pos + |t|..]
  }

  // struct nl_msg: buf is the message in nm_nlh, header included, of nm_size
  // bytes, and len is nlmsg_len.  The other header fields do not matter here.
  class NlMsg {
    const buf: array<Byte>
    var len: nat

    // __nlmsg_alloc
    constructor (size: nat)
      requires size < 0x8000_0000
      ensures Valid() && Aligned() && len == 16 && fresh(buf) && buf.Length == (if size < 16 then 16 else size)
      ensures forall i :: 0 <= i < buf.Length ==> buf[i] == 0
    {
      buf := new Byte[if size < 16 then 16 else size](_ => 0);
      len := 16;
    }

    // Lengths are within the C type int.
    ghost predicate Valid()
      reads this
    {
      len <= buf.Length < 0x8000_0000
    }

    ghost predicate Aligned()
      reads this
    {
      len % 4 == 0
    }
  }

  // nlmsg_tail
  function Tail(m: NlMsg): nat
    reads m
  {
    Align(m.len)
  }

  // memcpy or memset into the buffer
  method WriteAt(buf: array<Byte>, pos: nat, t: seq<Byte>)
    requires pos + |t| <= buf.Length
    modifies buf
    ensures buf[..] == Write(old(buf[..]), pos, t)
  {
    ghost var s := buf[..];
    var i := 0;
    while i < |t|
      invariant 0 <= i <= |t|
      invariant buf[..] == s[..pos] + t[..i] + s[pos + i..]
    {
      buf[pos + i] := t[i];
      i := i + 1;
    }
    assert t[..i] == t;
  }

  // ---------- plain attributes ----------

  // The stored length of an attribute: nla_len has 16 bits.
  function StoredLen(attrlen: nat): (n: nat)
    ensures n < 0x1_0000
  {
    (HDRLEN + attrlen) % 0x1_0000
  }

  // nla_total_size
  function TotalSize(attrlen: nat): nat
  {
    Align(HDRLEN + attrlen)
  }

  predicate Fits(m: NlMsg, attrlen: nat)
    reads m
  {
    Align(m.len) + TotalSize(attrlen) <= m.buf.Length
  }

  // The buffer after nla_reserve: the header is written, and padding is zeroed
  // behind the stored length.
  function Reserved(s: seq<Byte>, pos: nat, attrtype: nat, attrlen: nat): (r: seq<Byte>)
    requires pos + TotalSize(attrlen) <= |s|
    ensures |r| == |s|
  {
    var hdr := Write(s, pos, U16Bytes(StoredLen(attrlen)) + U16Bytes(attrtype % 0x1_0000));
    if attrlen == 0 then hdr
    else
      StoredInside(attrlen);
      Write(hdr, pos + StoredLen(attrlen), Zeros(TotalSize(attrlen) - (HDRLEN + attrlen)))
  }

  lemma StoredInside(attrlen: nat)
    ensures StoredLen(attrlen) + (TotalSize(attrlen) - (HDRLEN + attrlen)) <= TotalSize(attrlen)
  {}

  // nla_reserve: the start of the attribute, or -1 for a null pointer
  method Reserve(m: NlMsg, attrtype: nat, attrlen: int) returns (pos: int)
    requires m.Valid()
    modifies m`len, m.buf
    ensures m.Valid()
    ensures if attrlen >= 0 && old(Fits(m, attrlen)) then
              && pos == old(Tail(m)) && m.len == pos + TotalSize(attrlen)
              && m.buf[..] == Reserved(old(m.buf[..]), pos, attrtype, attrlen)
            else pos == -1 && m.len == old(m.len) && m.buf[..] == old(m.buf[..])
  {
    if attrlen < 0 {
      return -1;
    }
    var tlen := Align(m.len) + TotalSize(attrlen);
    if tlen > m.buf.Length {
      return -1;
    }
    pos := Align(m.len);
    WriteAt(m.buf, pos, U16Bytes(StoredLen(attrlen)) + U16Bytes(attrtype % 0x1_0000));
    if attrlen != 0 {
      StoredInside(attrlen);
      WriteAt(m.buf, pos + StoredLen(attrlen), Zeros(TotalSize(attrlen) - (HDRLEN + attrlen)));
    }
    m.len := tlen;
  }

  // nla_put
  method Put(m: NlMsg, attrtype: nat, data: seq<Byte>) returns (err: int)
    requires m.Valid()
    modifies m`len, m.buf
    ensures m.Valid() && (err == 0 <==> old(Fits(m, |data|)))
    ensures err != 0 ==> err == -NOMEM && m.len == old(m.len) && m.buf[..] == old(m.buf[..])
    ensures err == 0 ==>
      && m.len == old(Tail(m)) + TotalSize(|data|)
      && m.buf[..] == Write(Reserved(old(m.buf[..]), old(Tail(m)), attrtype, |data|), old(Tail(m)) + HDRLEN, data)
  {
    hide Reserved; hide TotalSize; hide Align;
    var pos := Reserve(m, attrtype, |data|);
    if pos < 0 {
      return -NOMEM;
    }
    PutInside(m, |data|);
    if |data| > 0 {
      WriteAt(m.buf, pos + HDRLEN, data);
    }
    err := 0;
    assert data == [] ==> Write(m.buf[..], pos + HDRLEN, data) == m.buf[..];
  }

  lemma PutInside(m: NlMsg, n: nat)
    ensures HDRLEN + n <= TotalSize(n)
  {}

  // A payload the header's length can hold comes out as one whole attribute.
  lemma PutBytes(s: seq<Byte>, pos: nat, attrtype: nat, data: seq<Byte>)
    requires attrtype < 0x1_0000 && HDRLEN + |data| <= USHRT_MAX && pos + TotalSize(|data|) <= |s|
    ensures TotalSize(|data|) == |AttrBytes(attrtype, data)|
    ensures Write(Reserved(s, pos, attrtype, |data|), pos + HDRLEN, data) == Write(s, pos, AttrBytes(attrtype, data))
  {
    hide Align; hide U16Bytes; hide Write; hide Reserved;
    var n, pad := |data|, TotalSize(|data|) - (HDRLEN + |data|);
    var hdr := U16Bytes(HDRLEN + n) + U16Bytes(attrtype);
    PadOf(n);
    ReservedShort(s, pos, attrtype, n);
    assert AttrBytes(attrtype, data) == hdr + data + Zeros(pad);
    WriteTwice(s, pos, hdr, data, Zeros(pad));
  }

  lemma ReservedShort(s: seq<Byte>, pos: nat, attrtype: nat, n: nat)
    requires attrtype < 0x1_0000 && HDRLEN + n <= USHRT_MAX && pos + TotalSize(n) <= |s| && HDRLEN + n <= TotalSize(n)
    ensures Reserved(s, pos, attrtype, n)
            == Write(Write(s, pos, U16Bytes(HDRLEN + n) + U16Bytes(attrtype)), pos + HDRLEN + n,
                     Zeros(TotalSize(n) - (HDRLEN + n)))
  {
    hide Align; hide U16Bytes; hide Write; hide StoredLen; hide TotalSize;
    PadOf(n);
    SmallType(attrtype);
    if n == 0 {
      WriteNothing(Write(s, pos, U16Bytes(HDRLEN) + U16Bytes(attrtype)), pos + HDRLEN);
    }
  }

  lemma SmallType(t: nat)
    requires t < 0x1_0000
    ensures t % 0x1_0000 == t
  {}

  lemma PadOf(n: nat)
    requires HDRLEN + n <= USHRT_MAX
    ensures StoredLen(n) == HDRLEN + n && TotalSize(n) == HDRLEN + Align(n) && (n == 0 ==> TotalSize(n) == HDRLEN)
  {}

  lemma WriteNothing(s: seq<Byte>, pos: nat)
    requires pos <= |s|
    ensures Write(s, pos, []) == s && Zeros(0) == []
  {}

  // Writing the parts one by one, the last one first, is writing all of them.
  lemma WriteTwice(s: seq<Byte>, pos: nat, a: seq<Byte>, b: seq<Byte>, c: seq<Byte>)
    requires pos + |a| + |b| + |c| <= |s|
    ensures Write(Write(Write(s, pos, a), pos + |a| + |b|, c), pos + |a|, b) == Write(s, pos, a + b + c)
  {}

  // The stored length is the attribute's length exactly for payloads of up to
  // 65531 bytes.
  lemma StoredLenExact(attrlen: nat)
    ensures StoredLen(attrlen) == HDRLEN + attrlen <==> attrlen <= 65531
  {}

  // ---------- other data ----------

  // The room that n bytes take: (n + (pad - 1)) & ~(pad - 1)
  function Padded(n: nat, pad: nat): (r: nat)
    ensures n <= r && (pad == 0 ==> r == n) && (pad > 0 ==> r < n + pad)
  {
    if pad == 0 then n else WordBits.AndNot(n + (pad - 1), pad - 1)
  }

  // For the padding the library uses that is the alignment.
  lemma PaddedToFour(n: nat)
    ensures Padded(n, 4) == Align(n)
  {
    WordBits.ClearTwo(n + 3);
  }

  // nlmsg_reserve: where the data goes, or -1 for a null pointer.  Only the
  // padding asked for is zeroed.
  method MsgReserve(m: NlMsg, n: nat, pad: nat) returns (pos: int)
    requires m.Valid()
    modifies m`len, m.buf
    ensures m.Valid()
    ensures var tlen := Padded(n, pad);
            if n <= m.buf.Length && old(m.len) + tlen <= m.buf.Length then
              && pos == old(m.len) && m.len == old(m.len) + tlen
              && m.buf[..] == Write(old(m.buf[..]), pos + n, Zeros(tlen - n))
            else pos == -1 && m.len == old(m.len) && m.buf[..] == old(m.buf[..])
  {
    if n > m.buf.Length {
      return -1;
    }
    var tlen := Padded(n, pad);
    if tlen + m.len > m.buf.Length {
      return -1;
    }
    pos := m.len;
    m.len := m.len + tlen;
    if tlen > n {
      WriteAt(m.buf, pos + n, Zeros(tlen - n));
    } else {
      WriteNothing(m.buf[..], pos + n);
    }
  }

  // nlmsg_append
  method Append(m: NlMsg, data: seq<Byte>, pad: nat) returns (err: int)
    requires m.Valid()
    modifies m`len, m.buf
    ensures m.Valid()
    ensures var tlen := Padded(|data|, pad);
            if |data| <= m.buf.Length && old(m.len) + tlen <= m.buf.Length then
              && err == 0 && m.len == old(m.len) + tlen
              && m.buf[..] == Write(old(m.buf[..]), old(m.len), data + Zeros(tlen - |data|))
            else err == -NOMEM && m.len == old(m.len) && m.buf[..] == old(m.buf[..])
  {
    hide Write;
    ghost var s := m.buf[..];
    var pos := MsgReserve(m, |data|, pad);
    if pos < 0 {
      return -NOMEM;
    }
    WriteAt(m.buf, pos, data);
    WriteBoth(s, pos, data, Zeros(m.len - pos - |data|));
    err := 0;
  }

  lemma WriteBoth(s: seq<Byte>, pos: nat, a: seq<Byte>, b: seq<Byte>)
    requires pos + |a| + |b| <= |s|
    ensures Write(Write(s, pos + |a|, b), pos, a) == Write(s, pos, a + b)
  {}

  // ---------- nested attributes ----------

  // nla_nest_cancel: the attribute's start is given, everything from it to the
  // tail is zeroed.  The length is the start again exactly when the message
  // was aligned.
  method NestCancel(m: NlMsg, start: nat)
    requires m.Valid() && 16 <= start <= Tail(m) <= m.buf.Length && start % 4 == 0
    modifies m`len, m.buf
    ensures m.Valid() && m.len == old(m.len) - (old(Tail(m)) - start)
    ensures m.len == start <==> old(m.Aligned())
    ensures m.buf[..] == Write(old(m.buf[..]), start, Zeros(old(Tail(m)) - start))
  {
    var n := Tail(m) - start;
    if n > 0 {
      m.len := m.len - n;
      assert Tail(m) == start;
      WriteAt(m.buf, Tail(m), Zeros(n));
    } else {
      WriteNothing(m.buf[..], start);
    }
  }

  // nla_nest_start: an attribute header with the flag and no payload yet
  method NestStart(m: NlMsg, attrtype: nat) returns (start: int)
    requires m.Valid() && attrtype < TYPES
    modifies m`len, m.buf
    ensures m.Valid()
    ensures if old(Fits(m, 0)) then
              && start == old(Tail(m)) && m.len == start + HDRLEN
              && m.buf[..] == Write(old(m.buf[..]), start, AttrBytes(NESTED + attrtype, []))
            else start == -1 && m.len == old(m.len) && m.buf[..] == old(m.buf[..])
  {
    hide Reserved; hide AttrBytes;
    start := Tail(m);
    ghost var s := m.buf[..];
    var err := Put(m, NESTED + attrtype, []);
    if err < 0 {
      return -1;
    }
    PutBytes(s, start, NESTED + attrtype, []);
  }

  // How ending a nest turns out
  datatype NestResult = Kept | Dropped | TooLong

  function NestOutcome(n: nat, keepEmpty: bool): NestResult
  {
    if n > USHRT_MAX then TooLong else if !keepEmpty && n == HDRLEN then Dropped else Kept
  }

  // _nest_end: the length is filled in, or the nest is cancelled because it is
  // empty or longer than its header can say.  Its BUG() is its precondition:
  // the padding behind the nest's last attribute must have room.
  method NestEnd(m: NlMsg, start: nat, keepEmpty: bool) returns (err: int)
    requires m.Valid() && 16 <= start && start % 4 == 0 && start + HDRLEN <= Tail(m) <= m.buf.Length
    modifies m`len, m.buf
    ensures m.Valid()
    ensures var n := old(Tail(m)) - start;
            match NestOutcome(n, keepEmpty)
            case Kept => err == 0 && m.len == old(Tail(m)) && m.buf[..] == Write(old(m.buf[..]), start, U16Bytes(n))
            case Dropped => && err == 0 && (m.len == start <==> old(m.Aligned()))
                            && m.buf[..] == Write(old(m.buf[..]), start, Zeros(n))
            case TooLong => && err == -ATTRSIZE && (m.len == start <==> old(m.Aligned()))
                            && m.buf[..] == Write(old(m.buf[..]), start, Zeros(n))
  {
    hide Write;
    var n := Tail(m) - start;
    if n > USHRT_MAX || (!keepEmpty && n == HDRLEN) {
      NestCancel(m, start);
      return if n == HDRLEN then 0 else -ATTRSIZE;
    }
    WriteAt(m.buf, start, U16Bytes(n));
    var pad := Align(m.len) - m.len;
    if pad > 0 {
      ghost var w := m.buf[..];
      var p := MsgReserve(m, pad, 0);
      WriteNothing(w, p + pad);
    }
    err := 0;
  }

  // ---------- whole trees ----------

  // The message holds what it held, then these attributes; behind them nothing
  // changed that is not zero now.
  ghost predicate Grown(s: seq<Byte>, from: nat, s': seq<Byte>, added: seq<Byte>)
  {
    && |s'| == |s| && from + |added| <= |s|
    && s'[..from] == s[..from] && s'[from..from + |added|] == added
    && (forall i :: from + |added| <= i < |s| ==> s'[i] == s[i] || s'[i] == 0)
  }

  lemma GrownBy(s: seq<Byte>, from: nat, s1: seq<Byte>, a: seq<Byte>, s2: seq<Byte>, b: seq<Byte>)
    requires Grown(s, from, s1, a) && Grown(s1, from + |a|, s2, b)
    ensures Grown(s, from, s2, a + b)
  {
    assert s2[from..from + |a|] == s2[..from + |a|][from..] == s1[..from + |a|][from..] == a;
    assert s2[from..from + |a + b|] == s2[from..from + |a|] + s2[from + |a|..from + |a| + |b|];
    assert s2[..from] == s2[..from + |a|][..from] == s1[..from + |a|][..from] == s1[..from];
  }

  lemma GrownWrite(s: seq<Byte>, from: nat, t: seq<Byte>)
    requires from + |t| <= |s|
    ensures Grown(s, from, Write(s, from, t), t)
  {}

  // Filling in a nest's length makes its header and its content one attribute.
  lemma GrownNest(s: seq<Byte>, from: nat, s1: seq<Byte>, raw: nat, body: seq<Byte>)
    requires raw < 0x1_0000 && HDRLEN + |body| <= USHRT_MAX && |body| % 4 == 0
    requires Grown(s, from, s1, AttrBytes(raw, []) + body)
    ensures from + 2 <= |s1|
    ensures Grown(s, from, Write(s1, from, U16Bytes(HDRLEN + |body|)), AttrBytes(raw, body))
  {
    hide U16Bytes;
    var old', new' := AttrBytes(raw, []) + body, AttrBytes(raw, body);
    var l, r := U16Bytes(HDRLEN + |body|), U16Bytes(raw);
    var s2 := Write(s1, from, l);
    assert new' == l + r + body;
    assert old' == U16Bytes(HDRLEN) + r + body;
    assert s2[from..from + |new'|] == l + s1[from..from + |old'|][2..];
    assert s2[..from] == s1[..from];
  }

  // Cancelling leaves zeros behind the message.
  lemma GrownCancel(s: seq<Byte>, from: nat, s1: seq<Byte>, t: seq<Byte>)
    requires Grown(s, from, s1, t)
    ensures Grown(s, from, Write(s1, from, Zeros(|t|)), [])
  {
    var s2 := Write(s1, from, Zeros(|t|));
    assert s2[..from] == s1[..from];
  }

  // The attributes that trees come out as
  function Built(ts: seq<Tree>, keepEmpty: bool): seq<Tree>
  {
    if keepEmpty then ts else PruneAll(ts)
  }

  // What can be built: types fit below the flags, and payloads fit their
  // header, those of nests once their own empty nests are dropped.
  predicate Buildable(t: Tree, keepEmpty: bool)
    decreases t
  {
    match t
    case Leaf(typ, data) => typ < TYPES && HDRLEN + |data| <= USHRT_MAX
    case Nest(typ, kids) =>
      typ < TYPES && AllBuildable(kids, keepEmpty) && HDRLEN + SizeAll(Built(kids, keepEmpty)) <= USHRT_MAX
  }

  predicate AllBuildable(ts: seq<Tree>, keepEmpty: bool)
    decreases ts
  {
    ts == [] || (Buildable(ts[0], keepEmpty) && AllBuildable(ts[1..], keepEmpty))
  }

  // How far the message grows at most while a tree is built: empty nests take
  // room until they are dropped.
  function Peak(t: Tree, keepEmpty: bool): nat
    decreases t
  {
    match t
    case Leaf(_, _) => Size(t)
    case Nest(_, kids) => HDRLEN + PeakAll(kids, keepEmpty)
  }

  function PeakAll(ts: seq<Tree>, keepEmpty: bool): nat
    decreases ts
  {
    if ts == [] then 0
    else
      var front := ts[..|ts| - 1];
      Max(PeakAll(front, keepEmpty), SizeAll(Built(front, keepEmpty)) + Peak(ts[|ts| - 1], keepEmpty))
  }

  function Max(a: nat, b: nat): nat
  {
    if a < b then b else a
  }

  // What is built comes out proper.
  lemma {:induction false} BuildableProper(ts: seq<Tree>, keepEmpty: bool)
    requires AllBuildable(ts, keepEmpty)
    ensures AllProper(Built(ts, keepEmpty))
    decreases ts
  {
    if ts != [] {
      BuildableProper(ts[1..], keepEmpty);
      match ts[0] {
        case Leaf(_, _) =>
        case Nest(typ, kids) => BuildableProper(kids, keepEmpty);
      }
      if !keepEmpty {
        PrunedFirst(ts);
      }
    }
  }

  lemma PrunedFirst(ts: seq<Tree>)
    requires ts != [] && AllBuildable(ts, false) && AllProper(PruneAll(ts[1..]))
    requires ts[0].Nest? ==> AllProper(PruneAll(ts[0].kids))
    ensures AllProper(PruneAll(ts))
  {
    var rest := PruneAll(ts[1..]);
    if Prune(ts[0]) == [] {
      assert [] + rest == rest;
    } else {
      var t := Prune(ts[0])[0];
      assert Prune(ts[0]) == [t] && ([t] + rest)[1..] == rest;
      assert Proper(t);
    }
  }

  // Trees that are proper as they stand can be built, with or without dropping.
  lemma {:induction false} ProperBuildable(ts: seq<Tree>, keepEmpty: bool)
    requires AllProper(ts)
    ensures AllBuildable(ts, keepEmpty)
    decreases ts
  {
    if ts != [] {
      ProperBuildable(ts[1..], keepEmpty);
      if ts[0].Nest? {
        ProperBuildable(ts[0].kids, keepEmpty);
        PruneAllProper(ts[0].kids);
      }
    }
  }

  lemma {:induction false} BuildableMember(ts: seq<Tree>, keepEmpty: bool, i: nat)
    requires AllBuildable(ts, keepEmpty) && i < |ts|
    ensures Buildable(ts[i], keepEmpty)
  {
    if i > 0 { BuildableMember(ts[1..], keepEmpty, i - 1); }
  }

  lemma {:induction false} BuildableFront(ts: seq<Tree>, keepEmpty: bool, i: nat)
    requires AllBuildable(ts, keepEmpty) && i <= |ts|
    ensures AllBuildable(ts[..i], keepEmpty)
  {
    if i > 0 {
      BuildableFront(ts[1..], keepEmpty, i - 1);
      assert ts[..i][1..] == ts[1..][..i - 1];
    }
  }

  // One tree more
  lemma BuiltMore(ts: seq<Tree>, i: nat, keepEmpty: bool)
    requires AllBuildable(ts, keepEmpty) && i < |ts|
    ensures Buildable(ts[i], keepEmpty) && AllProper(Built(ts[..i], keepEmpty)) && AllProper(Built([ts[i]], keepEmpty))
    ensures Built(ts[..i + 1], keepEmpty) == Built(ts[..i], keepEmpty) + Built([ts[i]], keepEmpty)
    ensures PeakAll(ts[..i + 1], keepEmpty)
            == Max(PeakAll(ts[..i], keepEmpty), SizeAll(Built(ts[..i], keepEmpty)) + Peak(ts[i], keepEmpty))
  {
    hide AllProper; hide SizeAll; hide Prune; hide PruneAll; hide Peak; hide AllBuildable; hide Buildable;
    var front := ts[..i];
    assert ts[..i + 1] == front + [ts[i]] && ts[..i + 1][..i] == front;
    PruneAllAppend(front, [ts[i]]);
    BuildableMember(ts, keepEmpty, i);
    BuildableFront(ts, keepEmpty, i);
    BuildableProper(front, keepEmpty);
    OneBuildable(ts[i], keepEmpty);
    BuildableProper([ts[i]], keepEmpty);
  }

  lemma OneBuildable(t: Tree, keepEmpty: bool)
    ensures AllBuildable([t], keepEmpty) <==> Buildable(t, keepEmpty)
    ensures PeakAll([t], keepEmpty) == Peak(t, keepEmpty)
  {
    assert [t][1..] == [] && [t][..0] == [];
    assert PeakAll([], keepEmpty) == 0 && Built([], keepEmpty) == [];
  }

  lemma {:induction false} PeakGrows(ts: seq<Tree>, keepEmpty: bool, i: nat)
    requires i <= |ts|
    ensures PeakAll(ts[..i], keepEmpty) <= PeakAll(ts, keepEmpty)
    decreases |ts|
  {
    hide Peak; hide SizeAll; hide Built;
    if i == |ts| {
      assert ts[..i] == ts;
    } else {
      var front := ts[..|ts| - 1];
      PeakGrows(front, keepEmpty, i);
      assert front[..i] == ts[..i];
    }
  }

  // The peak lies between what comes out and what is put in.
  lemma {:induction false} PeakBetween(t: Tree, keepEmpty: bool)
    ensures SizeAll(Built([t], keepEmpty)) <= Peak(t, keepEmpty) <= Size(t)
    decreases t, 1
  {
    assert [t][1..] == [];
    PruneOne(t);
    match t {
      case Leaf(_, _) =>
      case Nest(typ, kids) =>
        PeakAllBetween(kids, keepEmpty);
        var n := Nest(typ, Built(kids, keepEmpty));
        assert [n][1..] == [];
    }
  }

  lemma {:induction false} PeakAllBetween(ts: seq<Tree>, keepEmpty: bool)
    ensures SizeAll(Built(ts, keepEmpty)) <= PeakAll(ts, keepEmpty) <= SizeAll(ts)
    decreases ts, 0
  {
    hide Size; hide Prune; hide Peak;
    if ts != [] {
      var front, t := ts[..|ts| - 1], ts[|ts| - 1];
      assert ts == front + [t];
      PeakAllBetween(front, keepEmpty);
      PeakBetween(t, keepEmpty);
      SizeAllAppend(front, [t]);
      PruneAllAppend(front, [t]);
      SizeAllAppend(Built(front, keepEmpty), Built([t], keepEmpty));
      Single(t);
    }
  }

  lemma Single(t: Tree)
    ensures AllProper([t]) <==> Proper(t)
    ensures SizeAll([t]) == Size(t)
  {
    assert [t][1..] == [];
  }

  lemma {:induction false} PruneAllAppend(s: seq<Tree>, t: seq<Tree>)
    ensures PruneAll(s + t) == PruneAll(s) + PruneAll(t)
  {
    if s == [] {
      assert s + t == t;
    } else {
      assert (s + t)[1..] == s[1..] + t;
      PruneAllAppend(s[1..], t);
    }
  }

  // A client's calls for one tree: nla_put for a leaf; nla_nest_start, the
  // children and nla_nest_end for a nest.  The first call that finds no room
  // ends it, which happens exactly when the peak does not fit.
  method BuildOne(m: NlMsg, t: Tree, keepEmpty: bool) returns (ok: bool)
    requires m.Valid() && m.Aligned() && 16 <= m.len && Buildable(t, keepEmpty)
    modifies m`len, m.buf
    ensures m.Valid() && m.Aligned() && AllProper(Built([t], keepEmpty))
    ensures ok <==> old(m.len) + Peak(t, keepEmpty) <= m.buf.Length
    ensures ok ==> && m.len == old(m.len) + SizeAll(Built([t], keepEmpty))
                   && Grown(old(m.buf[..]), old(m.len), m.buf[..], EncodeAll(Built([t], keepEmpty)))
    decreases t, 0
  {
    hide Write; hide Reserved; hide AttrBytes; hide Grown;
    ghost var s, from := m.buf[..], m.len;
    OneBuildable(t, keepEmpty);
    BuildableProper([t], keepEmpty);
    match t {
      case Leaf(typ, data) =>
        LeafFits(m, typ, data);
        var err := Put(m, typ, data);
        ok := err == 0;
        if ok {
          PutBytes(s, from, typ, data);
          GrownWrite(s, from, AttrBytes(typ, data));
          BuiltLeaf(t, keepEmpty);
        }
      case Nest(typ, kids) =>
        BuiltNest(typ, kids, keepEmpty);
        var err;
        ok, err := BuildNest(m, typ, kids, keepEmpty);
    }
  }

  lemma LeafFits(m: NlMsg, typ: nat, data: seq<Byte>)
    requires m.Valid() && m.Aligned() && Proper(Leaf(typ, data))
    ensures Fits(m, |data|) <==> m.len + Size(Leaf(typ, data)) <= m.buf.Length
    ensures Tail(m) == m.len && TotalSize(|data|) == Size(Leaf(typ, data)) && TotalSize(|data|) % 4 == 0
  {
    PadOf(|data|);
  }

  lemma BuiltLeaf(t: Tree, keepEmpty: bool)
    requires t.Leaf? && Proper(t)
    ensures Built([t], keepEmpty) == [t] && AllProper([t]) && EncodeAll([t]) == AttrBytes(t.typ, t.data)
    ensures SizeAll([t]) == Size(t)
  {
    assert [t][1..] == [];
    PruneOne(t);
  }

  lemma PruneOne(t: Tree)
    ensures PruneAll([t]) == Prune(t)
  {
    assert [t][1..] == [] && Prune(t) + [] == Prune(t);
  }

  lemma BuiltNest(typ: nat, kids: seq<Tree>, keepEmpty: bool)
    requires Buildable(Nest(typ, kids), keepEmpty)
    ensures AllProper(Built(kids, keepEmpty)) && HDRLEN + SizeAll(Built(kids, keepEmpty)) <= USHRT_MAX
    ensures var b := Built(kids, keepEmpty);
            var r := Built([Nest(typ, kids)], keepEmpty);
            && AllProper(r)
            && r == (if !keepEmpty && b == [] then [] else [Nest(typ, b)])
            && EncodeAll(r) == (if !keepEmpty && b == [] then [] else AttrBytes(NESTED + typ, EncodeAll(b)))
            && (SizeAll(b) == 0 <==> b == [])
  {
    BuildableProper(kids, keepEmpty);
    EmptyIff(Built(kids, keepEmpty));
    OneBuildable(Nest(typ, kids), keepEmpty);
    BuildableProper([Nest(typ, kids)], keepEmpty);
    var b := Built(kids, keepEmpty);
    PruneOne(Nest(typ, kids));
    assert [Nest(typ, b)][1..] == [];
  }

  // A nest around children that can be built, of any total length: when it is
  // empty, or longer than a header can say, the message is as long as before,
  // what was there before is untouched, and what was written is zero.
  method BuildNest(m: NlMsg, typ: nat, kids: seq<Tree>, keepEmpty: bool) returns (ok: bool, err: int)
    requires m.Valid() && m.Aligned() && 16 <= m.len && typ < TYPES && AllBuildable(kids, keepEmpty)
    modifies m`len, m.buf
    ensures m.Valid() && m.Aligned() && AllProper(Built(kids, keepEmpty))
    ensures ok <==> old(m.len) + HDRLEN + PeakAll(kids, keepEmpty) <= m.buf.Length
    ensures ok ==>
            match NestOutcome(HDRLEN + SizeAll(Built(kids, keepEmpty)), keepEmpty)
            case Kept =>
              var r := AttrBytes(NESTED + typ, EncodeAll(Built(kids, keepEmpty)));
              err == 0 && m.len == old(m.len) + |r| && Grown(old(m.buf[..]), old(m.len), m.buf[..], r)
            case Dropped => err == 0 && m.len == old(m.len) && Grown(old(m.buf[..]), old(m.len), m.buf[..], [])
            case TooLong => err == -ATTRSIZE && m.len == old(m.len) && Grown(old(m.buf[..]), old(m.len), m.buf[..], [])
    decreases kids, 2
  {
    hide Write; hide AttrBytes; hide Grown;
    ghost var s, from := m.buf[..], m.len;
    var start;
    ok, start := FillNest(m, typ, kids, keepEmpty);
    if !ok {
      return false, 0;
    }
    ghost var s2, b := m.buf[..], EncodeAll(Built(kids, keepEmpty));
    err := NestEnd(m, start, keepEmpty);
    if HDRLEN + |b| <= USHRT_MAX { GrownNest(s, from, s2, NESTED + typ, b); }
    GrownCancel(s, from, s2, AttrBytes(NESTED + typ, []) + b);
  }

  // The open nest: its header, and its children behind it.
  method FillNest(m: NlMsg, typ: nat, kids: seq<Tree>, keepEmpty: bool) returns (ok: bool, start: int)
    requires m.Valid() && m.Aligned() && 16 <= m.len && typ < TYPES && AllBuildable(kids, keepEmpty)
    modifies m`len, m.buf
    ensures m.Valid() && m.Aligned() && AllProper(Built(kids, keepEmpty))
    ensures ok <==> old(m.len) + HDRLEN + PeakAll(kids, keepEmpty) <= m.buf.Length
    ensures ok ==>
      && start == old(m.len) && m.len == start + HDRLEN + SizeAll(Built(kids, keepEmpty))
      && Grown(old(m.buf[..]), start, m.buf[..], AttrBytes(NESTED + typ, []) + EncodeAll(Built(kids, keepEmpty)))
    decreases kids, 1
  {
    hide Write; hide AttrBytes; hide Grown;
    ghost var s, from := m.buf[..], m.len;
    BuildableProper(kids, keepEmpty);
    HeaderFits(m);
    start := NestStart(m, typ);
    if start < 0 {
      return false, -1;
    }
    ghost var s1 := m.buf[..];
    GrownWrite(s, from, AttrBytes(NESTED + typ, []));
    ok := BuildAll(m, kids, keepEmpty);
    if ok {
      GrownBy(s, from, s1, AttrBytes(NESTED + typ, []), m.buf[..], EncodeAll(Built(kids, keepEmpty)));
    }
  }

  // A nest that its caller gives up
  method CancelledNest(m: NlMsg, typ: nat, kids: seq<Tree>, keepEmpty: bool)
    requires m.Valid() && m.Aligned() && 16 <= m.len && typ < TYPES && AllBuildable(kids, keepEmpty)
    requires m.len + HDRLEN + PeakAll(kids, keepEmpty) <= m.buf.Length
    modifies m`len, m.buf
    ensures m.Valid() && m.Aligned() && m.len == old(m.len) && Grown(old(m.buf[..]), old(m.len), m.buf[..], [])
  {
    hide Write; hide AttrBytes; hide Grown;
    ghost var s := m.buf[..];
    var ok, start := FillNest(m, typ, kids, keepEmpty);
    GrownCancel(s, start, m.buf[..], AttrBytes(NESTED + typ, []) + EncodeAll(Built(kids, keepEmpty)));
    NestCancel(m, start);
  }

  lemma HeaderFits(m: NlMsg)
    requires m.Valid() && m.Aligned()
    ensures Fits(m, 0) <==> m.len + HDRLEN <= m.buf.Length
    ensures Tail(m) == m.len
  {}

  lemma EmptyIff(ts: seq<Tree>)
    requires AllProper(ts)
    ensures EncodeAll(ts) == [] <==> ts == []
  {}

  method BuildAll(m: NlMsg, ts: seq<Tree>, keepEmpty: bool) returns (ok: bool)
    requires m.Valid() && m.Aligned() && 16 <= m.len && AllBuildable(ts, keepEmpty)
    modifies m`len, m.buf
    ensures m.Valid() && m.Aligned() && AllProper(Built(ts, keepEmpty))
    ensures ok <==> old(m.len) + PeakAll(ts, keepEmpty) <= m.buf.Length
    ensures ok ==> && m.len == old(m.len) + SizeAll(Built(ts, keepEmpty))
                   && Grown(old(m.buf[..]), old(m.len), m.buf[..], EncodeAll(Built(ts, keepEmpty)))
    decreases ts, 0
  {
    hide Grown; hide Built; hide Size; hide SizeAll; hide AllProper; hide Proper; hide EncodeAll; hide Peak; hide PeakAll;
    hide Buildable; hide AllBuildable;
    ghost var s, from := m.buf[..], m.len;
    var i := 0;
    BuildableProper(ts, keepEmpty);
    BuiltNothing(ts, keepEmpty);
    GrownNothing(s, from);
    while i < |ts|
      invariant 0 <= i <= |ts| && m.Valid() && m.Aligned() && from <= m.len
      invariant AllProper(Built(ts[..i], keepEmpty)) && m.len == from + SizeAll(Built(ts[..i], keepEmpty))
      invariant from + PeakAll(ts[..i], keepEmpty) <= m.buf.Length
      invariant Grown(s, from, m.buf[..], EncodeAll(Built(ts[..i], keepEmpty)))
    {
      BuiltMore(ts, i, keepEmpty);
      ghost var s1 := m.buf[..];
      ghost var b, c := Built(ts[..i], keepEmpty), Built([ts[i]], keepEmpty);
      PeakGrows(ts, keepEmpty, i + 1);
      ok := BuildOne(m, ts[i], keepEmpty);
      if !ok {
        return;
      }
      GrownBy(s, from, s1, EncodeAll(b), m.buf[..], EncodeAll(c));
      AllProperAppend(b, c);
      SizeAllAppend(b, c);
      i := i + 1;
    }
    assert ts[..i] == ts;
    ok := true;
  }

  lemma BuiltNothing(ts: seq<Tree>, keepEmpty: bool)
    ensures Built(ts[..0], keepEmpty) == [] && AllProper([]) && EncodeAll([]) == []
    ensures SizeAll([]) == 0 && PeakAll(ts[..0], keepEmpty) == 0
  {}

  lemma GrownNothing(s: seq<Byte>, from: nat)
    requires from <= |s|
    ensures Grown(s, from, s, [])
  {}

  // What was built into an aligned message with room for it reads back as the
  // same tree, without its empty nests unless these are kept.
  lemma BuiltReadsBack(s: seq<Byte>, from: nat, s': seq<Byte>, ts: seq<Tree>, keepEmpty: bool)
    requires AllProper(Built(ts, keepEmpty))
    requires Grown(s, from, s', EncodeAll(Built(ts, keepEmpty)))
    ensures Read(s'[from..from + SizeAll(Built(ts, keepEmpty))]) == Built(ts, keepEmpty)
  {
    hide Read; hide Built; hide EncodeAll; hide SizeAll; hide AllProper;
    ReadEncode(Built(ts, keepEmpty));
  }
}
