// Which callbacks the receive loop calls, in which order, and where their answers
// lead (lib/nl.c:855-1039), said without the functions that compute it.

module RecvCalls {
  import opened Bytes
  import opened Recv

  // How many kinds are called from a list, with the first of them the k-th call:
  // up to the first that does not answer OK
  function Called(cb: Callbacks, due: seq<Kind>, k: nat): (n: nat)
    ensures n <= |due|
  {
    if due == [] then 0
    else if cb.answer(due[0], k) != 0 then 1
    else 1 + Called(cb, due[1..], k + 1)
  }

  // Every one of them answers OK.
  predicate AllOk(cb: Callbacks, due: seq<Kind>, k: nat)
  {
    forall i :: 0 <= i < |due| ==> cb.answer(due[i], k + i) == 0
  }

  // The callbacks due before anything is done with a message: for every message
  // that comes in, and for its sequence number.
  function DueFirst(cb: Callbacks, autoAck: bool, m: Msg, e: nat): (due: seq<Kind>)
    ensures |due| <= 2 && (|due| == 2 ==> due[0] == CbMsgIn && due[1] != CbMsgIn)
    ensures forall kind :: kind in due <==>
              (&& cb.isSet(kind)
               && (kind == CbMsgIn || kind == CbSeqCheck
                   || (kind == CbInvalid && !cb.isSet(CbSeqCheck) && autoAck && m.seqno != e)))
  {
    (if cb.isSet(CbMsgIn) then [CbMsgIn] else [])
    + (if cb.isSet(CbSeqCheck) then [CbSeqCheck]
       else if autoAck && m.seqno != e && cb.isSet(CbInvalid) then [CbInvalid] else [])
  }

  // The callbacks due for its flags
  function DueThen(cb: Callbacks, m: Msg): (due: seq<Kind>)
    ensures |due| <= 2 && (|due| == 2 ==> due[0] == CbDumpIntr && due[1] == CbSendAck)
    ensures forall kind :: kind in due <==>
              (&& cb.isSet(kind)
               && ((kind == CbDumpIntr && HasFlag(m.flags, 0x10)) || (kind == CbSendAck && HasFlag(m.flags, 0x04))))
  {
    (if HasFlag(m.flags, 0x10) && cb.isSet(CbDumpIntr) then [CbDumpIntr] else [])
    + (if HasFlag(m.flags, 0x04) && cb.isSet(CbSendAck) then [CbSendAck] else [])
  }

  // The callback of a message's type
  function TypeKind(m: Msg): (kind: Kind)
    requires m.len == 16 + |m.payload|
    ensures m.typ == 1 ==> kind == CbSkipped
    ensures m.typ == 3 ==> kind == CbFinish
    ensures m.typ == 4 ==> kind == CbOverrun
    ensures m.typ == 2 ==> kind == if m.len < 36 then CbInvalid else if S32At(m.payload, 0) == 0 then CbAck else CbErr
    ensures m.typ != 1 && m.typ != 2 && m.typ != 3 && m.typ != 4 ==> kind == CbValid
  {
    if m.typ == NOOP then CbSkipped
    else if m.typ == DONE then CbFinish
    else if m.typ == OVERRUN then CbOverrun
    else if m.typ != ERROR then CbValid
    else if Truncated(m) then CbInvalid
    else if ErrorOf(m) == 0 then CbAck
    else CbErr
  }

  // ---------- one stage after the other ----------

  lemma AskMeans(cb: Callbacks, kind: Kind, p: Progress)
    ensures var (go, c, p') := Ask(cb, kind, p);
            if !cb.isSet(kind) then go && p' == p && c == Next
            else
              var a := cb.answer(kind, |p.log|);
              && p' == p.(log := p.log + [kind]) && (go <==> a == 0)
              && c == if a == 0 || a == 1 then Next else if a == 2 then Stop else Out(a)
  {}

  // Where an answer other than OK leads: skipping goes on with the next message,
  // stopping ends the loop, anything else ends the call with that code.
  function Led(a: int): (c: Control)
    ensures (c == Stop <==> a == 2) && (c.Out? ==> c.err == a) && (c == Next <==> a == 0 || a == 1)
  {
    if a == 0 || a == 1 then Next else if a == 2 then Stop else Out(a)
  }

  // For an error reply a negative answer is the code, and stopping returns the
  // error that was replied.
  function LedByErr(cb: Callbacks, m: Msg, a: int): (c: Control)
    requires m.len == 16 + |m.payload|
    ensures a < 0 ==> c == Out(a)
    ensures a == 2 && m.typ == 2 && m.len >= 36 ==> c == Out(-(cb.syserr(S32At(m.payload, 0)) as int))
    ensures a >= 0 && a != 2 ==> c == Next
  {
    if a < 0 then Out(a)
    else if a == STOP && m.len >= 36 then Out(-(cb.syserr(S32At(m.payload, 0)) as int))
    else Next
  }

  // What a message without the callback of its type comes to
  function Unanswered(cb: Callbacks, m: Msg): (c: Control)
    requires m.len == 16 + |m.payload|
    ensures m.typ == 4 ==> c == Out(-17)
    ensures m.typ == 2 && m.len < 36 ==> c == Out(-18)
    ensures m.typ == 2 && m.len >= 36 && S32At(m.payload, 0) != 0 ==> c == Out(-(cb.syserr(S32At(m.payload, 0)) as int))
    ensures c == Next <==> m.typ != 4 && (m.typ != 2 || (m.len >= 36 && S32At(m.payload, 0) == 0))
  {
    if m.typ == 4 then Out(-17)
    else if m.typ == 2 && m.len < 36 then Out(-18)
    else if m.typ == 2 && S32At(m.payload, 0) != 0 then Out(-(cb.syserr(S32At(m.payload, 0)) as int))
    else Next
  }

  // The callback of the type is called if it is set.
  lemma TypeMeans(cb: Callbacks, m: Msg, p: Progress)
    requires m.len == 16 + |m.payload|
    ensures var (c, p') := DoType(cb, m, p);
            var kind := TypeKind(m);
            var a := cb.answer(kind, |p.log|);
            && p'.multipart == (m.typ != 3 && p.multipart) && p'.interrupted == p.interrupted
            && (if !cb.isSet(kind) then p'.log == p.log && c == Unanswered(cb, m)
                else
                  && p'.log == p.log + [kind]
                  && c == if kind != CbErr then Led(a) else LedByErr(cb, m, a))
  {}

  // The number that a message leaves expected
  function Counted(m: Msg, e: nat): (r: nat)
    ensures r == if m.typ == 1 || m.typ == 2 || m.typ == 3 || m.typ == 4 then (e + 1) % 0x1_0000_0000 else e
  {
    if Terminal(m) then (e + 1) % WRAP else e
  }

  lemma FlagsMean(cb: Callbacks, m: Msg, e: nat, p: Progress)
    requires m.len == 16 + |m.payload|
    ensures var due := DueThen(cb, m);
            var n := Called(cb, due, |p.log|);
            var p1 := p.(multipart := p.multipart || HasFlag(m.flags, 0x02),
                         interrupted := p.interrupted || (HasFlag(m.flags, 0x10) && !cb.isSet(CbDumpIntr)),
                         log := p.log + due[..n]);
            var e' := Counted(m, e);
            DoChecked(cb, m, e, p)
            == if AllOk(cb, due, |p.log|) then Did(DoType(cb, m, p1).0, e', DoType(cb, m, p1).1)
               else Did(Led(cb.answer(due[n - 1], |p.log| + n - 1)), e', p1)
  {
    hide DoType; hide HasFlag; hide Called; hide AllOk;
    var i, a := HasFlag(m.flags, 0x10) && cb.isSet(CbDumpIntr), HasFlag(m.flags, 0x04) && cb.isSet(CbSendAck);
    var due, k := DueThen(cb, m), |p.log|;
    CalledShort(cb, due, k);
    Taken(p.log, due);
    if i && a { assert due == [CbDumpIntr, CbSendAck]; }
    else if i { assert due == [CbDumpIntr]; }
    else if a { assert due == [CbSendAck]; }
    else { assert due == []; }
  }

  // Lists of at most two
  lemma CalledShort(cb: Callbacks, due: seq<Kind>, k: nat)
    requires |due| <= 2
    ensures due == [] ==> Called(cb, due, k) == 0 && AllOk(cb, due, k)
    ensures |due| == 1 ==> Called(cb, due, k) == 1 && (AllOk(cb, due, k) <==> cb.answer(due[0], k) == 0)
    ensures |due| == 2 ==> Called(cb, due, k) == (if cb.answer(due[0], k) == 0 then 2 else 1)
    ensures |due| == 2 ==> (AllOk(cb, due, k) <==> cb.answer(due[0], k) == 0 && cb.answer(due[1], k + 1) == 0)
  {
    hide AllOk; hide Called;
    NoneCalled(cb, k);
    if |due| == 1 {
      assert due == [due[0]];
      CalledOne(cb, due[0], k);
    } else if |due| == 2 {
      assert due[1..] == [due[1]];
      CalledOne(cb, due[1], k + 1);
      AllOkFirst(cb, due, k);
      CalledFirst(cb, due, k);
    }
  }

  lemma CalledFirst(cb: Callbacks, due: seq<Kind>, k: nat)
    requires due != []
    ensures Called(cb, due, k) == if cb.answer(due[0], k) != 0 then 1 else 1 + Called(cb, due[1..], k + 1)
  {}

  lemma Taken(log: seq<Kind>, due: seq<Kind>)
    requires |due| <= 2
    ensures log + due[..0] == log
    ensures |due| >= 1 ==> log + due[..1] == log + [due[0]]
    ensures |due| == 2 ==> log + due[..2] == log + [due[0]] + [due[1]]
  {}

  // No callback can take a message whose sequence number is not the expected one.
  predicate Unexpected(cb: Callbacks, autoAck: bool, m: Msg, e: nat)
  {
    !cb.isSet(CbSeqCheck) && autoAck && m.seqno != e && !cb.isSet(CbInvalid)
  }

  lemma CheckMeans(cb: Callbacks, autoAck: bool, m: Msg, e: nat, p: Progress)
    requires m.len == 16 + |m.payload|
    ensures var due := DueFirst(cb, autoAck, m, e);
            var n := Called(cb, due, |p.log|);
            var p1 := p.(log := p.log + due[..n]);
            Do(cb, autoAck, m, e, p)
            == if !AllOk(cb, due, |p.log|) then Did(Led(cb.answer(due[n - 1], |p.log| + n - 1)), e, p1)
               else if Unexpected(cb, autoAck, m, e) then Did(Out(-16), e, p1)
               else DoChecked(cb, m, e, p1)
  {
    hide DoChecked; hide Called; hide AllOk;
    var due, k := DueFirst(cb, autoAck, m, e), |p.log|;
    CalledShort(cb, due, k);
    Taken(p.log, due);
    if cb.isSet(CbMsgIn) {
      if |due| == 2 { assert due == [CbMsgIn, due[1]]; } else { assert due == [CbMsgIn]; }
    }
  }

  // ---------- one message ----------

  // The callbacks due for a message, in their order: those before the check, and
  // then those for its flags and the one for its type, unless the check fails
  // and no callback takes it.
  function Due(cb: Callbacks, autoAck: bool, m: Msg, e: nat): seq<Kind>
    requires m.len == 16 + |m.payload|
  {
    DueFirst(cb, autoAck, m, e)
    + if Unexpected(cb, autoAck, m, e) then []
      else DueThen(cb, m) + if cb.isSet(TypeKind(m)) then [TypeKind(m)] else []
  }

  // How many of them are called
  function Calls(cb: Callbacks, autoAck: bool, m: Msg, e: nat, k: nat): (n: nat)
    requires m.len == 16 + |m.payload|
    ensures n <= |Due(cb, autoAck, m, e)|
  {
    Called(cb, Due(cb, autoAck, m, e), k)
  }

  // What is called is as much of two lists as answers OK.
  lemma {:induction false} CalledAppend(cb: Callbacks, s: seq<Kind>, t: seq<Kind>, k: nat)
    ensures Called(cb, s + t, k) == if AllOk(cb, s, k) then |s| + Called(cb, t, k + |s|) else Called(cb, s, k)
    ensures AllOk(cb, s + t, k) <==> AllOk(cb, s, k) && AllOk(cb, t, k + |s|)
    ensures if AllOk(cb, s, k) then Called(cb, s, k) == |s|
            else Called(cb, s, k) > 0 && cb.answer(s[Called(cb, s, k) - 1], k + Called(cb, s, k) - 1) != 0
  {
    hide AllOk;
    if s == [] {
      assert s + t == t;
      NoneCalled(cb, k);
    } else {
      assert (s + t)[1..] == s[1..] + t;
      CalledAppend(cb, s[1..], t, k + 1);
      AllOkFirst(cb, s, k);
      AllOkFirst(cb, s + t, k);
    }
  }

  lemma AllOkFirst(cb: Callbacks, s: seq<Kind>, k: nat)
    requires s != []
    ensures AllOk(cb, s, k) <==> cb.answer(s[0], k) == 0 && AllOk(cb, s[1..], k + 1)
  {
    if cb.answer(s[0], k) == 0 && AllOk(cb, s[1..], k + 1) {
      forall i | 0 <= i < |s| ensures cb.answer(s[i], k + i) == 0 {
        if i > 0 { assert cb.answer(s[1..][i - 1], k + 1 + (i - 1)) == 0; }
      }
    }
    if AllOk(cb, s, k) {
      forall i | 0 <= i < |s[1..]| ensures cb.answer(s[1..][i], k + 1 + i) == 0 {
        assert cb.answer(s[i + 1], k + (i + 1)) == 0;
      }
    }
  }

  // A message that fails the check, or does not get past it
  lemma BeforeCheck(cb: Callbacks, autoAck: bool, m: Msg, e: nat, p: Progress)
    requires m.len == 16 + |m.payload|
    requires Unexpected(cb, autoAck, m, e) || !AllOk(cb, DueFirst(cb, autoAck, m, e), |p.log|)
    ensures var due, n := Due(cb, autoAck, m, e), Calls(cb, autoAck, m, e, |p.log|);
            Do(cb, autoAck, m, e, p)
            == Did(if AllOk(cb, due, |p.log|) then Out(-16) else Led(cb.answer(due[n - 1], |p.log| + n - 1)), e,
                   p.(log := p.log + due[..n]))
            && (AllOk(cb, due, |p.log|) <==> AllOk(cb, DueFirst(cb, autoAck, m, e), |p.log|))
            && (n > 0 ==> due[n - 1] != CbErr)
  {
    hide Do; hide DoChecked; hide Called; hide AllOk; hide HasFlag; hide Unexpected; hide DueFirst; hide DueThen; hide Led;
    var k, first := |p.log|, DueFirst(cb, autoAck, m, e);
    var rest := if Unexpected(cb, autoAck, m, e) then [] else DueThen(cb, m) + if cb.isSet(TypeKind(m)) then [TypeKind(m)] else [];
    CheckMeans(cb, autoAck, m, e, p);
    CalledAppend(cb, first, rest, k);
    var n := Called(cb, first, k);
    assert (first + rest)[..n] == first[..n];
    if n > 0 { assert first[n - 1] in first; }
    assert first + [] == first;
    NoneCalled(cb, k + |first|);
  }

  lemma NoneCalled(cb: Callbacks, k: nat)
    ensures Called(cb, [], k) == 0 && AllOk(cb, [], k)
  {}

  // A message past the check
  lemma PastCheck(cb: Callbacks, autoAck: bool, m: Msg, e: nat, p: Progress)
    requires m.len == 16 + |m.payload| && !Unexpected(cb, autoAck, m, e)
    requires AllOk(cb, DueFirst(cb, autoAck, m, e), |p.log|)
    ensures Do(cb, autoAck, m, e, p) == DoChecked(cb, m, e, p.(log := p.log + DueFirst(cb, autoAck, m, e)))
  {
    hide Do; hide DoChecked; hide Called; hide AllOk; hide Unexpected; hide DueFirst;
    var first := DueFirst(cb, autoAck, m, e);
    CheckMeans(cb, autoAck, m, e, p);
    CalledAppend(cb, first, [], |p.log|);
    assert first[..|first|] == first;
  }

  // ... how many callbacks it makes
  lemma PastCalls(cb: Callbacks, autoAck: bool, m: Msg, e: nat, k: nat)
    requires m.len == 16 + |m.payload| && !Unexpected(cb, autoAck, m, e)
    requires AllOk(cb, DueFirst(cb, autoAck, m, e), k)
    ensures var first, then', kind := DueFirst(cb, autoAck, m, e), DueThen(cb, m), TypeKind(m);
            var due, k', n2 := Due(cb, autoAck, m, e), k + |first|, Called(cb, then', k + |first|);
            && due == first + then' + (if cb.isSet(kind) then [kind] else [])
            && (if AllOk(cb, then', k') then
                  && Calls(cb, autoAck, m, e, k) == |due|
                  && (AllOk(cb, due, k) <==> !cb.isSet(kind) || cb.answer(kind, k' + |then'|) == 0)
                else
                  && 0 < n2 <= |then'| && cb.answer(then'[n2 - 1], k' + n2 - 1) != 0 && !AllOk(cb, due, k)
                  && Calls(cb, autoAck, m, e, k) == |first| + n2)
  {
    hide Called; hide AllOk; hide Unexpected; hide DueFirst; hide DueThen; hide TypeKind;
    var first, then', kind := DueFirst(cb, autoAck, m, e), DueThen(cb, m), TypeKind(m);
    var last := if cb.isSet(kind) then [kind] else [];
    CalledAppend(cb, first, then' + last, k);
    CalledAppend(cb, then', last, k + |first|);
    CalledOne(cb, kind, k + |first| + |then'|);
    NoneCalled(cb, k + |first| + |then'|);
    assert first + (then' + last) == first + then' + last;
  }

  // A message past the check whose flags' callbacks end it
  lemma BeforeType(cb: Callbacks, autoAck: bool, m: Msg, e: nat, p: Progress)
    requires m.len == 16 + |m.payload| && !Unexpected(cb, autoAck, m, e)
    requires AllOk(cb, DueFirst(cb, autoAck, m, e), |p.log|)
    requires !AllOk(cb, DueThen(cb, m), |p.log| + |DueFirst(cb, autoAck, m, e)|)
    ensures var due, n := Due(cb, autoAck, m, e), Calls(cb, autoAck, m, e, |p.log|);
            && n > 0 && due[n - 1] != CbErr && cb.answer(due[n - 1], |p.log| + n - 1) != 0
            && Do(cb, autoAck, m, e, p)
               == Did(Led(cb.answer(due[n - 1], |p.log| + n - 1)), Counted(m, e),
                      Progress(p.multipart || HasFlag(m.flags, 0x02),
                               p.interrupted || (HasFlag(m.flags, 0x10) && !cb.isSet(CbDumpIntr)), p.log + due[..n]))
  {
    hide Do; hide DoChecked; hide Called; hide AllOk; hide HasFlag; hide Unexpected; hide DueFirst; hide DueThen; hide Led;
    hide Counted; hide DoType; hide Due; hide Calls; hide TypeKind;
    var k, first, then' := |p.log|, DueFirst(cb, autoAck, m, e), DueThen(cb, m);
    var last := if cb.isSet(TypeKind(m)) then [TypeKind(m)] else [];
    PastCheck(cb, autoAck, m, e, p);
    PastCalls(cb, autoAck, m, e, k);
    FlagsMean(cb, m, e, p.(log := p.log + first));
    var n2 := Called(cb, then', k + |first|);
    assert then'[n2 - 1] in then';
    Front(p.log, first, then', last, n2);
  }

  lemma Front(log: seq<Kind>, a: seq<Kind>, b: seq<Kind>, c: seq<Kind>, n: nat)
    requires 0 < n <= |b|
    ensures (a + b + c)[|a| + n - 1] == b[n - 1] && log + a + b[..n] == log + (a + b + c)[..|a| + n]
  {
    assert (a + b + c)[..|a| + n] == a + b[..n];
  }

  // A message that reaches the branches on its type
  lemma AtType(cb: Callbacks, autoAck: bool, m: Msg, e: nat, p: Progress)
    requires m.len == 16 + |m.payload| && !Unexpected(cb, autoAck, m, e)
    requires AllOk(cb, DueFirst(cb, autoAck, m, e), |p.log|)
    requires AllOk(cb, DueThen(cb, m), |p.log| + |DueFirst(cb, autoAck, m, e)|)
    ensures var due, n, d := Due(cb, autoAck, m, e), Calls(cb, autoAck, m, e, |p.log|), Do(cb, autoAck, m, e, p);
            && n == |due| && d.expected == Counted(m, e) && d.p.log == p.log + due
            && d.p.multipart == ((p.multipart || HasFlag(m.flags, 0x02)) && m.typ != 3)
            && d.p.interrupted == (p.interrupted || (HasFlag(m.flags, 0x10) && !cb.isSet(CbDumpIntr)))
            && (if !cb.isSet(TypeKind(m)) then AllOk(cb, due, |p.log|) && d.c == Unanswered(cb, m)
                else
                  var a := cb.answer(TypeKind(m), |p.log| + n - 1);
                  && n > 0 && due[n - 1] == TypeKind(m) && (AllOk(cb, due, |p.log|) <==> a == 0)
                  && d.c == if TypeKind(m) != CbErr then Led(a) else LedByErr(cb, m, a))
            && (n > 0 && due[n - 1] == CbErr ==> TypeKind(m) == CbErr && cb.isSet(CbErr))
  {
    hide Do; hide DoChecked; hide Called; hide AllOk; hide HasFlag; hide Unexpected; hide DueFirst; hide DueThen; hide Led;
    hide Counted; hide DoType; hide TypeKind; hide Unanswered; hide Due; hide Calls;
    var k, first, then', kind := |p.log|, DueFirst(cb, autoAck, m, e), DueThen(cb, m), TypeKind(m);
    var p2 := Progress(p.multipart || HasFlag(m.flags, 0x02),
                       p.interrupted || (HasFlag(m.flags, 0x10) && !cb.isSet(CbDumpIntr)), p.log + first + then');
    PastFlags(cb, autoAck, m, e, p, p2);
    PastCalls(cb, autoAck, m, e, k);
    TypeMeans(cb, m, p2);
    Behind(p.log, first, then', kind);
    NotLast(cb, autoAck, m, e);
  }

  lemma NotLast(cb: Callbacks, autoAck: bool, m: Msg, e: nat)
    requires m.len == 16 + |m.payload|
    ensures var due := DueFirst(cb, autoAck, m, e) + DueThen(cb, m) + [];
            due != [] ==> due[|due| - 1] != CbErr
  {
    hide DueFirst; hide DueThen;
    var first, then' := DueFirst(cb, autoAck, m, e), DueThen(cb, m);
    var due := first + then' + [];
    if due != [] { assert due[|due| - 1] in first || due[|due| - 1] in then'; }
  }

  lemma PastFlags(cb: Callbacks, autoAck: bool, m: Msg, e: nat, p: Progress, p2: Progress)
    requires m.len == 16 + |m.payload| && !Unexpected(cb, autoAck, m, e)
    requires AllOk(cb, DueFirst(cb, autoAck, m, e), |p.log|)
    requires AllOk(cb, DueThen(cb, m), |p.log| + |DueFirst(cb, autoAck, m, e)|)
    requires p2 == Progress(p.multipart || HasFlag(m.flags, 0x02),
                            p.interrupted || (HasFlag(m.flags, 0x10) && !cb.isSet(CbDumpIntr)),
                            p.log + DueFirst(cb, autoAck, m, e) + DueThen(cb, m))
    ensures Do(cb, autoAck, m, e, p) == Did(DoType(cb, m, p2).0, Counted(m, e), DoType(cb, m, p2).1)
  {
    hide Do; hide DoChecked; hide Called; hide AllOk; hide HasFlag; hide Unexpected; hide DueFirst; hide DueThen; hide Led;
    hide Counted; hide DoType;
    var k, first, then' := |p.log|, DueFirst(cb, autoAck, m, e), DueThen(cb, m);
    PastCheck(cb, autoAck, m, e, p);
    FlagsMean(cb, m, e, p.(log := p.log + first));
    CalledAppend(cb, then', [], k + |first|);
    assert then'[..|then'|] == then';
  }

  lemma Behind(log: seq<Kind>, a: seq<Kind>, b: seq<Kind>, kind: Kind)
    ensures log + a + b + [kind] == log + (a + b + [kind]) && log + a + b == log + (a + b + [])
    ensures |log + a + b| == |log| + |a| + |b|
  {
    assert a + b + [] == a + b;
  }

  lemma CalledOne(cb: Callbacks, kind: Kind, k: nat)
    ensures Called(cb, [kind], k) == 1 && (AllOk(cb, [kind], k) <==> cb.answer(kind, k) == 0)
  {}

  // With any callbacks: those due for the message are called one after the
  // other, up to the first that does not answer OK.  Its answer decides where
  // processing goes; when all answer OK the message itself does.
  lemma MessageMeans(cb: Callbacks, autoAck: bool, m: Msg, e: nat, p: Progress) returns (n: nat)
    requires m.len == 16 + |m.payload|
    ensures var lost := autoAck && m.seqno != e && !cb.isSet(CbSeqCheck) && !cb.isSet(CbInvalid);
            var last := if cb.isSet(TypeKind(m)) then [TypeKind(m)] else [];
            var due := DueFirst(cb, autoAck, m, e) + if lost then [] else DueThen(cb, m) + last;
            var k, d := |p.log|, Do(cb, autoAck, m, e, p);
            && n <= |due| && d.p.log == p.log + due[..n]
            && (forall i :: 0 <= i < n - 1 ==> cb.answer(due[i], k + i) == 0)
            && (n < |due| ==> n > 0 && cb.answer(due[n - 1], k + n - 1) != 0)
    ensures var lost := autoAck && m.seqno != e && !cb.isSet(CbSeqCheck) && !cb.isSet(CbInvalid);
            var last := if cb.isSet(TypeKind(m)) then [TypeKind(m)] else [];
            var due := DueFirst(cb, autoAck, m, e) + if lost then [] else DueThen(cb, m) + last;
            var k, d := |p.log|, Do(cb, autoAck, m, e, p);
            var a := if n > 0 then cb.answer(due[n - 1], k + n - 1) else 0;
            if n > 0 && due[n - 1] == CbErr then
              d.c == LedByErr(cb, m, a)
            else if a == 1 then d.c == Next
            else if a == 2 then d.c == Stop
            else if a != 0 then d.c == Out(a)
            else d.c == if lost then Out(-16)
                        else if cb.isSet(TypeKind(m)) then Next else Unanswered(cb, m)
  {
    hide Do; hide Called; hide AllOk; hide HasFlag; hide Unexpected; hide TypeKind; hide Unanswered; hide DueFirst; hide DueThen;
    hide Counted; hide Led; hide Due; hide Calls;
    var first, k := DueFirst(cb, autoAck, m, e), |p.log|;
    var due := Due(cb, autoAck, m, e);
    n := Calls(cb, autoAck, m, e, k);
    DueIs(cb, autoAck, m, e);
    UpToCalls(cb, autoAck, m, e, k);
    LastAnswer(cb, autoAck, m, e, k);
    if Unexpected(cb, autoAck, m, e) || !AllOk(cb, first, k) {
      BeforeCheck(cb, autoAck, m, e, p);
    } else if !AllOk(cb, DueThen(cb, m), k + |first|) {
      BeforeType(cb, autoAck, m, e, p);
    } else {
      AtType(cb, autoAck, m, e, p);
      assert due[..n] == due;
    }
  }

  lemma DueIs(cb: Callbacks, autoAck: bool, m: Msg, e: nat)
    requires m.len == 16 + |m.payload|
    ensures var lost := autoAck && m.seqno != e && !cb.isSet(CbSeqCheck) && !cb.isSet(CbInvalid);
            && (Unexpected(cb, autoAck, m, e) <==> lost)
            && Due(cb, autoAck, m, e)
               == DueFirst(cb, autoAck, m, e)
                  + if lost then [] else DueThen(cb, m) + if cb.isSet(TypeKind(m)) then [TypeKind(m)] else []
  {}

  lemma UpToCalls(cb: Callbacks, autoAck: bool, m: Msg, e: nat, k: nat)
    requires m.len == 16 + |m.payload|
    ensures var due, n := Due(cb, autoAck, m, e), Calls(cb, autoAck, m, e, k);
            && (forall i :: 0 <= i < n - 1 ==> cb.answer(due[i], k + i) == 0)
            && (n < |due| ==> n > 0 && cb.answer(due[n - 1], k + n - 1) != 0)
  {
    hide Due;
    CalledUpTo(cb, Due(cb, autoAck, m, e), k);
  }

  lemma {:induction false} CalledUpTo(cb: Callbacks, due: seq<Kind>, k: nat)
    ensures var n := Called(cb, due, k);
            && (forall i :: 0 <= i < n - 1 ==> cb.answer(due[i], k + i) == 0)
            && (n < |due| ==> n > 0 && cb.answer(due[n - 1], k + n - 1) != 0)
  {
    if due != [] {
      CalledUpTo(cb, due[1..], k + 1);
      var n := Called(cb, due, k);
      forall i | 0 <= i < n - 1 ensures cb.answer(due[i], k + i) == 0 {
        if i > 0 { assert cb.answer(due[1..][i - 1], k + 1 + (i - 1)) == 0; }
      }
    }
  }

  lemma LastAnswer(cb: Callbacks, autoAck: bool, m: Msg, e: nat, k: nat)
    requires m.len == 16 + |m.payload|
    ensures var due, n := Due(cb, autoAck, m, e), Calls(cb, autoAck, m, e, k);
            AllOk(cb, due, k) <==> n == |due| && (n == 0 || cb.answer(due[n - 1], k + n - 1) == 0)
  {
    hide Due;
    var due := Due(cb, autoAck, m, e);
    CalledAppend(cb, due, [], k);
    assert due + [] == due;
    if AllOk(cb, due, k) && |due| > 0 { assert cb.answer(due[|due| - 1], k + (|due| - 1)) == 0; }
  }

  // A message counts as an answer to a request, and its flags are seen, once it
  // is past the check; the end of a multipart message is seen when its type is.
  lemma MessageSeen(cb: Callbacks, autoAck: bool, m: Msg, e: nat, p: Progress)
    requires m.len == 16 + |m.payload|
    ensures var first, d := DueFirst(cb, autoAck, m, e), Do(cb, autoAck, m, e, p);
            var past := !Unexpected(cb, autoAck, m, e) && AllOk(cb, first, |p.log|);
            var reached := past && AllOk(cb, DueThen(cb, m), |p.log| + |first|);
            && d.expected == (if past then Counted(m, e) else e)
            && d.p.interrupted == (p.interrupted || (past && HasFlag(m.flags, 0x10) && !cb.isSet(CbDumpIntr)))
            && d.p.multipart == if past then (p.multipart || HasFlag(m.flags, 0x02)) && !(reached && m.typ == 3)
                                else p.multipart
  {
    hide Do; hide Called; hide AllOk; hide HasFlag; hide Unexpected; hide TypeKind; hide Unanswered; hide DueFirst; hide DueThen;
    hide Counted; hide Led; hide Due; hide Calls;
    var first, k := DueFirst(cb, autoAck, m, e), |p.log|;
    if Unexpected(cb, autoAck, m, e) || !AllOk(cb, first, k) {
      BeforeCheck(cb, autoAck, m, e, p);
    } else if !AllOk(cb, DueThen(cb, m), k + |first|) {
      BeforeType(cb, autoAck, m, e, p);
    } else {
      AtType(cb, autoAck, m, e, p);
    }
  }

  // ---------- a run ----------

  // The state after the first n of some messages, which did ds
  function After(s: Ran, ds: seq<Did>, n: nat): Did
    requires n <= |ds|
  {
    if n == 0 then Did(s.c, s.expected, s.p) else ds[n - 1]
  }

  // The messages ms, one after the other from the state s, do ds; up to the last
  // each leads on to the next.
  ghost predicate Steps(cb: Callbacks, autoAck: bool, ms: seq<Msg>, s: Ran, ds: seq<Did>)
  {
    |ds| == |ms| && Sized(ms) && forall i: nat :: i < |ms| ==> StepAt(cb, autoAck, ms, s, ds, i)
  }

  ghost predicate StepAt(cb: Callbacks, autoAck: bool, ms: seq<Msg>, s: Ran, ds: seq<Did>, i: nat)
    requires i < |ms| == |ds| && Sized(ms)
  {
    var d := After(s, ds, i);
    ds[i] == Do(cb, autoAck, ms[i], d.expected, d.p) && (i < |ms| - 1 ==> ds[i].c == Next)
  }

  lemma StepsJoin(cb: Callbacks, autoAck: bool, ms: seq<Msg>, s: Ran, ds: seq<Did>, ms2: seq<Msg>, s2: Ran, ds2: seq<Did>)
    requires Steps(cb, autoAck, ms, s, ds) && Steps(cb, autoAck, ms2, s2, ds2) && s.c == Next == s2.c
    requires var d := After(s, ds, |ds|); d.c == Next && s2.expected == d.expected && s2.p == d.p
    ensures Steps(cb, autoAck, ms + ms2, s, ds + ds2)
    ensures forall n :: 0 <= n <= |ds| ==> After(s, ds + ds2, n) == After(s, ds, n)
    ensures forall n :: 0 <= n <= |ds2| ==> After(s, ds + ds2, |ds| + n) == After(s2, ds2, n)
  {
    hide Do;
    var all, todo := ds + ds2, ms + ms2;
    forall m | m in todo ensures m.len == HDRLEN + |m.payload| {}
    forall i: nat | i < |todo| ensures StepAt(cb, autoAck, todo, s, all, i) {
      if i < |ms| {
        assert StepAt(cb, autoAck, ms, s, ds, i);
      } else {
        assert StepAt(cb, autoAck, ms2, s2, ds2, i - |ms|);
      }
    }
  }

  lemma {:induction false} DatagramSteps(cb: Callbacks, autoAck: bool, ms: seq<Msg>, s: Ran) returns (ds: seq<Did>)
    requires Sized(ms) && s.c == Next
    ensures |ds| <= |ms| && Steps(cb, autoAck, ms[..|ds|], s, ds) && (|ds| < |ms| ==> |ds| > 0 && ds[|ds| - 1].c != Next)
    ensures var d, r := After(s, ds, |ds|), DoAll(cb, autoAck, ms, s);
            r == Ran(d.c, d.expected, d.p, s.handled + |ds|)
  {
    hide Do;
    if ms == [] {
      ds := [];
    } else {
      var d := Do(cb, autoAck, ms[0], s.expected, s.p);
      var s2 := Ran(d.c, d.expected, d.p, s.handled + 1);
      assert ms[..1] == [ms[0]] && ms[0] in ms;
      if d.c != Next {
        ds := [d];
      } else {
        var rest := DatagramSteps(cb, autoAck, ms[1..], s2);
        StepsJoin(cb, autoAck, [ms[0]], s, [d], ms[1..][..|rest|], s2, rest);
        ds := [d] + rest;
        assert ms[..|ds|] == [ms[0]] + ms[1..][..|rest|];
      }
    }
  }

  // All messages of some reads
  function MessagesOf(input: seq<Read>): (ms: seq<Msg>)
  {
    if input == [] then [] else DatagramOf(input[0]) + MessagesOf(input[1..])
  }

  // How a run of reads ended: the messages that were handled are those of the
  // reads in order; reading goes on after a read exactly while a multipart
  // message is open; and the last message, or the last read, decides what is
  // returned.
  ghost predicate Explained(cb: Callbacks, autoAck: bool, input: seq<Read>, s: Ran, ds: seq<Did>, o: Outcome)
  {
    var n, used := |ds|, o.res.used;
    && used <= |input| && n <= |MessagesOf(input[..used])|
    && Steps(cb, autoAck, MessagesOf(input[..used])[..n], s, ds)
    && var d := After(s, ds, n);
       var done := if d.p.interrupted then -33 else s.handled + n;
       && o.log == d.p.log && o.res.expected == d.expected
       && (forall j :: 0 <= j < used - 1 ==> Open(input, s, ds, j))
       && (if d.c == Stop then o.res.ret == done
           else if d.c.Out? then o.res.ret == if d.p.interrupted then -33 else if d.c.err != 0 then d.c.err else done
           else
             && n == |MessagesOf(input[..used])|
             && o.res.ret == if used > 0 && input[used - 1].Data? && input[used - 1].bytes != [] && !d.p.multipart then done
                             else if used > 0 && input[used - 1].Nothing? then input[used - 1].n else 0)
       && (d.c == Next && used > 0 && input[used - 1].Data? && input[used - 1].bytes != [] && d.p.multipart ==>
             used == |input|)
       && (used == 0 ==> input == [])
  }

  // Read j gave bytes, and left a multipart message open.
  ghost predicate Open(input: seq<Read>, s: Ran, ds: seq<Did>, j: nat)
  {
    && j < |input| && input[j].Data? && input[j].bytes != []
    && |MessagesOf(input[..j + 1])| <= |ds| && After(s, ds, |MessagesOf(input[..j + 1])|).p.multipart
  }

  lemma {:induction false} RunMeans(cb: Callbacks, autoAck: bool, input: seq<Read>, s: Ran) returns (ds: seq<Did>)
    requires s.c == Next
    ensures Explained(cb, autoAck, input, s, ds, Whole(cb, autoAck, input, s))
  {
    hide Do; hide DoAll; hide Messages; hide Steps;
    var o := Whole(cb, autoAck, input, s);
    StepsNone(cb, autoAck, s);
    ds := [];
    if input == [] {
      assert input[..0] == [];
    } else {
      OneRead(input);
      if input[0].Data? && input[0].bytes != [] {
        var ms := Messages(input[0].bytes, 0);
        MessagesSized(input[0].bytes, 0);
        var ds1 := DatagramSteps(cb, autoAck, ms, s);
        var s' := DoAll(cb, autoAck, ms, s);
        if s'.c == Next && s'.p.multipart {
          var ds2 := RunMeans(cb, autoAck, input[1..], s');
          assert ms[..|ds1|] == ms;
          ds := ds1 + ds2;
          RunJoin(cb, autoAck, input, s, ds1, s', ds2);
        } else {
          ds := ds1;
          assert MessagesOf(input[..1])[..|ds|] == ms[..|ds|];
        }
      } else {
        assert MessagesOf(input[..1]) == [] by { EmptyRead(input[0], 0); }
        assert MessagesOf(input[..1])[..0] == [];
      }
    }
  }

  // A first read, after which reading goes on, and the rest of the run
  lemma RunJoin(cb: Callbacks, autoAck: bool, input: seq<Read>, s: Ran, ds1: seq<Did>, s': Ran, ds2: seq<Did>)
    requires input != [] && input[0].Data? && input[0].bytes != [] && s.c == Next && s'.c == Next && s'.p.multipart
    requires var ms := DatagramOf(input[0]);
             && Steps(cb, autoAck, ms, s, ds1) && |ds1| == |ms|
             && var d := After(s, ds1, |ds1|); s' == Ran(d.c, d.expected, d.p, s.handled + |ds1|)
    requires Explained(cb, autoAck, input[1..], s', ds2, Whole(cb, autoAck, input[1..], s'))
    ensures var o := Whole(cb, autoAck, input[1..], s');
            Explained(cb, autoAck, input, s, ds1 + ds2, o.(res := o.res.(used := o.res.used + 1)))
  {
    hide Do; hide DoAll; hide Messages; hide Steps; hide Whole; hide DatagramOf;
    var o, rest, ds := Whole(cb, autoAck, input[1..], s'), input[1..], ds1 + ds2;
    var used, ms := o.res.used, DatagramOf(input[0]);
    MessagesFront(input, used);
    var ms2 := MessagesOf(rest[..used])[..|ds2|];
    assert MessagesOf(input[..used + 1])[..|ds|] == ms + ms2;
    StepsJoin(cb, autoAck, ms, s, ds1, ms2, s', ds2);
    assert After(s', ds2, |ds2|) == After(s, ds, |ds|) by {
      assert |ds1| + |ds2| == |ds|;
    }
    forall j | 0 <= j < used ensures Open(input, s, ds, j) {
      MessagesFront(input, j);
      if j == 0 {
        assert rest[..0] == [] && MessagesOf([]) == [];
        assert After(s, ds, |ds1|) == After(s, ds1, |ds1|);
      } else {
        assert Open(rest, s', ds2, j - 1);
        MessagesFront(input, j);
        assert After(s, ds, |ds1| + |MessagesOf(rest[..j])|) == After(s', ds2, |MessagesOf(rest[..j])|);
      }
    }
    if used > 0 { assert rest[used - 1] == input[used]; }
  }

  lemma MessagesFront(input: seq<Read>, j: nat)
    requires input != [] && j < |input|
    ensures MessagesOf(input[..j + 1]) == DatagramOf(input[0]) + MessagesOf(input[1..][..j])
  {
    assert input[..j + 1][0] == input[0] && input[..j + 1][1..] == input[1..][..j];
  }

  lemma StepsNone(cb: Callbacks, autoAck: bool, s: Ran)
    ensures Steps(cb, autoAck, [], s, [])
  {}

  lemma OneRead(input: seq<Read>)
    requires input != []
    ensures MessagesOf(input[..1]) == DatagramOf(input[0])
  {
    assert input[..1] == [input[0]] && [input[0]][1..] == [];
    assert MessagesOf([]) == [] && DatagramOf(input[0]) + [] == DatagramOf(input[0]);
  }
}
