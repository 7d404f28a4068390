// Receiving messages and keeping step with sequence numbers (lib/nl.c:482-500,
// 812-1038; nlmsg_ok and nlmsg_next of lib/msg.c:181-203).

module Recv {
  import opened Bytes

  // ---------- messages in a datagram ----------

  // struct nlmsghdr and what follows it
  datatype Msg = Msg(len: nat, typ: nat, flags: nat, seqno: nat, payload: seq<Byte>)

  const HDRLEN := 16

  const NOOP := 1
  const ERROR := 2
  const DONE := 3
  const OVERRUN := 4

  const MULTI := 0x02
  const ACK := 0x04
  const DUMP_INTR := 0x10

  // nlmsg_ok, for the header at pos
  predicate MsgOk(buf: seq<Byte>, pos: nat, remaining: int)
    requires remaining >= HDRLEN ==> pos + HDRLEN <= |buf|
  {
    remaining >= HDRLEN && U32At(buf, pos) >= HDRLEN && U32At(buf, pos) <= remaining
  }

  function MsgAt(buf: seq<Byte>, pos: nat): (m: Msg)
    requires pos + HDRLEN <= |buf| && HDRLEN <= U32At(buf, pos) <= |buf| - pos
    ensures m.len == HDRLEN + |m.payload|
  {
    var len := U32At(buf, pos);
    Msg(len, U16At(buf, pos + 4), U16At(buf, pos + 6), U32At(buf, pos + 8), buf[pos + HDRLEN..pos + len])
  }

  // The messages of a datagram from pos on, as nlmsg_ok and nlmsg_next find them.
  function Messages(buf: seq<Byte>, pos: nat): seq<Msg>
    decreases |buf| - pos
  {
    if pos + HDRLEN <= |buf| && HDRLEN <= U32At(buf, pos) <= |buf| - pos
    then [MsgAt(buf, pos)] + Messages(buf, pos + Align(U32At(buf, pos)))
    else []
  }

  // ---------- what a message does ----------

  // The types after which the next sequence number is expected
  predicate Terminal(m: Msg)
  {
    m.typ == DONE || m.typ == ERROR || m.typ == NOOP || m.typ == OVERRUN
  }

  // An error message too short for a struct nlmsgerr
  predicate Truncated(m: Msg)
  {
    m.len < HDRLEN + 20
  }

  // The error it reports
  function ErrorOf(m: Msg): int
    requires !Truncated(m) && m.len == HDRLEN + |m.payload|
  {
    S32At(m.payload, 0)
  }

  const SEQ_MISMATCH := 16    // NLE_SEQ_MISMATCH
  const MSG_OVERFLOW := 17    // NLE_MSG_OVERFLOW
  const MSG_TRUNC := 18       // NLE_MSG_TRUNC
  const INTERRUPTED := 33     // NLE_DUMP_INTR

  // ---------- the caller's side ----------

  // NL_CB_*, and cb_err
  datatype Kind =
    | CbValid | CbFinish | CbOverrun | CbSkipped | CbAck | CbMsgIn | CbInvalid | CbSeqCheck | CbSendAck | CbDumpIntr | CbErr

  // struct nl_cb: which callbacks are set, and what each of them returns when
  // it is the k-th call of any; syserr is nl_syserr2nlerr.
  datatype Callbacks = Callbacks(isSet: Kind -> bool, answer: (Kind, nat) -> int, syserr: int -> nat)

  // NL_OK, NL_SKIP, NL_STOP
  const OK := 0
  const SKIP := 1
  const STOP := 2

  // What a call of nl_recv gives
  datatype Read = Data(bytes: seq<Byte>) | Nothing(n: int)

  // The socket's counters
  class Socket {
    var seqNext: nat      // s_seq_next
    var seqExpect: nat    // s_seq_expect
    const autoAck: bool   // !(s_flags & NL_NO_AUTO_ACK)

    // __alloc_socket: both start at the same number
    constructor (seq0: nat, autoAck: bool)
      requires seq0 < WRAP
      ensures seqNext == seqExpect == seq0 && this.autoAck == autoAck
    {
      seqNext, seqExpect := seq0, seq0;
      this.autoAck := autoAck;
    }
  }

  const WRAP: nat := 0x1_0000_0000

  // Where a message's processing goes next: the next message, the label stop,
  // or the label out with this error.
  datatype Control = Next | Stop | Out(err: int)

  // The local variables of recvmsgs, and the callbacks that were called, in order
  datatype Progress = Progress(multipart: bool, interrupted: bool, log: seq<Kind>)

  // ---------- without callbacks ----------

  ghost predicate Plain(cb: Callbacks)
  {
    forall kind :: !cb.isSet(kind)
  }

  // Error codes are positive, and none is the one for a sequence mismatch
  // (lib/error.c:86-115).
  ghost predicate SysErrOk(cb: Callbacks)
  {
    forall e :: cb.syserr(e) >= 1 && cb.syserr(e) != SEQ_MISMATCH
  }

  predicate OutOfSequence(m: Msg, autoAck: bool, expected: nat)
  {
    autoAck && m.seqno != expected
  }

  // The error a message ends the run with, or 0
  function Verdict(m: Msg, autoAck: bool, expected: nat, syserr: int -> nat): int
    requires m.len == HDRLEN + |m.payload|
  {
    if OutOfSequence(m, autoAck, expected) then -SEQ_MISMATCH
    else if m.typ == OVERRUN then -MSG_OVERFLOW
    else if m.typ == ERROR && Truncated(m) then -MSG_TRUNC
    else if m.typ == ERROR && ErrorOf(m) != 0 then -(syserr(ErrorOf(m)) as int)
    else 0
  }

  // The state after one message
  datatype State = State(err: int, expected: nat, multipart: bool, interrupted: bool, handled: nat)

  function One(m: Msg, autoAck: bool, syserr: int -> nat, s: State): State
    requires m.len == HDRLEN + |m.payload|
  {
    var v := Verdict(m, autoAck, s.expected, syserr);
    if OutOfSequence(m, autoAck, s.expected) then s.(err := v, handled := s.handled + 1)
    else State(v, if Terminal(m) then (s.expected + 1) % WRAP else s.expected,
               m.typ != DONE && (s.multipart || HasFlag(m.flags, MULTI)),
               s.interrupted || HasFlag(m.flags, DUMP_INTR), s.handled + 1)
  }

  predicate Sized(ms: seq<Msg>)
  {
    forall m :: m in ms ==> m.len == HDRLEN + |m.payload|
  }

  // The messages of a datagram, up to the first that ends the run
  function Batch(ms: seq<Msg>, autoAck: bool, syserr: int -> nat, s: State): State
    requires Sized(ms)
  {
    if ms == [] then s
    else
      var s' := One(ms[0], autoAck, syserr, s);
      if s'.err != 0 then s' else Batch(ms[1..], autoAck, syserr, s')
  }

  // ---------- one message ----------

  // NL_CB_CALL: a callback is called if it is set.  Whether processing goes on
  // here, where it goes otherwise, and what was called by now
  function Ask(cb: Callbacks, kind: Kind, p: Progress): (r: (bool, Control, Progress))
  {
    if !cb.isSet(kind) then (true, Next, p)
    else
      var a, p' := cb.answer(kind, |p.log|), p.(log := p.log + [kind]);
      (a == OK, if a == OK || a == SKIP then Next else if a == STOP then Stop else Out(a), p')
  }

  method Call(cb: Callbacks, kind: Kind, p: Progress) returns (go: bool, c: Control, p': Progress)
    ensures (go, c, p') == Ask(cb, kind, p)
  {
    go, c, p' := true, Next, p;
    if cb.isSet(kind) {
      var a := cb.answer(kind, |p.log|);
      p' := p.(log := p.log + [kind]);
      go := a == OK;
      if a == STOP {
        c := Stop;
      } else if a != OK && a != SKIP {
        c := Out(a);
      }
    }
  }

  // Callbacks that never stop the run, nor get in the way of the sequence check
  ghost predicate Tame(cb: Callbacks)
  {
    && !cb.isSet(CbSeqCheck)
    && (forall kind, k :: cb.isSet(kind) ==> cb.answer(kind, k) == OK || (cb.answer(kind, k) == SKIP && kind != CbMsgIn))
  }

  // What a message does: where processing goes, the number expected next, and
  // the local variables
  datatype Did = Did(c: Control, expected: nat, p: Progress)

  // The body of the inner loop, with any callbacks
  function Do(cb: Callbacks, autoAck: bool, m: Msg, e: nat, p: Progress): Did
    requires m.len == HDRLEN + |m.payload|
  {
    var (go, c, p1) := Ask(cb, CbMsgIn, p);
    if !go then Did(c, e, p1)
    else if cb.isSet(CbSeqCheck) then
      var (go2, c2, p2) := Ask(cb, CbSeqCheck, p1);
      if go2 then DoChecked(cb, m, e, p2) else Did(c2, e, p2)
    else if !OutOfSequence(m, autoAck, e) then DoChecked(cb, m, e, p1)
    else if !cb.isSet(CbInvalid) then Did(Out(-SEQ_MISMATCH), e, p1)
    else
      var (go2, c2, p2) := Ask(cb, CbInvalid, p1);
      if go2 then DoChecked(cb, m, e, p2) else Did(c2, e, p2)
  }

  // What follows the sequence check
  function DoChecked(cb: Callbacks, m: Msg, e: nat, p: Progress): Did
    requires m.len == HDRLEN + |m.payload|
  {
    var e' := if Terminal(m) then (e + 1) % WRAP else e;
    var p1 := if HasFlag(m.flags, MULTI) then p.(multipart := true) else p;
    var (go, c, p2) := if !HasFlag(m.flags, DUMP_INTR) then (true, Next, p1)
                       else if cb.isSet(CbDumpIntr) then Ask(cb, CbDumpIntr, p1) else (true, Next, p1.(interrupted := true));
    if !go then Did(c, e', p2)
    else
      var (go3, c3, p3) := if HasFlag(m.flags, ACK) then Ask(cb, CbSendAck, p2) else (true, Next, p2);
      if !go3 then Did(c3, e', p3)
      else
        var (c4, p4) := DoType(cb, m, p3);
        Did(c4, e', p4)
  }

  // The branches on the message type
  function DoType(cb: Callbacks, m: Msg, p: Progress): (Control, Progress)
    requires m.len == HDRLEN + |m.payload|
  {
    if m.typ == DONE then Asked(cb, CbFinish, p.(multipart := false))
    else if m.typ == NOOP then Asked(cb, CbSkipped, p)
    else if m.typ == OVERRUN then
      if cb.isSet(CbOverrun) then Asked(cb, CbOverrun, p) else (Out(-MSG_OVERFLOW), p)
    else if m.typ != ERROR then Asked(cb, CbValid, p)
    else if Truncated(m) then
      if cb.isSet(CbInvalid) then Asked(cb, CbInvalid, p) else (Out(-MSG_TRUNC), p)
    else if ErrorOf(m) == 0 then Asked(cb, CbAck, p)
    else if !cb.isSet(CbErr) then (Out(-(cb.syserr(ErrorOf(m)) as int)), p)
    else
      var a := cb.answer(CbErr, |p.log|);
      (if a < 0 then Out(a) else if a == STOP then Out(-(cb.syserr(ErrorOf(m)) as int)) else Next,
       p.(log := p.log + [CbErr]))
  }

  function Asked(cb: Callbacks, kind: Kind, p: Progress): (Control, Progress)
  {
    var (_, c, p') := Ask(cb, kind, p);
    (c, p')
  }

  // With no callback set a message does what One says.
  ghost predicate PlainStep(cb: Callbacks, autoAck: bool, m: Msg, e: nat, p: Progress, c: Control, e': nat, p': Progress)
    requires m.len == HDRLEN + |m.payload|
  {
    Plain(cb) ==>
      var s := One(m, autoAck, cb.syserr, State(0, e, p.multipart, p.interrupted, 0));
      && c == (if s.err == 0 then Next else Out(s.err)) && e' == s.expected
      && p' == Progress(s.multipart, s.interrupted, p.log)
  }

  lemma DoPlain(cb: Callbacks, autoAck: bool, m: Msg, e: nat, p: Progress)
    requires m.len == HDRLEN + |m.payload| && SysErrOk(cb)
    ensures var d := Do(cb, autoAck, m, e, p); PlainStep(cb, autoAck, m, e, p, d.c, d.expected, d.p)
  {
    hide HasFlag;
  }

  // With callbacks that only skip, a message with the expected number is
  // counted, and only an error reply ends the run.
  ghost predicate TameStep(cb: Callbacks, m: Msg, e: nat, c: Control, e': nat)
  {
    Tame(cb) && m.seqno == e ==>
      && e' == (e + if Terminal(m) then 1 else 0) % WRAP
      && c != Stop && (c.Out? ==> (m.typ == ERROR || m.typ == OVERRUN) && c.err != -SEQ_MISMATCH && c.err < 0)
  }

  lemma DoTame(cb: Callbacks, autoAck: bool, m: Msg, e: nat, p: Progress)
    requires m.len == HDRLEN + |m.payload| && SysErrOk(cb) && e < WRAP
    ensures var d := Do(cb, autoAck, m, e, p); TameStep(cb, m, e, d.c, d.expected)
  {
    hide HasFlag;
  }

  lemma DoWraps(cb: Callbacks, autoAck: bool, m: Msg, e: nat, p: Progress)
    requires m.len == HDRLEN + |m.payload| && e < WRAP
    ensures Do(cb, autoAck, m, e, p).expected < WRAP
  {
    hide HasFlag; hide DoType;
  }

  // The body of the inner loop of recvmsgs.
  method Process(sk: Socket, cb: Callbacks, m: Msg, p: Progress) returns (c: Control, p': Progress)
    requires m.len == HDRLEN + |m.payload|
    modifies sk`seqExpect
    ensures Did(c, sk.seqExpect, p') == Do(cb, sk.autoAck, m, old(sk.seqExpect), p)
  {
    hide DoChecked;
    var go;
    go, c, p' := Call(cb, CbMsgIn, p);
    if !go { return; }
    if cb.isSet(CbSeqCheck) {
      go, c, p' := Call(cb, CbSeqCheck, p');
      if !go { return; }
    } else if sk.autoAck {
      if m.seqno != sk.seqExpect {
        if cb.isSet(CbInvalid) {
          go, c, p' := Call(cb, CbInvalid, p');
          if !go { return; }
        } else {
          return Out(-SEQ_MISMATCH), p';
        }
      }
    }
    c, p' := Checked(sk, cb, m, p');
  }

  // What follows the sequence check.
  method Checked(sk: Socket, cb: Callbacks, m: Msg, p: Progress) returns (c: Control, p': Progress)
    requires m.len == HDRLEN + |m.payload|
    modifies sk`seqExpect
    ensures Did(c, sk.seqExpect, p') == DoChecked(cb, m, old(sk.seqExpect), p)
  {
    hide DoType; hide HasFlag;
    p' := p;
    if m.typ == DONE || m.typ == ERROR || m.typ == NOOP || m.typ == OVERRUN {
      sk.seqExpect := (sk.seqExpect + 1) % WRAP;
    }
    if HasFlag(m.flags, MULTI) {
      p' := p'.(multipart := true);
    }
    var go;
    if HasFlag(m.flags, DUMP_INTR) {
      if cb.isSet(CbDumpIntr) {
        go, c, p' := Call(cb, CbDumpIntr, p');
        if !go { return; }
      } else {
        p' := p'.(interrupted := true);
      }
    }
    if HasFlag(m.flags, ACK) {
      go, c, p' := Call(cb, CbSendAck, p');
      if !go { return; }
    }
    c, p' := ByType(cb, m, p');
  }

  // The branches on the message type.
  method ByType(cb: Callbacks, m: Msg, p: Progress) returns (c: Control, p': Progress)
    requires m.len == HDRLEN + |m.payload|
    ensures (c, p') == DoType(cb, m, p)
  {
    p' := p;
    var go := true;
    if m.typ == DONE {
      p' := p'.(multipart := false);
      go, c, p' := Call(cb, CbFinish, p');
    } else if m.typ == NOOP {
      go, c, p' := Call(cb, CbSkipped, p');
    } else if m.typ == OVERRUN {
      if !cb.isSet(CbOverrun) {
        return Out(-MSG_OVERFLOW), p';
      }
      go, c, p' := Call(cb, CbOverrun, p');
    } else if m.typ == ERROR {
      if Truncated(m) {
        if !cb.isSet(CbInvalid) {
          return Out(-MSG_TRUNC), p';
        }
        go, c, p' := Call(cb, CbInvalid, p');
      } else if ErrorOf(m) != 0 {
        var code := -(cb.syserr(ErrorOf(m)) as int);
        if !cb.isSet(CbErr) {
          return Out(code), p';
        }
        var a := cb.answer(CbErr, |p'.log|);
        p' := p'.(log := p'.log + [CbErr]);
        if a < 0 {
          return Out(a), p';
        }
        if a == STOP {
          return Out(code), p';
        }
      } else {
        go, c, p' := Call(cb, CbAck, p');
      }
    } else {
      go, c, p' := Call(cb, CbValid, p');
    }
    if go {
      c := Next;
    }
  }

  // ---------- a datagram ----------

  lemma {:induction false} MessagesSized(buf: seq<Byte>, pos: nat)
    ensures Sized(Messages(buf, pos))
    decreases |buf| - pos
  {
    if pos + HDRLEN <= |buf| && HDRLEN <= U32At(buf, pos) <= |buf| - pos {
      MessagesSized(buf, pos + Align(U32At(buf, pos)));
    }
  }

  // All messages of a datagram carry one sequence number, and only its last
  // message may end an answer.
  ghost predicate DatagramOk(ms: seq<Msg>, e: nat)
  {
    forall i :: 0 <= i < |ms| ==>
      ms[i].seqno == e && (Terminal(ms[i]) ==> i == |ms| - 1 && (ms[i].typ == DONE || ms[i].typ == ERROR))
  }

  // The number expected after it
  function Advance(ms: seq<Msg>, e: nat): (r: nat)
    ensures e < WRAP ==> r < WRAP
  {
    if ms != [] && Terminal(ms[|ms| - 1]) then (e + 1) % WRAP else e
  }

  // How far a run has come: where it goes next, the number expected, the local
  // variables, and how many messages were handled
  datatype Ran = Ran(c: Control, expected: nat, p: Progress, handled: nat)

  // The messages of a datagram, up to the first that ends the loop
  function DoAll(cb: Callbacks, autoAck: bool, ms: seq<Msg>, s: Ran): Ran
    requires Sized(ms)
  {
    if ms == [] || s.c != Next then s
    else
      var d := Do(cb, autoAck, ms[0], s.expected, s.p);
      DoAll(cb, autoAck, ms[1..], Ran(d.c, d.expected, d.p, s.handled + 1))
  }

  lemma {:induction false} DoAllWraps(cb: Callbacks, autoAck: bool, ms: seq<Msg>, s: Ran)
    requires Sized(ms) && s.expected < WRAP
    ensures DoAll(cb, autoAck, ms, s).expected < WRAP
  {
    hide Do;
    if ms != [] && s.c == Next {
      var d := Do(cb, autoAck, ms[0], s.expected, s.p);
      DoWraps(cb, autoAck, ms[0], s.expected, s.p);
      DoAllWraps(cb, autoAck, ms[1..], Ran(d.c, d.expected, d.p, s.handled + 1));
    }
  }

  // With no callback set a datagram does what Batch says.
  lemma {:induction false} AllPlain(cb: Callbacks, autoAck: bool, ms: seq<Msg>, s: Ran)
    requires Sized(ms) && Plain(cb) && SysErrOk(cb) && s.c == Next
    ensures var b := Batch(ms, autoAck, cb.syserr, State(0, s.expected, s.p.multipart, s.p.interrupted, s.handled));
            DoAll(cb, autoAck, ms, s)
            == Ran(if b.err == 0 then Next else Out(b.err), b.expected, Progress(b.multipart, b.interrupted, s.p.log), b.handled)
  {
    hide Do; hide Plain; hide SysErrOk; hide Verdict; hide HasFlag;
    if ms != [] {
      DoPlain(cb, autoAck, ms[0], s.expected, s.p);
      OneCounts(ms[0], autoAck, cb.syserr, s);
      var d := Do(cb, autoAck, ms[0], s.expected, s.p);
      var s' := Ran(d.c, d.expected, d.p, s.handled + 1);
      if d.c == Next { AllPlain(cb, autoAck, ms[1..], s'); }
    }
  }

  lemma OneCounts(m: Msg, autoAck: bool, syserr: int -> nat, s: Ran)
    requires m.len == HDRLEN + |m.payload|
    ensures var one := One(m, autoAck, syserr, State(0, s.expected, s.p.multipart, s.p.interrupted, s.handled));
            one == One(m, autoAck, syserr, State(0, s.expected, s.p.multipart, s.p.interrupted, 0)).(handled := s.handled + 1)
  {}

  // With callbacks that only skip, a datagram that is in order is counted.
  lemma {:induction false} AllTame(cb: Callbacks, autoAck: bool, ms: seq<Msg>, s: Ran)
    requires Sized(ms) && Tame(cb) && SysErrOk(cb) && s.c == Next && s.expected < WRAP && DatagramOk(ms, s.expected)
    ensures var r := DoAll(cb, autoAck, ms, s);
            && r.c != Stop && r.expected == Advance(ms, s.expected)
            && (r.c.Out? ==> r.c.err != -SEQ_MISMATCH && r.c.err < 0)
  {
    hide Do; hide Tame; hide SysErrOk;
    if ms != [] {
      DoTame(cb, autoAck, ms[0], s.expected, s.p);
      var d := Do(cb, autoAck, ms[0], s.expected, s.p);
      var s' := Ran(d.c, d.expected, d.p, s.handled + 1);
      if Terminal(ms[0]) {
        assert ms[1..] == [];
      } else {
        AllTame(cb, autoAck, ms[1..], s');
      }
    }
  }

  // The inner loop of recvmsgs.
  method ProcessDatagram(sk: Socket, cb: Callbacks, buf: seq<Byte>, p: Progress, nrecv: nat)
    returns (c: Control, p': Progress, nrecv': nat)
    modifies sk`seqExpect
    ensures Sized(Messages(buf, 0))
    ensures Ran(c, sk.seqExpect, p', nrecv')
            == DoAll(cb, sk.autoAck, Messages(buf, 0), Ran(Next, old(sk.seqExpect), p, nrecv))
  {
    hide Align; hide MsgAt; hide Messages; hide U32At; hide At; hide Do;
    ghost var ms, i := Messages(buf, 0), 0;
    ghost var s0 := Ran(Next, sk.seqExpect, p, nrecv);
    c, p', nrecv' := Next, p, nrecv;
    var pos, n := 0, |buf|;
    MessagesSized(buf, 0);
    FirstAt(buf, ms);
    while MsgOk(buf, pos, n)
      invariant 0 <= pos && n == |buf| - pos && 0 <= i <= |ms|
      invariant At(buf, pos, ms, i) && c == Next
      invariant DoAll(cb, sk.autoAck, ms[i..], Ran(Next, sk.seqExpect, p', nrecv')) == DoAll(cb, sk.autoAck, ms, s0)
      decreases n
    {
      FirstMessage(buf, pos, ms, i);
      assert ms[i..][0] == ms[i] && ms[i..][1..] == ms[i + 1..];
      var m := MsgAt(buf, pos);
      nrecv' := nrecv' + 1;
      c, p' := Process(sk, cb, m, p');
      i := i + 1;
      if c != Next {
        break;
      }
      pos, n := pos + Align(U32At(buf, pos)), n - Align(U32At(buf, pos));
    }
    if c == Next { NoMessage(buf, pos, n, ms, i); }
  }

  // The message at pos is the i-th.
  ghost predicate At(buf: seq<Byte>, pos: nat, ms: seq<Msg>, i: nat)
  {
    i <= |ms| && Messages(buf, pos) == ms[i..]
  }

  lemma FirstAt(buf: seq<Byte>, ms: seq<Msg>)
    requires ms == Messages(buf, 0)
    ensures At(buf, 0, ms, 0) && ms[0..] == ms
  {}

  lemma FirstMessage(buf: seq<Byte>, pos: nat, ms: seq<Msg>, i: nat)
    requires MsgOk(buf, pos, |buf| - pos) && At(buf, pos, ms, i)
    ensures i < |ms| && ms[i] == MsgAt(buf, pos) && ms[i].len == HDRLEN + |ms[i].payload|
    ensures At(buf, pos + Align(U32At(buf, pos)), ms, i + 1) && Align(U32At(buf, pos)) > 0
  {
    assert ms[i..][0] == ms[i] && ms[i..][1..] == ms[i + 1..];
  }

  lemma NoMessage(buf: seq<Byte>, pos: nat, n: int, ms: seq<Msg>, i: nat)
    requires n == |buf| - pos && !MsgOk(buf, pos, n) && At(buf, pos, ms, i)
    ensures i == |ms|
  {}

  // ---------- the whole loop ----------

  // What a call of recvmsgs does: its return value, the number expected
  // afterwards, and how many reads it made.
  datatype Result = Result(ret: int, expected: nat, used: nat)

  function Finished(s: State, used: nat): Result
  {
    Result(if s.interrupted then -INTERRUPTED else if s.err != 0 then s.err else s.handled, s.expected, used)
  }

  // Without callbacks: datagrams are read until one ends the run or leaves no
  // multipart message open.  A read that gives nothing ends it at once.
  function Received(input: seq<Read>, autoAck: bool, syserr: int -> nat, s: State): Result
  {
    if input == [] then Result(0, s.expected, 0)
    else match input[0]
      case Nothing(n) => Result(n, s.expected, 1)
      case Data(buf) =>
        if buf == [] then Result(0, s.expected, 1)
        else
          MessagesSized(buf, 0);
          var s' := Batch(Messages(buf, 0), autoAck, syserr, s);
          if s'.err == 0 && s'.multipart then
            var r := Received(input[1..], autoAck, syserr, s');
            r.(used := r.used + 1)
          else Finished(s', 1)
  }

  function DatagramOf(r: Read): seq<Msg>
  {
    match r case Data(buf) => Messages(buf, 0) case Nothing(_) => []
  }

  // Datagrams that answer requests in order, the oldest expected one first
  ghost predicate InOrder(input: seq<Read>, e: nat)
  {
    input == [] || (DatagramOk(DatagramOf(input[0]), e) && InOrder(input[1..], Advance(DatagramOf(input[0]), e)))
  }

  // The number expected after them
  function AdvanceAll(input: seq<Read>, e: nat): (r: nat)
    ensures e < WRAP ==> r < WRAP
  {
    if input == [] then e else AdvanceAll(input[1..], Advance(DatagramOf(input[0]), e))
  }

  // The same with any callbacks, and the kinds of callbacks that were called
  datatype Outcome = Outcome(res: Result, log: seq<Kind>)

  function Ended(s: Ran, used: nat): Outcome
  {
    var err := if s.c.Out? then s.c.err else 0;
    Outcome(Result(if s.p.interrupted then -INTERRUPTED else if err != 0 then err else s.handled, s.expected, used), s.p.log)
  }

  function Whole(cb: Callbacks, autoAck: bool, input: seq<Read>, s: Ran): Outcome
  {
    if input == [] then Outcome(Result(0, s.expected, 0), s.p.log)
    else match input[0]
      case Nothing(n) => Outcome(Result(n, s.expected, 1), s.p.log)
      case Data(buf) =>
        if buf == [] then Outcome(Result(0, s.expected, 1), s.p.log)
        else
          MessagesSized(buf, 0);
          var s' := DoAll(cb, autoAck, Messages(buf, 0), s);
          if s'.c == Next && s'.p.multipart then
            var o := Whole(cb, autoAck, input[1..], s');
            o.(res := o.res.(used := o.res.used + 1))
          else Ended(s', 1)
  }

  function Fresh(e: nat): Ran
  {
    Ran(Next, e, Progress(false, false, []), 0)
  }

  // recvmsgs; the reads are what nl_recv gives, and nothing after them.
  method Recvmsgs(sk: Socket, cb: Callbacks, input: seq<Read>) returns (ret: int, used: nat, ghost log: seq<Kind>)
    requires sk.seqExpect < WRAP && SysErrOk(cb)
    requires forall r :: r in input && r.Nothing? ==> r.n <= 0 && r.n != -SEQ_MISMATCH
    modifies sk`seqExpect
    ensures sk.seqExpect < WRAP && used <= |input|
    ensures Outcome(Result(ret, sk.seqExpect, used), log) == Whole(cb, sk.autoAck, input, Fresh(old(sk.seqExpect)))
    ensures Plain(cb) ==>
      Result(ret, sk.seqExpect, used) == Received(input, sk.autoAck, cb.syserr, State(0, old(sk.seqExpect), false, false, 0))
    ensures Tame(cb) && InOrder(input, old(sk.seqExpect)) ==>
      && ret != -SEQ_MISMATCH && sk.seqExpect == AdvanceAll(input[..used], old(sk.seqExpect))
      && InOrder(input[used..], sk.seqExpect)
  {
    hide Tame; hide Plain; hide SysErrOk; hide Whole; hide Received; hide InOrder; hide AdvanceAll;
    WholeMeans(cb, sk.autoAck, input, sk.seqExpect);
    ret, used, log := ReadAll(sk, cb, input);
  }

  lemma WholeMeans(cb: Callbacks, autoAck: bool, input: seq<Read>, e: nat)
    requires e < WRAP && SysErrOk(cb) && forall r :: r in input && r.Nothing? ==> r.n <= 0 && r.n != -SEQ_MISMATCH
    ensures var r := Whole(cb, autoAck, input, Fresh(e)).res;
            && r.expected < WRAP && r.used <= |input|
            && (Plain(cb) ==> r == Received(input, autoAck, cb.syserr, State(0, e, false, false, 0)))
            && (Tame(cb) && InOrder(input, e) ==>
                  && r.ret != -SEQ_MISMATCH && r.expected == AdvanceAll(input[..r.used], e)
                  && InOrder(input[r.used..], r.expected))
  {
    hide Tame; hide Plain; hide SysErrOk; hide InOrder; hide AdvanceAll; hide Whole; hide Received;
    WholeWraps(cb, autoAck, input, Fresh(e));
    if Plain(cb) { WholePlain(cb, autoAck, input, Fresh(e)); }
    if Tame(cb) && InOrder(input, e) { WholeTame(cb, autoAck, input, Fresh(e)); }
  }

  method ReadAll(sk: Socket, cb: Callbacks, input: seq<Read>) returns (ret: int, used: nat, ghost log: seq<Kind>)
    modifies sk`seqExpect
    ensures Outcome(Result(ret, sk.seqExpect, used), log) == Whole(cb, sk.autoAck, input, Fresh(old(sk.seqExpect)))
  {
    hide DoAll; hide Messages;
    ghost var whole := Whole(cb, sk.autoAck, input, Fresh(sk.seqExpect));
    var p := Progress(false, false, []);
    var nrecv: nat := 0;
    used := 0;
    assert input[0..] == input;
    assert whole.res.(used := whole.res.used + 0) == whole.res;
    while used < |input|
      invariant 0 <= used <= |input|
      invariant LeadsTo(Whole(cb, sk.autoAck, input[used..], Ran(Next, sk.seqExpect, p, nrecv)), used, whole)
    {
      assert input[used..][0] == input[used] && input[used..][1..] == input[used + 1..];
      used := used + 1;
      log := p.log;
      match input[used - 1] {
        case Nothing(n) =>
          return n, used, log;
        case Data(buf) =>
          if |buf| == 0 {
            return 0, used, log;
          }
          var c;
          c, p, nrecv := ProcessDatagram(sk, cb, buf, p, nrecv);
          log := p.log;
          if c == Next && p.multipart {
            continue;
          }
          ret := if c.Out? then c.err else 0;
          if p.interrupted {
            ret := -INTERRUPTED;
          }
          if ret == 0 {
            ret := nrecv;
          }
          return;
      }
    }
    assert input[used..] == [];
    ret, log := 0, p.log;
  }

  // The rest of a run, from after some reads, leads where the whole run leads.
  predicate LeadsTo(rest: Outcome, used: nat, whole: Outcome)
  {
    rest.(res := rest.res.(used := rest.res.used + used)) == whole
  }

  lemma {:induction false} WholeWraps(cb: Callbacks, autoAck: bool, input: seq<Read>, s: Ran)
    requires s.expected < WRAP
    ensures var r := Whole(cb, autoAck, input, s).res; r.expected < WRAP && r.used <= |input|
  {
    hide DoAll; hide Messages;
    if input != [] && input[0].Data? && input[0].bytes != [] {
      MessagesSized(input[0].bytes, 0);
      DoAllWraps(cb, autoAck, Messages(input[0].bytes, 0), s);
      WholeWraps(cb, autoAck, input[1..], DoAll(cb, autoAck, Messages(input[0].bytes, 0), s));
    }
  }

  // With no callback set a run does what Received says.
  lemma {:induction false} WholePlain(cb: Callbacks, autoAck: bool, input: seq<Read>, s: Ran)
    requires Plain(cb) && SysErrOk(cb) && s.c == Next
    ensures Whole(cb, autoAck, input, s).res
            == Received(input, autoAck, cb.syserr, State(0, s.expected, s.p.multipart, s.p.interrupted, s.handled))
  {
    hide DoAll; hide Messages; hide Batch; hide Plain; hide SysErrOk;
    if input != [] && input[0].Data? && input[0].bytes != [] {
      var ms := Messages(input[0].bytes, 0);
      MessagesSized(input[0].bytes, 0);
      AllPlain(cb, autoAck, ms, s);
      var s' := DoAll(cb, autoAck, ms, s);
      if s'.c == Next && s'.p.multipart { WholePlain(cb, autoAck, input[1..], s'); }
    }
  }

  // With callbacks that only skip, answers in order never give a mismatch.
  lemma {:induction false} WholeTame(cb: Callbacks, autoAck: bool, input: seq<Read>, s: Ran)
    requires Tame(cb) && SysErrOk(cb) && s.c == Next && s.expected < WRAP && InOrder(input, s.expected)
    requires forall r :: r in input && r.Nothing? ==> r.n <= 0 && r.n != -SEQ_MISMATCH
    ensures var r := Whole(cb, autoAck, input, s).res;
            && r.used <= |input| && r.ret != -SEQ_MISMATCH && r.expected == AdvanceAll(input[..r.used], s.expected)
            && InOrder(input[r.used..], r.expected)
  {
    hide DoAll; hide Messages; hide Tame; hide SysErrOk; hide DatagramOk; hide Advance;
    assert input[..0] == [] && input[0..] == input;
    if input != [] {
      assert input[..1] == [input[0]] && input[..1][1..] == [];
      if input[0].Data? && input[0].bytes != [] {
        var ms := Messages(input[0].bytes, 0);
        MessagesSized(input[0].bytes, 0);
        AllTame(cb, autoAck, ms, s);
        var s' := DoAll(cb, autoAck, ms, s);
        if s'.c == Next && s'.p.multipart {
          WholeTame(cb, autoAck, input[1..], s');
          var k := Whole(cb, autoAck, input[1..], s').res.used;
          assert input[..k + 1][0] == input[0] && input[..k + 1][1..] == input[1..][..k];
          assert input[k + 1..] == input[1..][k..];
        }
      } else {
        EmptyRead(input[0], s.expected);
      }
    }
  }

  lemma EmptyRead(r: Read, e: nat)
    requires r.Nothing? || r == Data([])
    ensures DatagramOf(r) == [] && Advance(DatagramOf(r), e) == e
  {}
}
