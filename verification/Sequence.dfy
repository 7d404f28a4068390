// Sequence numbers over a whole conversation: requests are numbered by
// nl_complete_msg (lib/nl.c:482-500) and answers are counted by recvmsgs
// (lib/nl.c:877-905).

module Sequence {
  import opened Bytes
  import opened Recv
  import opened RecvMeaning
  import WordBits

  // ---------- requests ----------

  const AUTO_SEQ := 0     // NL_AUTO_SEQ
  const AUTO_PORT := 0    // NL_AUTO_PORT
  const REQUEST := 0x01   // NLM_F_REQUEST

  // struct nl_msg, as far as it is completed before sending
  datatype OutMsg = OutMsg(pid: nat, seqno: nat, protocol: int, flags: nat)

  function SetFlag(flags: nat, bit: nat): nat
    requires bit > 0
  {
    if HasFlag(flags, bit) then flags else flags + bit
  }

  // Setting a flag sets its bit and leaves all others.
  lemma SetFlagBits(flags: nat, bit: nat, k: nat, n: nat)
    requires (k == 0 && bit == 1) || (k == 2 && bit == 4)
    ensures WordBits.BitAt(SetFlag(flags, bit), n) <==> WordBits.BitAt(flags, n) || n == k
  {
    FlagIsBit(flags);
    assert WordBits.Power(0) == 1 && WordBits.Power(1) == 2 && WordBits.Power(2) == 4;
    if !HasFlag(flags, bit) { AddBit(flags, k, n); }
  }

  lemma FlagIsBit(flags: nat)
    ensures HasFlag(flags, 1) <==> WordBits.BitAt(flags, 0)
    ensures HasFlag(flags, 4) <==> WordBits.BitAt(flags, 2)
  {
    assert flags / 2 / 2 == flags / 4;
    assert WordBits.BitAt(flags / 2, 1) == WordBits.BitAt(flags / 2 / 2, 0);
  }

  lemma {:induction false} AddBit(a: nat, k: nat, n: nat)
    requires !WordBits.BitAt(a, k)
    ensures WordBits.BitAt(a + WordBits.Power(k), n) <==> WordBits.BitAt(a, n) || n == k
  {
    if k == 0 {
      assert (a + 1) / 2 == a / 2;
    } else {
      var p := WordBits.Power(k - 1);
      assert (a + 2 * p) / 2 == a / 2 + p && (a + 2 * p) % 2 == a % 2;
      if n > 0 { AddBit(a / 2, k - 1, n - 1); }
    }
  }

  // nl_complete_msg
  method CompleteMsg(sk: Socket, m: OutMsg, localPort: nat, protocol: int) returns (m': OutMsg)
    requires sk.seqNext < WRAP
    modifies sk`seqNext
    ensures sk.seqNext == (if m.seqno == AUTO_SEQ then (old(sk.seqNext) + 1) % WRAP else old(sk.seqNext))
    ensures m'.seqno == if m.seqno == AUTO_SEQ then old(sk.seqNext) else m.seqno
    ensures m'.pid == if m.pid == AUTO_PORT then localPort else m.pid
    ensures m'.protocol == if m.protocol == -1 then protocol else m.protocol
    ensures forall n: nat :: WordBits.BitAt(m'.flags, n) <==>
              WordBits.BitAt(m.flags, n) || n == 0 || (n == 2 && sk.autoAck)
  {
    m' := m;
    if m'.pid == AUTO_PORT {
      m' := m'.(pid := localPort);
    }
    if m'.seqno == AUTO_SEQ {
      m' := m'.(seqno := sk.seqNext);
      sk.seqNext := (sk.seqNext + 1) % WRAP;
    }
    if m'.protocol == -1 {
      m' := m'.(protocol := protocol);
    }
    m' := m'.(flags := SetFlag(m'.flags, REQUEST));
    ghost var flags := m'.flags;
    forall n: nat ensures WordBits.BitAt(flags, n) <==> WordBits.BitAt(m.flags, n) || n == 0 {
      SetFlagBits(m.flags, REQUEST, 0, n);
    }
    if sk.autoAck {
      m' := m'.(flags := SetFlag(m'.flags, ACK));
      forall n: nat ensures WordBits.BitAt(m'.flags, n) <==> WordBits.BitAt(flags, n) || n == 2 {
        SetFlagBits(flags, ACK, 2, n);
      }
    }
  }

  // ---------- answers ----------

  // How many answers end in these datagrams
  function Answers(input: seq<Read>): nat
  {
    if input == [] then 0 else Ends(DatagramOf(input[0])) + Answers(input[1..])
  }

  function Ends(ms: seq<Msg>): nat
  {
    if ms != [] && Terminal(ms[|ms| - 1]) then 1 else 0
  }

  // The answer to request q: any number of data messages in any datagrams, and
  // then one message, the last of the last datagram, that ends it.
  ghost predicate AnswerTo(input: seq<Read>, q: nat)
  {
    && input != [] && (forall r :: r in input ==> r.Data? && r.bytes != [])
    && (forall i :: 0 <= i < |input| ==> DatagramOk(DatagramOf(input[i]), q))
    && (forall i :: 0 <= i < |input| ==> (Ends(DatagramOf(input[i])) == 1 <==> i == |input| - 1))
  }

  lemma AdvanceIsAhead(ms: seq<Msg>, e: nat)
    requires e < WRAP
    ensures Advance(ms, e) == Ahead(e, Ends(ms))
  {}

  lemma {:induction false} AdvanceAllIsAhead(input: seq<Read>, e: nat)
    requires e < WRAP
    ensures AdvanceAll(input, e) == Ahead(e, Answers(input))
  {
    hide DatagramOf; hide Advance; hide Ends; hide Ahead;
    if input == [] {
      AheadNothing(e);
    } else {
      AdvanceIsAhead(DatagramOf(input[0]), e);
      AdvanceAllIsAhead(input[1..], Ahead(e, Ends(DatagramOf(input[0]))));
      WrapAgain(e, Ends(DatagramOf(input[0])), Answers(input[1..]));
    }
  }

  lemma AheadNothing(e: nat)
    requires e < WRAP
    ensures Ahead(e, 0) == e
  {}

  lemma {:induction false} AnswersAppend(s: seq<Read>, t: seq<Read>)
    ensures Answers(s + t) == Answers(s) + Answers(t)
  {
    hide DatagramOf; hide Ends;
    if s == [] {
      assert s + t == t;
    } else {
      assert (s + t)[1..] == s[1..] + t;
      AnswersAppend(s[1..], t);
    }
  }

  lemma {:induction false} InOrderAppend(s: seq<Read>, t: seq<Read>, e: nat)
    requires InOrder(s, e) && InOrder(t, AdvanceAll(s, e))
    ensures InOrder(s + t, e)
  {
    hide DatagramOf; hide DatagramOk; hide Advance;
    if s == [] {
      assert s + t == t;
    } else {
      assert (s + t)[1..] == s[1..] + t;
      InOrderAppend(s[1..], t, Advance(DatagramOf(s[0]), e));
    }
  }

  // An answer is in order and ends once.
  lemma {:induction false} AnswerInOrder(input: seq<Read>, q: nat)
    requires AnswerTo(input, q) && q < WRAP
    ensures InOrder(input, q) && Answers(input) == 1
  {
    hide DatagramOf; hide DatagramOk;
    if |input| == 1 {
      assert input[1..] == [];
    } else {
      var rest := input[1..];
      assert Ends(DatagramOf(input[0])) == 0;
      assert forall i :: 0 <= i < |rest| ==> rest[i] == input[i + 1];
      AnswerInOrder(rest, q);
    }
  }

  // ---------- the conversation ----------

  // stream: the datagrams that were sent to the socket and not yet read.
  // waiting: the requests the kernel has not answered yet.
  class Session {
    const sk: Socket
    const cb: Callbacks
    ghost var waiting: nat
    var stream: seq<Read>

    constructor (seq0: nat, cb: Callbacks)
      requires seq0 < WRAP && Tame(cb) && SysErrOk(cb)
      ensures fresh(sk) && this.cb == cb && stream == [] && waiting == 0 && InStep()
    {
      sk := new Socket(seq0, true);
      this.cb, stream, waiting := cb, [], 0;
    }

    // Requests whose last message was not read yet
    ghost function Unanswered(): nat
      reads this
    {
      Answers(stream) + waiting
    }

    ghost predicate InStep()
      reads this, sk
    {
      && Tame(cb) && SysErrOk(cb) && sk.autoAck && sk.seqExpect < WRAP && sk.seqNext < WRAP
      && (forall r :: r in stream ==> r.Data?)
      && InOrder(stream, sk.seqExpect)
      && sk.seqNext == Ahead(sk.seqExpect, Unanswered())
    }

    // What is in step means for the counters.
    lemma Distance()
      requires InStep()
      ensures (sk.seqNext - sk.seqExpect) % WRAP == Unanswered() % WRAP
    {
      hide InOrder; hide Tame; hide SysErrOk;
    }

    // nl_send_auto of a message without a number
    method Send(m: OutMsg, localPort: nat, protocol: int) returns (m': OutMsg)
      requires InStep() && m.seqno == AUTO_SEQ
      modifies this`waiting, sk`seqNext
      ensures InStep() && Unanswered() == old(Unanswered()) + 1
    {
      hide InOrder; hide Tame; hide SysErrOk;
      m' := CompleteMsg(sk, m, localPort, protocol);
      WrapAgain(sk.seqExpect, Unanswered(), 1);
      waiting := waiting + 1;
    }

    // The number of the oldest request the kernel has not answered
    ghost function Oldest(): nat
      reads this, sk
    {
      Ahead(sk.seqExpect, Answers(stream))
    }

    // The kernel answers the oldest request.
    method Answer(answer: seq<Read>)
      requires InStep() && waiting > 0 && AnswerTo(answer, Oldest())
      modifies this`waiting, this`stream
      ensures InStep() && Unanswered() == old(Unanswered())
    {
      hide Tame; hide SysErrOk; hide Ahead; hide DatagramOf; hide DatagramOk; hide InOrder;
      AnswerInOrder(answer, Oldest());
      AdvanceAllIsAhead(stream, sk.seqExpect);
      InOrderAppend(stream, answer, sk.seqExpect);
      AnswersAppend(stream, answer);
      stream := stream + answer;
      waiting := waiting - 1;
    }

    // nl_recvmsgs: no mismatch, and what it read is what it counted.
    method Receive() returns (ret: int, ghost answered: nat)
      requires InStep()
      modifies this`stream, sk`seqExpect
      ensures InStep() && ret != -SEQ_MISMATCH
      ensures Unanswered() + answered == old(Unanswered())
      ensures |stream| <= |old(stream)| && stream == old(stream)[|old(stream)| - |stream|..]
    {
      hide Tame; hide SysErrOk; hide Ahead; hide DatagramOf; hide DatagramOk; hide Plain;
      var used;
      ghost var log;
      ghost var e := sk.seqExpect;
      ret, used, log := Recvmsgs(sk, cb, stream);
      assert stream == stream[..used] + stream[used..];
      AnswersAppend(stream[..used], stream[used..]);
      AdvanceAllIsAhead(stream[..used], e);
      answered := Answers(stream[..used]);
      WrapAgain(e, answered, Answers(stream[used..]) + waiting);
      stream := stream[used..];
    }
  }
}
