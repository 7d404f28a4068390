// What the receive loop does without callbacks, said of the messages as a whole.

module RecvMeaning {
  import opened Bytes
  import opened Recv

  // e after t more answers
  function Ahead(e: nat, t: nat): (r: nat)
    ensures r < WRAP
  {
    (e + t) % WRAP
  }

  function Terminals(ms: seq<Msg>): nat
  {
    if ms == [] then 0 else Terminals(ms[..|ms| - 1]) + if Terminal(ms[|ms| - 1]) then 1 else 0
  }

  // The sequence number expected of message i
  function ExpectedAt(ms: seq<Msg>, i: nat, e: nat): nat
    requires i <= |ms|
  {
    Ahead(e, Terminals(ms[..i]))
  }

  // The last message that opens or ends a multipart message decides.
  function OpenAfter(ms: seq<Msg>, open: bool): bool
  {
    if ms == [] then open
    else
      var m := ms[|ms| - 1];
      m.typ != DONE && (HasFlag(m.flags, MULTI) || OpenAfter(ms[..|ms| - 1], open))
  }

  predicate Flagged(ms: seq<Msg>)
  {
    exists m :: m in ms && HasFlag(m.flags, DUMP_INTR)
  }

  // How many messages of the first k are past the sequence check when the
  // k-th ends the run.
  function Past(ms: seq<Msg>, autoAck: bool, e: nat, k: nat): (n: nat)
    requires k <= |ms|
    ensures n <= |ms|
  {
    if k < |ms| && !OutOfSequence(ms[k], autoAck, ExpectedAt(ms, k, e)) then k + 1 else k
  }

  // Message k is the first that ends the run.
  ghost predicate FirstEnding(ms: seq<Msg>, autoAck: bool, syserr: int -> nat, e: nat, k: nat)
    requires Sized(ms)
  {
    && k <= |ms|
    && (forall i :: 0 <= i < k ==> Verdict(ms[i], autoAck, ExpectedAt(ms, i, e), syserr) == 0)
    && (k < |ms| ==> Verdict(ms[k], autoAck, ExpectedAt(ms, k, e), syserr) != 0)
  }

  // Where a datagram ends the run, or its length
  function Ending(ms: seq<Msg>, autoAck: bool, syserr: int -> nat, e: nat): (k: nat)
    requires Sized(ms)
    ensures k <= |ms|
  {
    if ms == [] || Verdict(ms[0], autoAck, e, syserr) != 0 then 0
    else 1 + Ending(ms[1..], autoAck, syserr, Ahead(e, if Terminal(ms[0]) then 1 else 0))
  }

  // The state after a datagram, said of its messages as a whole.
  ghost predicate Summary(ms: seq<Msg>, autoAck: bool, syserr: int -> nat, s: State, k: nat, r: State)
    requires Sized(ms) && k <= |ms|
  {
    var past := ms[..Past(ms, autoAck, s.expected, k)];
    && r.err == (if k < |ms| then Verdict(ms[k], autoAck, ExpectedAt(ms, k, s.expected), syserr) else 0)
    && r.expected == Ahead(s.expected, Terminals(past))
    && r.multipart == OpenAfter(past, s.multipart)
    && (r.interrupted <==> s.interrupted || Flagged(past))
    && r.handled == s.handled + (if k < |ms| then k + 1 else k)
  }

  lemma {:induction false} TerminalsFront(m: Msg, ms: seq<Msg>)
    ensures Terminals([m] + ms) == Terminals(ms) + if Terminal(m) then 1 else 0
  {
    if ms == [] {
      assert [m] + ms == [m] && [m][..0] == [];
    } else {
      assert ([m] + ms)[..|ms|] == [m] + ms[..|ms| - 1];
      TerminalsFront(m, ms[..|ms| - 1]);
    }
  }

  lemma {:induction false} OpenAfterFront(m: Msg, ms: seq<Msg>, open: bool)
    ensures OpenAfter([m] + ms, open) == OpenAfter(ms, m.typ != DONE && (HasFlag(m.flags, MULTI) || open))
  {
    if ms == [] {
      assert [m] + ms == [m] && [m][..0] == [];
    } else {
      assert ([m] + ms)[..|ms|] == [m] + ms[..|ms| - 1];
      OpenAfterFront(m, ms[..|ms| - 1], open);
    }
  }

  lemma ExpectedAtFront(ms: seq<Msg>, i: nat, e: nat)
    requires i < |ms|
    ensures ExpectedAt(ms, i + 1, e) == ExpectedAt(ms[1..], i, Ahead(e, if Terminal(ms[0]) then 1 else 0))
  {
    assert ms[..i + 1] == [ms[0]] + ms[1..][..i];
    TerminalsFront(ms[0], ms[1..][..i]);
    WrapAgain(e, if Terminal(ms[0]) then 1 else 0, Terminals(ms[1..][..i]));
  }

  // The fold over a datagram stops at the first message that ends the run, and
  // everything else follows from the messages it passed.
  lemma {:induction false} BatchMeans(ms: seq<Msg>, autoAck: bool, syserr: int -> nat, s: State) returns (k: nat)
    requires Sized(ms) && s.err == 0 && s.expected < WRAP
    ensures k == Ending(ms, autoAck, syserr, s.expected) && FirstEnding(ms, autoAck, syserr, s.expected, k)
    ensures Summary(ms, autoAck, syserr, s, k, Batch(ms, autoAck, syserr, s))
  {
    hide Verdict; hide Ahead; hide Past; hide Summary; hide FirstEnding; hide One;
    if ms != [] { OneErr(ms[0], autoAck, syserr, s); }
    if ms == [] {
      k := 0;
      SummaryHere(ms, autoAck, syserr, s);
    } else if One(ms[0], autoAck, syserr, s).err != 0 {
      k := 0;
      SummaryHere(ms, autoAck, syserr, s);
    } else {
      var m, s' := ms[0], One(ms[0], autoAck, syserr, s);
      OneMeans(m, autoAck, syserr, s);
      k := BatchMeans(ms[1..], autoAck, syserr, s');
      SummaryWithin(ms, autoAck, syserr, s, k);
      FirstEndingFront(ms, autoAck, syserr, s.expected, k);
      SummaryFront(ms, autoAck, syserr, s, k, Batch(ms[1..], autoAck, syserr, s'));
      k := k + 1;
    }
  }

  lemma OneErr(m: Msg, autoAck: bool, syserr: int -> nat, s: State)
    requires m.len == HDRLEN + |m.payload|
    ensures One(m, autoAck, syserr, s).err == Verdict(m, autoAck, s.expected, syserr)
  {}

  lemma SummaryWithin(ms: seq<Msg>, autoAck: bool, syserr: int -> nat, s: State, k: nat)
    requires Sized(ms) && ms != [] && FirstEnding(ms[1..], autoAck, syserr, One(ms[0], autoAck, syserr, s).expected, k)
    ensures k < |ms|
  {}

  lemma OneMeans(m: Msg, autoAck: bool, syserr: int -> nat, s: State)
    requires m.len == HDRLEN + |m.payload| && s.err == 0 && s.expected < WRAP
    requires One(m, autoAck, syserr, s).err == 0
    ensures !OutOfSequence(m, autoAck, s.expected) && Verdict(m, autoAck, s.expected, syserr) == 0
    ensures One(m, autoAck, syserr, s).expected == Ahead(s.expected, if Terminal(m) then 1 else 0)
  {}

  // The run ends here, or there is nothing.
  lemma SummaryHere(ms: seq<Msg>, autoAck: bool, syserr: int -> nat, s: State)
    requires Sized(ms) && s.err == 0 && s.expected < WRAP
    requires ms == [] || One(ms[0], autoAck, syserr, s).err != 0
    ensures FirstEnding(ms, autoAck, syserr, s.expected, 0)
    ensures Summary(ms, autoAck, syserr, s, 0, Batch(ms, autoAck, syserr, s))
  {
    hide HasFlag;
    FirstExpected(ms, s.expected);
    assert ms[..0] == [];
    if ms != [] {
      assert ms[..1] == [ms[0]] + [];
      TerminalsFront(ms[0], []);
      OpenAfterFront(ms[0], [], s.multipart);
      FlaggedFront(ms[0], []);
      Counted(s.expected, Terminal(ms[0]));
    }
  }

  lemma FirstEndingFront(ms: seq<Msg>, autoAck: bool, syserr: int -> nat, e: nat, l: nat)
    requires Sized(ms) && ms != [] && e < WRAP && Verdict(ms[0], autoAck, e, syserr) == 0
    requires FirstEnding(ms[1..], autoAck, syserr, Ahead(e, if Terminal(ms[0]) then 1 else 0), l)
    ensures FirstEnding(ms, autoAck, syserr, e, l + 1)
  {
    hide Verdict; hide Terminals; hide ExpectedAt; hide Terminal; hide Ahead;
    var rest := ms[1..];
    FirstExpected(ms, e);
    forall i | 0 <= i <= l ensures Verdict(ms[i], autoAck, ExpectedAt(ms, i, e), syserr) == 0 {
      if i > 0 {
        ExpectedAtFront(ms, i - 1, e);
        assert ms[i] == rest[i - 1];
      }
    }
    if l < |rest| {
      ExpectedAtFront(ms, l, e);
      assert ms[l + 1] == rest[l];
    }
  }

  lemma SummaryFront(ms: seq<Msg>, autoAck: bool, syserr: int -> nat, s: State, l: nat, r: State)
    requires Sized(ms) && ms != [] && s.expected < WRAP && s.err == 0 && l < |ms|
    requires var s' := One(ms[0], autoAck, syserr, s);
             && s'.err == 0 && !OutOfSequence(ms[0], autoAck, s.expected)
             && Summary(ms[1..], autoAck, syserr, s', l, r)
    ensures Summary(ms, autoAck, syserr, s, l + 1, r)
  {
    hide Verdict; hide Terminals; hide OpenAfter; hide ExpectedAt; hide OutOfSequence; hide HasFlag; hide Ahead;
    hide Flagged; hide Terminal;
    var m, rest, s' := ms[0], ms[1..], One(ms[0], autoAck, syserr, s);
    Counted(s.expected, Terminal(m));
    if l < |rest| {
      ExpectedAtFront(ms, l, s.expected);
      assert ms[l + 1] == rest[l];
    }
    var n := Past(rest, autoAck, s'.expected, l);
    assert Past(ms, autoAck, s.expected, l + 1) == n + 1;
    assert ms[..n + 1] == [m] + rest[..n];
    TerminalsFront(m, rest[..n]);
    OpenAfterFront(m, rest[..n], s.multipart);
    WrapAgain(s.expected, if Terminal(m) then 1 else 0, Terminals(rest[..n]));
    FlaggedFront(m, rest[..n]);
  }

  lemma Counted(e: nat, t: bool)
    requires e < WRAP
    ensures (if t then (e + 1) % WRAP else e) == Ahead(e, if t then 1 else 0)
  {}

  lemma WrapAgain(e: nat, t: nat, x: nat)
    ensures Ahead(Ahead(e, t), x) == Ahead(e, x + t)
  {}

  lemma FlaggedFront(m: Msg, ms: seq<Msg>)
    ensures Flagged([m] + ms) <==> HasFlag(m.flags, DUMP_INTR) || Flagged(ms)
  {
    hide HasFlag;
    if Flagged(ms) {
      var x :| x in ms && HasFlag(x.flags, DUMP_INTR);
      assert x in [m] + ms;
    }
    if HasFlag(m.flags, DUMP_INTR) { assert m in [m] + ms; }
  }

  lemma FirstExpected(ms: seq<Msg>, e: nat)
    requires e < WRAP
    ensures ExpectedAt(ms, 0, e) == e
  {
    assert ms[..0] == [];
  }

  // ---------- interrupted dumps ----------

  // The messages of a read that get past the sequence check
  function PastOf(r: Read, autoAck: bool, syserr: int -> nat, e: nat): seq<Msg>
  {
    match r
    case Nothing(_) => []
    case Data(buf) =>
      MessagesSized(buf, 0);
      var ms := Messages(buf, 0);
      ms[..Past(ms, autoAck, e, Ending(ms, autoAck, syserr, e))]
  }

  // Read j has a flagged message past the sequence check.
  ghost predicate FlaggedAt(input: seq<Read>, j: nat, autoAck: bool, syserr: int -> nat, e: nat)
    requires j < |input|
  {
    var past := PastOf(input[0], autoAck, syserr, e);
    if j == 0 then Flagged(past) else FlaggedAt(input[1..], j - 1, autoAck, syserr, Ahead(e, Terminals(past)))
  }

  // One of the first n reads has.
  ghost predicate FlaggedWithin(input: seq<Read>, n: nat, autoAck: bool, syserr: int -> nat, e: nat)
    requires n <= |input|
  {
    exists j: nat :: j < n && FlaggedAt(input, j, autoAck, syserr, e)
  }

  lemma FlaggedFirst(input: seq<Read>, n: nat, autoAck: bool, syserr: int -> nat, e: nat)
    requires 0 < n <= |input|
    ensures var past := PastOf(input[0], autoAck, syserr, e);
            FlaggedWithin(input, n, autoAck, syserr, e)
            <==> Flagged(past) || FlaggedWithin(input[1..], n - 1, autoAck, syserr, Ahead(e, Terminals(past)))
  {
    hide PastOf; hide Flagged; hide Ahead; hide Terminals;
    var e' := Ahead(e, Terminals(PastOf(input[0], autoAck, syserr, e)));
    if FlaggedWithin(input[1..], n - 1, autoAck, syserr, e') {
      var j: nat :| j < n - 1 && FlaggedAt(input[1..], j, autoAck, syserr, e');
      assert FlaggedAt(input, j + 1, autoAck, syserr, e);
    }
    if Flagged(PastOf(input[0], autoAck, syserr, e)) { assert FlaggedAt(input, 0, autoAck, syserr, e); }
    if FlaggedWithin(input, n, autoAck, syserr, e) {
      var j: nat :| j < n && FlaggedAt(input, j, autoAck, syserr, e);
      if j > 0 { assert FlaggedAt(input[1..], j - 1, autoAck, syserr, e'); }
    }
  }

  // A read that gave bytes
  predicate Full(r: Read)
  {
    r.Data? && r.bytes != []
  }

  // Of the codes the library returns only one says that a dump was interrupted.
  ghost predicate CodesApart(input: seq<Read>, syserr: int -> nat)
  {
    && (forall e :: syserr(e) != INTERRUPTED)
    && (forall r :: r in input && r.Nothing? ==> r.n <= 0 && r.n != -INTERRUPTED)
  }

  // A datagram's messages, by what they do to the flag
  lemma DatagramFlags(buf: seq<Byte>, autoAck: bool, syserr: int -> nat, s: State)
    requires s.err == 0 && s.expected < WRAP && buf != [] && forall e :: syserr(e) != INTERRUPTED
    ensures Sized(Messages(buf, 0))
    ensures var s', past := Batch(Messages(buf, 0), autoAck, syserr, s), PastOf(Data(buf), autoAck, syserr, s.expected);
            && s'.expected == Ahead(s.expected, Terminals(past)) && s'.err != -INTERRUPTED
            && (s'.interrupted <==> s.interrupted || Flagged(past)) && s'.handled >= s.handled
  {
    hide Flagged; hide Terminals; hide Ahead; hide FirstEnding; hide Messages; hide Batch; hide Ending; hide OpenAfter;
    MessagesSized(buf, 0);
    var k := BatchMeans(Messages(buf, 0), autoAck, syserr, s);
  }

  // A run is reported as interrupted exactly when the read that ends it gives
  // bytes and some read had a flagged message past the sequence check.  Some
  // read gives nothing in the end.
  lemma {:induction false} RunInterrupted(input: seq<Read>, autoAck: bool, syserr: int -> nat, s: State)
    requires s.err == 0 && s.expected < WRAP && CodesApart(input, syserr)
    requires input != [] && !Full(input[|input| - 1])
    ensures var r := Received(input, autoAck, syserr, s);
            && 0 < r.used <= |input|
            && (r.ret == -INTERRUPTED <==>
                  && Full(input[r.used - 1])
                  && (s.interrupted || FlaggedWithin(input, r.used, autoAck, syserr, s.expected)))
  {
    hide FlaggedWithin; hide PastOf; hide Flagged; hide Terminals; hide Ahead; hide Batch; hide Messages;
    match input[0] {
      case Nothing(n) =>
      case Data(buf) =>
        if buf != [] {
          DatagramFlags(buf, autoAck, syserr, s);
          var s' := Batch(Messages(buf, 0), autoAck, syserr, s);
          if s'.err == 0 && s'.multipart {
            RunInterrupted(input[1..], autoAck, syserr, s');
            FlaggedFirst(input, Received(input, autoAck, syserr, s).used, autoAck, syserr, s.expected);
          } else {
            FlaggedFirst(input, 1, autoAck, syserr, s.expected);
            NoneWithin(input[1..], autoAck, syserr, s'.expected);
          }
        }
    }
  }

  lemma NoneWithin(input: seq<Read>, autoAck: bool, syserr: int -> nat, e: nat)
    ensures !FlaggedWithin(input, 0, autoAck, syserr, e)
  {}

  // A whole call, from its start
  lemma InterruptionReported(input: seq<Read>, autoAck: bool, syserr: int -> nat, e: nat)
    requires e < WRAP && CodesApart(input, syserr) && input != [] && !Full(input[|input| - 1])
    ensures var r := Received(input, autoAck, syserr, State(0, e, false, false, 0));
            && 0 < r.used <= |input|
            && (r.ret == -INTERRUPTED <==>
                  Full(input[r.used - 1]) && FlaggedWithin(input, r.used, autoAck, syserr, e))
  {
    RunInterrupted(input, autoAck, syserr, State(0, e, false, false, 0));
  }

  // Reads that run out are as a last read that gives nothing.
  lemma {:induction false} RunsOut(input: seq<Read>, autoAck: bool, syserr: int -> nat, s: State)
    ensures var r, r' := Received(input, autoAck, syserr, s), Received(input + [Nothing(0)], autoAck, syserr, s);
            r.ret == r'.ret && r.expected == r'.expected
  {
    var more := input + [Nothing(0)];
    if input != [] {
      assert more[0] == input[0] && more[1..] == input[1..] + [Nothing(0)];
      match input[0] {
        case Nothing(n) =>
        case Data(buf) =>
          MessagesSized(buf, 0);
          RunsOut(input[1..], autoAck, syserr, Batch(Messages(buf, 0), autoAck, syserr, s));
      }
    }
  }

  // A part of a multipart message, flagged as interrupted, with sequence number 5
  const FLAGGED_PART: seq<Byte> := [16, 0, 0, 0, 20, 0, 0x12, 0, 5, 0, 0, 0, 0, 0, 0, 0]

  // A run that loses the flag: its first datagram is flagged and leaves the
  // message open, the next read gives nothing, and 0 is returned.
  lemma FlagLost(autoAck: bool, syserr: int -> nat)
    ensures var input := [Data(FLAGGED_PART), Nothing(0)];
            && Received(input, autoAck, syserr, State(0, 5, false, false, 0)) == Result(0, 5, 2)
            && FlaggedWithin(input, 2, autoAck, syserr, 5)
  {
    var input := [Data(FLAGGED_PART), Nothing(0)];
    var m := Msg(16, 20, 0x12, 5, []);
    PartIs();
    var s := State(0, 5, false, false, 0);
    assert One(m, autoAck, syserr, s) == State(0, 5, true, true, 1);
    assert [m][1..] == [];
    assert Batch([m], autoAck, syserr, s) == State(0, 5, true, true, 1);
    assert input[1..] == [Nothing(0)];
    FirstExpected([m], 5);
    assert Ending([m], autoAck, syserr, 5) == 1;
    assert [m][..1] == [m] && m in [m];
    assert FlaggedAt(input, 0, autoAck, syserr, 5);
  }

  lemma PartIs()
    ensures Messages(FLAGGED_PART, 0) == [Msg(16, 20, 0x12, 5, [])]
  {
    assert MsgOk(FLAGGED_PART, 0, 16);
    assert FLAGGED_PART[16..16] == [];
  }
}
