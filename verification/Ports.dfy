// Local port numbers (lib/socket.c:67-173): a map of 1024 slots searched in a
// scattered order.

module Ports {
  import opened WordBits

  const SHIFT: nat := 0x40_0000    // 1 << 22: the process id lies below the slot

  // used_ports_map and idx_state, and the process id, taken as fixed
  class PortMap {
    const words: array<Word>
    var idxState: nat
    const pid: nat

    // Static storage starts as zero.
    constructor (pid: nat)
      requires pid < SHIFT
      ensures Valid() && fresh(words) && this.pid == pid && words[..] == seq(32, _ => 0)
    {
      words := new Word[32](_ => 0);
      this.pid, idxState := pid, 0;
    }

    ghost predicate Valid()
      reads this
    {
      words.Length == 32 && idxState < 0x1_0000 && pid < SHIFT
    }
  }

  // A slot is taken.
  predicate Used(ws: seq<Word>, s: nat)
    requires |ws| == 32
  {
    s < 1024 && IsSet(ws[s / 32], s % 32)
  }

  // The port number of a slot; zero is never handed out.
  function PortOf(pid: nat, s: nat): nat
  {
    var port := (pid + s * SHIFT) % LIMIT;
    if port == 0 then 1024 else port
  }

  function SlotOf(port: nat): nat
  {
    port / SHIFT
  }

  // Every slot's port is a proper port that leads back to the slot, even the
  // substituted one.
  lemma PortRoundTrip(pid: nat, s: nat)
    requires pid < SHIFT && s < 1024
    ensures 0 < PortOf(pid, s) < LIMIT && SlotOf(PortOf(pid, s)) == s
    ensures PortOf(pid, s) == if pid == 0 && s == 0 then 1024 else pid + s * 0x40_0000
  {
    assert pid + s * SHIFT < LIMIT;
    assert (pid + s * SHIFT) / SHIFT == s;
  }

  // ---------- the two walks ----------

  // The block after j steps of i = (((i - 1) + 7) % 31) + 1
  function BlockAt(i: nat, j: nat): (b: nat)
    requires j > 0
    ensures 1 <= b <= 31
  {
    (i + 7 * j - 1) % 31 + 1
  }

  // The place after m steps of n = (n + 13) % 32
  function PlaceAt(n: nat, m: nat): nat
  {
    (n + 13 * m) % 32
  }

  lemma Remainder31(x: int, c: int, r: int)
    requires x == 31 * c + r && 0 <= r < 31
    ensures x % 31 == r && x / 31 == c
  {}

  lemma Remainder32(x: int, c: int, r: int)
    requires x == 32 * c + r && 0 <= r < 32
    ensures x % 32 == r && x / 32 == c
  {}

  // 7 steps through 31: every block from 1 to 31 is reached in 31 steps.
  lemma BlockReached(i: nat, b: nat) returns (j: nat)
    requires 1 <= b <= 31
    ensures 1 <= j <= 31 && BlockAt(i, j) == b
  {
    var q, e := i / 31, b + 31 - i % 31;
    var k, d := 9 * e / 31, 9 * e % 31;
    // 7 * 9 is 2 * 31 + 1
    if d == 0 {
      j := 31;
      Remainder31(i + 7 * j - 1, q + 2 * e - 7 * k + 8, b - 1);
    } else {
      j := d;
      Remainder31(i + 7 * j - 1, q + 2 * e - 7 * k + 1, b - 1);
    }
  }

  // 13 steps through 32: every place is reached in 32 steps.
  lemma PlaceReached(n: nat, t: nat) returns (m: nat)
    requires t < 32
    ensures 1 <= m <= 32 && PlaceAt(n, m) == t
  {
    var q, e := n / 32, t + 32 - n % 32;
    var k, d := 5 * e / 32, 5 * e % 32;
    // 13 * 5 is 2 * 32 + 1
    if d == 0 {
      m := 32;
      Remainder32(n + 13 * m, q + 2 * e - 13 * k + 14, t);
    } else {
      m := d;
      Remainder32(n + 13 * m, q + 2 * e - 13 * k + 1, t);
    }
  }

  lemma PlaceStart(n0: nat)
    ensures n0 % 32 == PlaceAt(n0, 0)
  {}

  lemma PlaceStep(n0: nat, m: nat, n: nat)
    requires n % 32 == PlaceAt(n0, m)
    ensures (n + 13) % 32 == PlaceAt(n0, m + 1)
  {
    var x := n0 + 13 * m;
    var r := n % 32;
    Remainder32(n + 13, n / 32 + (r + 13) / 32, (r + 13) % 32);
    Remainder32(x + 13, x / 32 + (r + 13) / 32, (r + 13) % 32);
  }

  // The inner loop of generate_local_port: a word that is not full has a free
  // place, and the walk finds it.
  method FreePlace(w: Word, n0: nat) returns (n: nat)
    requires w != FULL
    ensures n < 32 && !IsSet(w, n)
  {
    hide PlaceAt; hide IsSet;
    n := n0;
    PlaceStart(n0);
    for m := 0 to 32
      invariant n % 32 == PlaceAt(n0, m)
      invariant forall k: nat :: 1 <= k <= m ==> IsSet(w, PlaceAt(n0, k))
    {
      PlaceStep(n0, m, n);
      n := (n + 13) % 32;
      if !IsSet(w, n) {
        return;
      }
    }
    FullIffAllSet(w);
    ghost var t: nat :| t < 32 && !IsSet(w, t);
    ghost var m := PlaceReached(n0, t);
    assert false;
  }

  lemma SetOne(ws: seq<Word>, i: nat, n: nat, s: nat)
    requires |ws| == 32 && i < 32 && n < 32
    ensures Used(ws[i := OrWord(ws[i], Mask(n))], s) <==> Used(ws, s) || s == i * 32 + n
  {
    OrBits(ws[i], Mask(n), s % 32);
    PowerBits(n, s % 32);
  }

  lemma ClearOne(ws: seq<Word>, i: nat, n: nat, s: nat)
    requires |ws| == 32 && i < 32 && n < 32
    ensures Used(ws[i := AndNotWord(ws[i], Mask(n))], s) <==> Used(ws, s) && s != i * 32 + n
  {
    AndNotBits(ws[i], Mask(n), s % 32);
    PowerBits(n, s % 32);
  }

  // A full word is 32 used slots.
  lemma FullBlock(ws: seq<Word>, i: nat)
    requires |ws| == 32 && i < 32
    ensures ws[i] == FULL <==> forall s :: 32 * i <= s < 32 * i + 32 ==> Used(ws, s)
  {
    FullIffAllSet(ws[i]);
    if forall s :: 32 * i <= s < 32 * i + 32 ==> Used(ws, s) {
      forall n: nat | n < 32 ensures IsSet(ws[i], n) {
        assert Used(ws, 32 * i + n);
      }
    }
  }

  lemma BlockStep(i: nat, j: nat, i0: nat)
    requires if j == 0 then i == i0 else i == BlockAt(i0, j)
    ensures (i - 1 + 7) % 31 + 1 == BlockAt(i0, j + 1) && 1 <= BlockAt(i0, j + 1) <= 31
  {
    if j > 0 {
      var x := i0 + 7 * j - 1;
      var q, r := (x % 31 + 7) / 31, (x % 31 + 7) % 31;
      assert i == x % 31 + 1;
      Remainder31(x + 7, x / 31 + q, r);
    }
  }

  // The blocks of the first j steps, up to the 31st, are full.
  ghost predicate Walked(ws: seq<Word>, i0: nat, j: nat)
    requires |ws| == 32
  {
    forall k: nat :: 1 <= k <= j && k <= 31 ==> ws[BlockAt(i0, k)] == FULL
  }

  lemma WalkedMore(ws: seq<Word>, i0: nat, j: nat)
    requires |ws| == 32
    ensures j == 0 ==> Walked(ws, i0, j)
    ensures Walked(ws, i0, j) && (j < 31 ==> ws[BlockAt(i0, j + 1)] == FULL) ==> Walked(ws, i0, j + 1)
    ensures Walked(ws, i0, j) && j >= 31 ==> Walked(ws, i0, 31)
  {}

  // The 31 blocks of the walk are full, and then block 0: everything is taken.
  lemma AllFull(ws: seq<Word>, i0: nat, s: nat)
    requires |ws| == 32 && s < 1024
    requires Walked(ws, i0, 31)
    requires s < 32 ==> ws[0] == FULL
    ensures Used(ws, s)
  {
    hide BlockAt; hide Used;
    if s >= 32 {
      var k := BlockReached(i0, s / 32);
    }
    FullBlock(ws, s / 32);
    assert 32 * (s / 32) <= s < 32 * (s / 32) + 32;
  }

  // A free place of one block is taken.
  method TakePlace(m: PortMap, i: nat, n0: nat) returns (slot: nat)
    requires m.Valid() && i < 32 && m.words[i] != FULL
    modifies m.words
    ensures m.Valid() && 32 * i <= slot < 32 * i + 32 && !Used(old(m.words[..]), slot)
    ensures forall s :: Used(m.words[..], s) <==> Used(old(m.words[..]), s) || s == slot
  {
    hide Used; hide IsSet;
    ghost var ws := m.words[..];
    var n := FreePlace(m.words[i], n0);
    forall s ensures Used(ws[i := OrWord(ws[i], Mask(n))], s) <==> Used(ws, s) || s == i * 32 + n { SetOne(ws, i, n, s); }
    FreeSlot(ws, i, n);
    m.words[i] := OrWord(m.words[i], Mask(n));
    assert m.words[..] == ws[i := OrWord(ws[i], Mask(n))];
    slot := n + i * 32;
  }

  lemma FreeSlot(ws: seq<Word>, i: nat, n: nat)
    requires |ws| == 32 && i < 32 && n < 32 && !IsSet(ws[i], n)
    ensures !Used(ws, i * 32 + n)
  {
    assert (i * 32 + n) / 32 == i && (i * 32 + n) % 32 == n;
  }

  // The taken slots
  function Taken(ws: seq<Word>): set<nat>
    requires |ws| == 32
  {
    set s: nat | 0 <= s < 1024 && Used(ws, s)
  }

  // generate_local_port: 0 exactly when all 1024 slots are taken, otherwise the
  // port of a slot that was free and now is not; one of the first 32 slots only
  // when all others are taken.
  method GenerateLocalPort(m: PortMap, seed: nat) returns (port: nat)
    requires m.Valid() && seed < 0x1_0000
    modifies m`idxState, m.words
    ensures m.Valid()
    ensures port == 0 <==> forall s :: 0 <= s < 1024 ==> s in old(Taken(m.words[..]))
    ensures port == 0 ==> m.words[..] == old(m.words[..])
    ensures port != 0 ==>
      && port < LIMIT && SlotOf(port) < 1024 && port == PortOf(m.pid, SlotOf(port))
      && SlotOf(port) !in old(Taken(m.words[..]))
      && Taken(m.words[..]) == old(Taken(m.words[..])) + {SlotOf(port)}
      && (SlotOf(port) < 32 ==> forall s :: 32 <= s < 1024 ==> s in old(Taken(m.words[..])))
  {
    hide Used; hide BlockAt; hide PortOf; hide SlotOf; hide Walked;
    m.idxState := if m.idxState == 0 then seed else (m.idxState + 20011) % 0x1_0000;
    var i, n := m.idxState / 32, m.idxState;
    ghost var i0, ws := i, m.words[..];
    WalkedMore(ws, i0, 0);
    for j := 0 to 32
      invariant m.Valid() && m.words[..] == ws
      invariant if j == 0 then i == i0 else if j <= 31 then i == BlockAt(i0, j) else i == 0
      invariant Walked(ws, i0, j)
      invariant j == 32 ==> ws[0] == FULL
    {
      BlockStep(i, j, i0);
      WalkedMore(ws, i0, j);
      if j == 31 {
        i := 0;
      } else {
        i := (i - 1 + 7) % 31 + 1;
      }
      if m.words[i] == FULL {
        continue;
      }
      n := TakePlace(m, i, n);
      PortRoundTrip(m.pid, n);
      assert n < 1024 && n !in Taken(ws);
      if j == 31 {
        forall s | 32 <= s < 1024 ensures Used(ws, s) { AllFull(ws, i0, s); }
      }
      return PortOf(m.pid, n);
    }
    WalkedMore(ws, i0, 32);
    forall s | 0 <= s < 1024 ensures Used(ws, s) { AllFull(ws, i0, s); }
    return 0;
  }

  // release_local_port.  Its two BUG_ON are its precondition.
  method ReleaseLocalPort(m: PortMap, port: nat)
    requires m.Valid() && port != 0 && SlotOf(port) < 1024 && SlotOf(port) in Taken(m.words[..])
    modifies m.words
    ensures m.Valid() && Taken(m.words[..]) == old(Taken(m.words[..])) - {SlotOf(port)}
  {
    hide Used; hide SlotOf;
    ghost var ws := m.words[..];
    var nr := SlotOf(port);
    var mask := Mask(nr % 32);
    nr := nr / 32;
    BitThere(ws, SlotOf(port));
    assert AndWord(m.words[nr], mask) == mask;
    forall s { ClearOne(ws, nr, SlotOf(port) % 32, s); }
    m.words[nr] := AndNotWord(m.words[nr], mask);
    assert m.words[..] == ws[nr := AndNotWord(ws[nr], mask)];
  }

  // A taken slot's bit is there.
  lemma BitThere(ws: seq<Word>, s: nat)
    requires |ws| == 32 && s < 1024 && Used(ws, s)
    ensures AndWord(ws[s / 32], Mask(s % 32)) == Mask(s % 32)
  {
    forall n: nat ensures IsSet(Mask(s % 32), n) ==> IsSet(ws[s / 32], n) { PowerBits(s % 32, n); }
    ContainsIffBits(ws[s / 32], Mask(s % 32));
  }

  // _nl_socket_used_ports_set
  method UsedPortsSet(used: array<Word>, port: nat)
    requires used.Length == 32 && SlotOf(port) < 1024
    modifies used
    ensures Taken(used[..]) == old(Taken(used[..])) + {SlotOf(port)}
  {
    hide Used; hide SlotOf;
    ghost var ws := used[..];
    var nr := SlotOf(port);
    var mask := Mask(nr % 32);
    nr := nr / 32;
    forall s { SetOne(ws, nr, SlotOf(port) % 32, s); }
    used[nr] := OrWord(used[nr], mask);
    assert used[..] == ws[nr := OrWord(ws[nr], mask)];
  }

  // The words of two maps, from some place on
  ghost predicate Within(ws: seq<Word>, used: seq<Word>, i: nat)
    requires |ws| == 32 && |used| == 32
  {
    forall k :: i <= k < 32 ==> AndWord(ws[k], used[k]) == used[k]
  }

  lemma WithinTaken(ws: seq<Word>, used: seq<Word>)
    requires |ws| == 32 && |used| == 32 && Taken(used) <= Taken(ws)
    ensures Within(ws, used, 0)
  {
    forall k | 0 <= k < 32 ensures AndWord(ws[k], used[k]) == used[k] {
      PowerWord();
      forall n: nat | IsSet(used[k], n) ensures IsSet(ws[k], n) {
        if n >= 32 { HighBits(used[k], 32, n); }
        assert Used(used, 32 * k + n) by { assert (32 * k + n) / 32 == k && (32 * k + n) % 32 == n; }
        assert 32 * k + n in Taken(ws);
      }
      ContainsIffBits(ws[k], used[k]);
    }
  }

  lemma ClearedTaken(ws: seq<Word>, used: seq<Word>, r: seq<Word>)
    requires |ws| == 32 && |used| == 32 && |r| == 32
    requires forall k :: 0 <= k < 32 ==> r[k] == AndNotWord(ws[k], used[k])
    ensures Taken(r) == Taken(ws) - Taken(used)
  {
    forall s: nat | s < 1024 ensures Used(r, s) <==> Used(ws, s) && !Used(used, s) {
      AndNotBits(ws[s / 32], used[s / 32], s % 32);
    }
  }

  lemma NothingToClear(w: Word, u: Word)
    ensures u == 0 ==> AndNotWord(w, u) == w
  {
    if u == 0 {
      forall n: nat ensures BitAt(AndNot(w, 0), n) <==> BitAt(w, n) {
        AndNotBits(w, 0, n);
        ZeroBits(n);
      }
      SameBits(AndNot(w, 0), w);
    }
  }

  // _nl_socket_used_ports_release_all: the lock is taken at the first word in
  // use.  Its BUG_ON is its precondition.
  method UsedPortsReleaseAll(m: PortMap, used: array<Word>)
    requires m.Valid() && used.Length == 32 && used != m.words && Taken(used[..]) <= Taken(m.words[..])
    modifies m.words
    ensures m.Valid() && Taken(m.words[..]) == old(Taken(m.words[..])) - Taken(used[..])
  {
    ghost var ws, us := m.words[..], used[..];
    hide AndNotWord; hide AndWord; hide Used; hide Taken;
    WithinTaken(ws, us);
    var i := 0;
    while i < 32 && used[i] == 0
      invariant 0 <= i <= 32 && m.words[..] == ws && used[..] == us
      invariant forall k :: 0 <= k < i ==> us[k] == 0
    {
      i := i + 1;
    }
    forall k | 0 <= k < i ensures AndNotWord(ws[k], us[k]) == ws[k] { NothingToClear(ws[k], us[k]); }
    while i < 32
      invariant 0 <= i <= 32 && m.Valid() && used[..] == us
      invariant forall k :: 0 <= k < i ==> m.words[k] == AndNotWord(ws[k], us[k])
      invariant forall k :: i <= k < 32 ==> m.words[k] == ws[k]
    {
      assert AndWord(m.words[i], used[i]) == used[i];
      m.words[i] := AndNotWord(m.words[i], used[i]);
      i := i + 1;
    }
    ClearedTaken(ws, us, m.words[..]);
  }
}
