// MPLS label stacks as text (lib/mpls.c:14-44, 58-91), with the entry layout of
// section 2.1 of RFC 3032.

module Mpls {
  import opened Options

  // A label stack entry in host order: label (20 bits), traffic class (3), bottom
  // of stack (1), time to live (8)
  type Entry = e: nat | e < 0x1_0000_0000

  function Label(e: Entry): (lab: nat)
    ensures lab < 0x10_0000
  {
    e / 0x1000
  }

  predicate Bottom(e: Entry)
  {
    e / 0x100 % 2 == 1
  }

  function Pack(lab: nat, bottom: bool): (e: Entry)
    requires lab < 0x10_0000
    ensures Label(e) == lab && Bottom(e) == bottom
  {
    var b := if bottom then 1 else 0;
    Div0x1000(lab, b * 0x100);
    Div0x100(lab * 16 + b);
    Parity(lab * 8, b);
    lab * 0x1000 + b * 0x100
  }

  lemma Div0x1000(q: nat, r: nat)
    requires r < 0x1000
    ensures (q * 0x1000 + r) / 0x1000 == q
  {}

  lemma Div0x100(q: nat)
    ensures q * 0x100 / 0x100 == q
  {}

  lemma Parity(k: nat, b: nat)
    requires b <= 1
    ensures (k * 2 + b) % 2 == b
  {}

  // The stack ends somewhere.
  predicate HasBottom(es: seq<Entry>)
  {
    es != [] && (Bottom(es[0]) || HasBottom(es[1..]))
  }

  // The entries up to the bottom of the stack
  function Stack(es: seq<Entry>): seq<Entry>
    requires HasBottom(es)
  {
    if Bottom(es[0]) then [es[0]] else [es[0]] + Stack(es[1..])
  }

  // The traffic classes and times to live cleared
  function Cleared(es: seq<Entry>): seq<Entry>
  {
    if es == [] then [] else [Pack(Label(es[0]), Bottom(es[0]))] + Cleared(es[1..])
  }

  // ---------- printing ----------

  // %u
  function Dec(n: nat): (s: string)
    ensures |s| >= 1
  {
    if n < 10 then [Digit(n)] else Dec(n / 10) + [Digit(n % 10)]
  }

  function Digit(d: nat): char
    requires d < 10
  {
    '0' + d as char
  }

  function Text(es: seq<Entry>): (s: string)
    requires HasBottom(es)
    ensures |s| >= 1
  {
    if Bottom(es[0]) then Dec(Label(es[0])) else Dec(Label(es[0])) + "/" + Text(es[1..])
  }

  // A label is printed after what was printed before.
  lemma TextStep(whole: string, was: string, es: seq<Entry>)
    requires HasBottom(es) && was + Text(es) == whole
    ensures var text := Dec(Label(es[0]));
            && |was| + |text| <= |whole|
            && (Bottom(es[0]) ==> was + text == whole)
            && (!Bottom(es[0]) ==> HasBottom(es[1..]) && was + text + "/" + Text(es[1..]) == whole)
  {
    var text := Dec(Label(es[0]));
    if !Bottom(es[0]) {
      assert was + (text + "/" + Text(es[1..])) == was + text + "/" + Text(es[1..]);
    }
  }

  // snprintf of a text into n characters from dest on
  method Snprintf(buf: array<char>, dest: nat, n: nat, text: string) returns (len: nat)
    requires dest + n <= buf.Length
    modifies buf
    ensures len == |text|
    ensures forall i :: 0 <= i < buf.Length && !(dest <= i < dest + n) ==> buf[i] == old(buf[i])
    ensures len < n ==> buf[dest..dest + len] == text && buf[dest + len] == '\0'
    ensures 0 < n <= len ==> buf[dest..dest + n - 1] == text[..n - 1] && buf[dest + n - 1] == '\0'
  {
    if n > 0 {
      var i := 0;
      while i < n - 1 && i < |text|
        invariant 0 <= i <= n - 1 && i <= |text|
        invariant forall k :: 0 <= k < buf.Length && !(dest <= k < dest + n) ==> buf[k] == old(buf[k])
        invariant forall k :: 0 <= k < i ==> buf[dest + k] == text[k]
      {
        buf[dest + i] := text[i];
        i := i + 1;
      }
      buf[dest + i] := '\0';
      assert buf[dest..dest + i] == text[..i] && text[..|text|] == text;
    }
    len := |text|;
  }

  // mpls_ntop1.  The text fits exactly when it is shorter than the buffer.
  method Ntop1(addr: seq<Entry>, buf: array<char>, buflen: nat) returns (ok: bool)
    requires HasBottom(addr) && buflen <= buf.Length
    modifies buf
    ensures ok <==> |Text(addr)| < buflen
    ensures ok ==> buf[..|Text(addr)|] == Text(addr) && buf[|Text(addr)|] == '\0'
    ensures forall i :: buflen <= i < buf.Length ==> buf[i] == old(buf[i])
  {
    var dest: nat, destlen: nat, count: nat := 0, buflen, 0;
    while true
      invariant dest + destlen == buflen && count < |addr| && dest <= buf.Length && HasBottom(addr[count..])
      invariant buf[..dest] + Text(addr[count..]) == Text(addr)
      invariant forall i :: buflen <= i < buf.Length ==> buf[i] == old(buf[i])
      decreases |addr| - count
    {
      hide Text; hide Dec; hide Bottom; hide Label; hide HasBottom;
      ghost var rest, was := addr[count..], buf[..dest];
      TextStep(Text(addr), was, rest);
      assert rest[1..] == addr[count + 1..];
      var entry := addr[count];
      count := count + 1;
      var text := Dec(Label(entry));
      var len := Snprintf(buf, dest, destlen, text);
      assert buf[..dest] == was;
      if len >= destlen {
        return false;
      }
      assert buf[..dest + len] == was + text;
      if Bottom(entry) {
        return true;
      }
      dest := dest + len;
      destlen := destlen - len;
      if destlen != 0 {
        buf[dest] := '/';
        assert buf[..dest + 1] == was + text + "/";
        dest := dest + 1;
        destlen := destlen - 1;
      }
    }
  }

  // ---------- parsing ----------

  predicate Space(c: char)
  {
    c == ' ' || '\t' <= c <= '\r'
  }

  function SkipSpace(s: string, pos: nat): (i: nat)
    requires pos <= |s|
    ensures pos <= i <= |s|
    decreases |s| - pos
  {
    if pos < |s| && Space(s[pos]) then SkipSpace(s, pos + 1) else pos
  }

  // The value of a digit; 36 for what is none
  function DigitOf(c: char): nat
  {
    if '0' <= c <= '9' then c as nat - '0' as nat
    else if 'a' <= c <= 'z' then c as nat - 'a' as nat + 10
    else if 'A' <= c <= 'Z' then c as nat - 'A' as nat + 10
    else 36
  }

  predicate IsDigit(s: string, pos: nat, base: nat)
  {
    pos < |s| && DigitOf(s[pos]) < base
  }

  // The digits from pos on, and where they end
  function Digits(s: string, pos: nat, base: nat, acc: nat): (r: (nat, nat))
    requires pos <= |s|
    ensures pos <= r.1 <= |s|
    decreases |s| - pos
  {
    if IsDigit(s, pos, base) then Digits(s, pos + 1, base, acc * base + DigitOf(s[pos])) else (acc, pos)
  }

  const ULONG_MAX := 0xFFFF_FFFF_FFFF_FFFF

  // strtoul(s + pos, &endp, 0): the value, and where endp points.  Without a
  // digit endp is pos.
  function Strtoul(s: string, pos: nat): (r: (nat, nat))
    requires pos <= |s|
    ensures pos <= r.1 <= |s|
  {
    var sign := SkipSpace(s, pos);
    var minus := sign < |s| && s[sign] == '-';
    var i := if sign < |s| && (s[sign] == '-' || s[sign] == '+') then sign + 1 else sign;
    var hex := i + 1 < |s| && s[i] == '0' && (s[i + 1] == 'x' || s[i + 1] == 'X') && IsDigit(s, i + 2, 16);
    var base := if hex then 16 else if i < |s| && s[i] == '0' then 8 else 10;
    var from := if hex then i + 2 else i;
    if !IsDigit(s, from, base) then (0, pos)
    else
      var (v, end) := Digits(s, from, base, 0);
      (if v > ULONG_MAX then ULONG_MAX else if minus && v > 0 then ULONG_MAX + 1 - v else v, end)
  }

  // The stack that a text from pos on stands for, in at most max entries
  function StackFrom(s: string, pos: nat, max: nat): Opt<seq<Entry>>
    requires pos <= |s|
    decreases max
  {
    if max == 0 then None
    else
      var (lab, end) := Strtoul(s, pos);
      if lab >= 0x10_0000 || end == pos then None
      else if end == |s| then Some([Pack(lab, true)])
      else if s[end] != '/' then None
      else Join([Pack(lab, false)], StackFrom(s, end + 1, max - 1))
  }

  // Entries found in front of a rest
  function Join(head: seq<Entry>, rest: Opt<seq<Entry>>): Opt<seq<Entry>>
  {
    if rest == None then None else Some(head + rest.value)
  }

  lemma JoinJoin(a: seq<Entry>, e: Entry, rest: Opt<seq<Entry>>)
    ensures Join(a, Join([e], rest)) == Join(a + [e], rest) && Join([], rest) == rest
  {
    if rest.Some? { assert a + ([e] + rest.value) == a + [e] + rest.value && [] + rest.value == rest.value; }
  }

  // mpls_pton1.  A text that is no stack gives 0, whatever was written by then.
  method Pton1(name: string, addr: array<Entry>, maxlabels: nat) returns (size: nat)
    requires maxlabels <= addr.Length
    modifies addr
    ensures match StackFrom(name, 0, maxlabels)
            case None => size == 0
            case Some(es) => size == 4 * |es| && |es| <= maxlabels && addr[..|es|] == es
    ensures forall i :: maxlabels <= i < addr.Length ==> addr[i] == old(addr[i])
  {
    var count, pos := 0, 0;
    JoinJoin([], 0, StackFrom(name, 0, maxlabels));
    while count < maxlabels
      invariant count <= maxlabels && pos <= |name|
      invariant StackFrom(name, 0, maxlabels) == Join(addr[..count], StackFrom(name, pos, maxlabels - count))
      invariant forall i :: maxlabels <= i < addr.Length ==> addr[i] == old(addr[i])
    {
      ghost var done := addr[..count];
      var (lab, end) := Strtoul(name, pos);
      if lab >= 0x10_0000 {
        return 0;
      }
      if end == pos {
        return 0;
      }
      addr[count] := Pack(lab, false);
      if end == |name| {
        addr[count] := Pack(lab, true);
        assert addr[..count] == done;
        assert addr[..count + 1] == done + [Pack(lab, true)];
        return 4 * (count + 1);
      }
      if name[end] != '/' {
        return 0;
      }
      assert addr[..count + 1] == done + [Pack(lab, false)];
      JoinJoin(done, Pack(lab, false), StackFrom(name, end + 1, maxlabels - count - 1));
      pos := end + 1;
      count := count + 1;
    }
    size := 0;
  }

  // ---------- round trip ----------

  lemma DigitBack(d: nat)
    requires d < 10
    ensures DigitOf(Digit(d)) == d && Digit(d) != '-' && Digit(d) != '+' && !Space(Digit(d)) && Digit(d) != '/'
    ensures d > 0 ==> Digit(d) != '0'
  {}

  // Reading a printed number gives the number.
  lemma {:induction false} DigitsOfDec(s: string, pos: nat, n: nat)
    requires pos + |Dec(n)| <= |s| && s[pos..pos + |Dec(n)|] == Dec(n)
    ensures Digits(s, pos, 10, 0) == Digits(s, pos + |Dec(n)|, 10, n)
  {
    var k := |Dec(n)| - 1;
    DigitBack(n % 10);
    assert s[pos + k] == Dec(n)[k] == Digit(n % 10);
    if n < 10 {
      assert Digits(s, pos, 10, 0) == Digits(s, pos + 1, 10, 0 * 10 + n);
    } else {
      assert s[pos..pos + k] == s[pos..pos + |Dec(n)|][..k] == Dec(n / 10);
      DigitsOfDec(s, pos, n / 10);
      assert Digits(s, pos + k, 10, n / 10) == Digits(s, pos + k + 1, 10, n / 10 * 10 + n % 10);
    }
  }

  // A printed number does not look like another base, a sign or a space.
  lemma {:induction false} FirstOfDec(n: nat)
    ensures exists d :: 0 <= d < 10 && Dec(n)[0] == Digit(d) && (n > 0 ==> d > 0) && (n == 0 ==> d == 0)
    ensures n == 0 ==> Dec(n) == "0"
  {
    if n >= 10 {
      FirstOfDec(n / 10);
      assert Dec(n)[0] == Dec(n / 10)[0];
    } else {
      assert Dec(n)[0] == Digit(n);
    }
  }

  lemma StrtoulOfDec(s: string, pos: nat, n: nat)
    requires n <= ULONG_MAX && pos + |Dec(n)| <= |s| && s[pos..pos + |Dec(n)|] == Dec(n)
    requires pos + |Dec(n)| == |s| || s[pos + |Dec(n)|] == '/'
    ensures Strtoul(s, pos) == (n, pos + |Dec(n)|)
  {
    FirstOfDec(n);
    var d :| 0 <= d < 10 && Dec(n)[0] == Digit(d) && (n > 0 ==> d > 0) && (n == 0 ==> d == 0);
    DigitBack(d);
    assert s[pos] == Dec(n)[0];
    var end := pos + |Dec(n)|;
    assert SkipSpace(s, pos) == pos;
    if n == 0 {
      assert Digits(s, pos, 8, 0) == Digits(s, pos + 1, 8, 0);
    } else {
      DigitsOfDec(s, pos, n);
    }
  }

  // Parsing the printed form gives the stack, up to its bottom, without traffic
  // class and time to live, if there is room for it and only then.
  lemma {:induction false} StackOfText(s: string, pos: nat, es: seq<Entry>, max: nat)
    requires HasBottom(es) && pos + |Text(es)| == |s| && s[pos..] == Text(es)
    ensures StackFrom(s, pos, max) == if |Stack(es)| <= max then Some(Cleared(Stack(es))) else None
    decreases es
  {
    hide Strtoul; hide Dec; hide Bottom; hide Label; hide Pack; hide Text;
    FirstLabel(s, pos, es);
    if Bottom(es[0]) {
      OneCleared(es[0]);
    } else {
      var end := pos + |Dec(Label(es[0]))|;
      var stack := Stack(es[1..]);
      MoreCleared(es[0], stack);
      if max > 0 { StackOfText(s, end + 1, es[1..], max - 1); }
    }
  }

  lemma OneCleared(e: Entry)
    ensures Cleared([e]) == [Pack(Label(e), Bottom(e))]
  {
    assert [e][1..] == [];
  }

  lemma MoreCleared(e: Entry, es: seq<Entry>)
    ensures Cleared([e] + es) == [Pack(Label(e), Bottom(e))] + Cleared(es)
  {
    assert ([e] + es)[1..] == es;
  }

  // The first label is read, and what follows it.
  lemma FirstLabel(s: string, pos: nat, es: seq<Entry>)
    requires HasBottom(es) && pos + |Text(es)| == |s| && s[pos..] == Text(es)
    ensures var end := pos + |Dec(Label(es[0]))|;
            && end <= |s| && Strtoul(s, pos) == (Label(es[0]), end)
            && (Bottom(es[0]) ==> end == |s|)
            && (!Bottom(es[0]) ==> && end < |s| && s[end] == '/' && HasBottom(es[1..])
                                   && end + 1 + |Text(es[1..])| == |s| && s[end + 1..] == Text(es[1..]))
  {
    hide Strtoul; hide Dec; hide Label; hide Pack;
    var k := |Dec(Label(es[0]))|;
    assert s[pos..pos + k] == s[pos..][..k] == Dec(Label(es[0]));
    if !Bottom(es[0]) {
      assert s[pos + k] == s[pos..][k] == '/';
      assert s[pos + k + 1..] == s[pos..][k + 1..] == Text(es[1..]);
    }
    LabelSmall(es[0]);
    StrtoulOfDec(s, pos, Label(es[0]));
  }

  lemma LabelSmall(e: Entry)
    ensures Label(e) <= ULONG_MAX
  {}

  // A stack as it should be: the bottom bit on the last entry only, and no
  // traffic class or time to live
  predicate Plain(es: seq<Entry>)
  {
    es != [] && forall i :: 0 <= i < |es| ==> es[i] == Pack(Label(es[i]), i == |es| - 1)
  }

  // Entries come back as they were exactly when they are such a stack.
  lemma RoundTrip(es: seq<Entry>, max: nat)
    requires HasBottom(es)
    ensures StackFrom(Text(es), 0, max) == Some(es) <==> Plain(es) && |es| <= max
  {
    StackOfText(Text(es), 0, es, max);
    PlainIff(es);
    StackShort(es);
  }

  lemma {:induction false} PlainIff(es: seq<Entry>)
    requires HasBottom(es)
    ensures Cleared(Stack(es)) == es <==> Plain(es)
  {
    StackShort(es);
    if Bottom(es[0]) {
      assert Cleared([es[0]][1..]) == [];
    } else {
      var rest, stack := es[1..], Stack(es[1..]);
      PlainIff(rest);
      assert ([es[0]] + stack)[1..] == stack;
      assert es == [es[0]] + rest;
      if Plain(es) {
        assert forall i :: 0 <= i < |rest| ==> rest[i] == es[i + 1];
      }
      if es[0] == Pack(Label(es[0]), false) && Plain(rest) {
        assert forall i :: 0 < i < |es| ==> es[i] == rest[i - 1];
      }
    }
  }

  lemma {:induction false} StackShort(es: seq<Entry>)
    requires HasBottom(es)
    ensures 1 <= |Stack(es)| <= |es| && |Cleared(Stack(es))| == |Stack(es)|
  {
    if !Bottom(es[0]) {
      StackShort(es[1..]);
      assert ([es[0]] + Stack(es[1..]))[1..] == Stack(es[1..]);
    }
  }

  // Whatever text is accepted, the result is such a stack.
  lemma {:induction false} ParsedPlain(s: string, pos: nat, max: nat)
    requires pos <= |s| && StackFrom(s, pos, max).Some?
    ensures var es := StackFrom(s, pos, max).value; Plain(es) && |es| <= max && HasBottom(es)
    decreases max
  {
    var (lab, end) := Strtoul(s, pos);
    if end < |s| {
      ParsedPlain(s, end + 1, max - 1);
      var rest := StackFrom(s, end + 1, max - 1).value;
      assert ([Pack(lab, false)] + rest)[1..] == rest;
    }
  }
}
