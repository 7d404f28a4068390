// Bytes and the host's 16- and 32-bit integers in them, on a little-endian
// host; alignment as in NLMSG_ALIGN and NLA_ALIGN.

module Bytes {

  type Byte = b: int | 0 <= b < 256

  function U16At(s: seq<Byte>, i: nat): (v: nat)
    requires i + 2 <= |s|
    ensures v < 0x1_0000
  {
    s[i] as int + 0x100 * (s[i + 1] as int)
  }

  function U32At(s: seq<Byte>, i: nat): (v: nat)
    requires i + 4 <= |s|
    ensures v < 0x1_0000_0000
  {
    s[i] as int + 0x100 * (s[i + 1] as int) + 0x1_0000 * (s[i + 2] as int) + 0x100_0000 * (s[i + 3] as int)
  }

  // A signed 32-bit integer, two's complement
  function S32At(s: seq<Byte>, i: nat): int
    requires i + 4 <= |s|
  {
    var v := U32At(s, i);
    if v < 0x8000_0000 then v else v - 0x1_0000_0000
  }

  function U16Bytes(v: nat): (r: seq<Byte>)
    requires v < 0x1_0000
    ensures |r| == 2 && U16At(r, 0) == v
  {
    [v % 0x100, v / 0x100]
  }

  // The next multiple of four
  function Align(n: nat): (r: nat)
    ensures n <= r < n + 4 && r % 4 == 0
    ensures n % 4 == 0 ==> r == n
  {
    if n % 4 == 0 then n else n + 4 - n % 4
  }

  function HasFlag(flags: nat, bit: nat): bool
    requires bit > 0
  {
    flags / bit % 2 == 1
  }

  function Zeros(n: nat): (r: seq<Byte>)
    ensures |r| == n && forall i :: 0 <= i < n ==> r[i] == 0
  {
    seq(n, _ => 0)
  }
}
