// Bytes and words of bytes.
module Bytes {

  type byte = b: int | 0 <= b < 256

  function Zeros(n: nat): (s: seq<byte>)
    ensures |s| == n
  {
    seq(n, _ => 0)
  }

  /** The bytes of a word of 32 bits, low byte first. */
  function Le4(n: nat): (s: seq<byte>)
    requires n < 0x1_0000_0000
    ensures |s| == 4
  {
    [n % 256, n / 256 % 256, n / 256 / 256 % 256, n / 256 / 256 / 256]
  }

  /** The number whose bytes these are, low byte first. */
  function LowFirst(s: seq<byte>): nat {
    if s == [] then 0 else s[0] + 256 * LowFirst(s[1..])
  }

  lemma {:induction false} LowFirstOf4(s: seq<byte>)
    requires |s| == 4
    ensures LowFirst(s) == s[0] + 0x100 * (s[1] as int) + 0x1_0000 * (s[2] as int) + 0x100_0000 * (s[3] as int)
  {
    assert LowFirst(s[3..]) == s[3] && s[2..][1..] == s[3..];
    assert LowFirst(s[2..]) == s[2] + 0x100 * (s[3] as int) && s[1..][1..] == s[2..];
    assert LowFirst(s[1..]) == s[1] + 0x100 * (s[2] as int) + 0x1_0000 * (s[3] as int);
  }

  lemma {:induction false} LowFirstOfTwo(a: seq<byte>, b: seq<byte>)
    requires |a| == 4
    ensures LowFirst(a + b) == LowFirst(a) + 0x1_0000_0000 * LowFirst(b)
  {
    var s := a + b;
    LowFirstOf4(a);
    assert s[3..][1..] == b && s[2..][1..] == s[3..] && s[1..][1..] == s[2..];
    assert LowFirst(s[3..]) == s[3] + 0x100 * LowFirst(b);
    assert LowFirst(s[2..]) == s[2] + 0x100 * s[3] + 0x1_0000 * LowFirst(b);
    assert LowFirst(s[1..]) == s[1] + 0x100 * s[2] + 0x1_0000 * s[3] + 0x100_0000 * LowFirst(b);
  }

  /** The four bytes of a word stand for it. */
  lemma {:induction false} Le4Back(n: nat)
    requires n < 0x1_0000_0000
    ensures LowFirst(Le4(n)) == n
  {
    var a, b, c := n / 256, n / 256 / 256, n / 256 / 256 / 256;
    LowFirstOf4(Le4(n));
    assert n == 256 * a + n % 256 && a == 256 * b + a % 256 && b == 256 * c + b % 256;
  }
}
