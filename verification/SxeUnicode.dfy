// UTF-8, as section 3 of RFC 3629 defines it.
module SxeUnicode {
  import opened Bytes

  const MAX_CODE_POINT: nat := 0x10ffff

  /** The octets of a code point; none above the last code point. */
  function Utf8(u: nat): (s: seq<byte>)
    ensures |s| <= 4
    ensures u <= MAX_CODE_POINT ==> |s| >= 1
  {
    if u <= 0x7f then [u]
    else if u <= 0x7ff then [0xc0 + u / 0x40, 0x80 + u % 0x40]
    else if u <= 0xffff then [0xe0 + u / 0x1000, 0x80 + u / 0x40 % 0x40, 0x80 + u % 0x40]
    else if u <= MAX_CODE_POINT then [0xf0 + u / 0x4_0000, 0x80 + u / 0x1000 % 0x40, 0x80 + u / 0x40 % 0x40, 0x80 + u % 0x40]
    else []
  }

  /** How many octets follow the first one of a sequence, by its high bits; 4 when it is not a first octet. */
  function Following(b: byte): nat {
    if b < 0x80 then 0
    else if 0xc0 <= b < 0xe0 then 1
    else if 0xe0 <= b < 0xf0 then 2
    else if 0xf0 <= b < 0xf8 then 3
    else 4
  }

  predicate IsTail(s: seq<byte>) {
    forall i :: 0 <= i < |s| ==> 0x80 <= s[i] < 0xc0
  }

  /** The code point that a sequence of octets stands for, read off the bit patterns of the table. */
  function CodePoint(s: seq<byte>): nat
    requires 0 < |s| <= 4 && Following(s[0]) == |s| - 1 && IsTail(s[1..])
  {
    var a: nat := s[0];
    match |s|
    case 1 => a
    case 2 => var b: nat := s[1]; (a - 0xc0) * 0x40 + b % 0x40
    case 3 => var b: nat, c: nat := s[1], s[2]; (a - 0xe0) * 0x1000 + b % 0x40 * 0x40 + c % 0x40
    case _ => var b: nat, c: nat, d: nat := s[1], s[2], s[3];
              (a - 0xf0) * 0x4_0000 + b % 0x40 * 0x1000 + c % 0x40 * 0x40 + d % 0x40
  }

  /** Every code point can be read back from its octets, and has as few of them as the table allows. */
  lemma {:induction false} Utf8RoundTrip(u: nat)
    requires u <= MAX_CODE_POINT
    ensures var s := Utf8(u);
            && Following(s[0]) == |s| - 1 && IsTail(s[1..]) && CodePoint(s) == u
            && |s| == (if u < 0x80 then 1 else if u < 0x800 then 2 else if u < 0x1_0000 then 3 else 4)
  {
    if 0x7f < u <= 0x7ff { Octets2(u); }
    if 0x7ff < u <= 0xffff { Octets3(u); }
    if u > 0xffff { Octets4(u); }
  }

  lemma {:induction false} Low6(n: nat)
    requires n < 0x40
    ensures (0x80 + n) % 0x40 == n
  {
  }

  lemma {:induction false} Octets2(u: nat)
    requires 0x7f < u <= 0x7ff
    ensures var s := Utf8(u); |s| == 2 && Following(s[0]) == 1 && IsTail(s[1..]) && CodePoint(s) == u
  {
    var a, b := u / 0x40, u % 0x40;
    ShiftedBy6(u);
    Low6(b);
    assert Utf8(u) == [0xc0 + a, 0x80 + b];
  }

  lemma {:induction false} Octets3(u: nat)
    requires 0x7ff < u <= 0xffff
    ensures var s := Utf8(u); |s| == 3 && Following(s[0]) == 2 && IsTail(s[1..]) && CodePoint(s) == u
  {
    var a, b, c := u / 0x1000, u / 0x40 % 0x40, u % 0x40;
    ShiftedBy6(u);
    ShiftedBy6(u / 0x40);
    assert u == a * 0x1000 + b * 0x40 + c && a < 0x10;
    Low6(b);
    Low6(c);
    assert Utf8(u) == [0xe0 + a, 0x80 + b, 0x80 + c];
  }

  lemma {:induction false} Octets4(u: nat)
    requires 0xffff < u <= MAX_CODE_POINT
    ensures var s := Utf8(u); |s| == 4 && Following(s[0]) == 3 && IsTail(s[1..]) && CodePoint(s) == u
  {
    var a, b, c, d := u / 0x4_0000, u / 0x1000 % 0x40, u / 0x40 % 0x40, u % 0x40;
    ShiftedBy6(u);
    ShiftedBy6(u / 0x40);
    ShiftedBy6(u / 0x1000);
    assert u == a * 0x4_0000 + b * 0x1000 + c * 0x40 + d && a < 5;
    Low6(b);
    Low6(c);
    Low6(d);
    assert Utf8(u) == [0xf0 + a, 0x80 + b, 0x80 + c, 0x80 + d];
  }

  lemma {:induction false} ShiftedBy6(u: nat)
    ensures u == u / 0x40 * 0x40 + u % 0x40 && u / 0x40 / 0x40 == u / 0x1000 && u / 0x1000 / 0x40 == u / 0x4_0000
  {
  }

  /** Write the octets of a code point into a buffer of four; tells how many. */
  method UnicodeToUtf8(u: nat, utf: array<byte>) returns (n: nat)
    requires utf.Length >= 4
    modifies utf
    ensures n == |Utf8(u)| && utf[..n] == Utf8(u) && utf[n..] == old(utf[..])[n..]
  {
    if u <= 0x7f {
      utf[0] := u;
      return 1;
    }
    if u <= 0x7ff {
      utf[0] := 0xc0 + u / 0x40;
      utf[1] := 0x80 + u % 0x40;
      return 2;
    }
    if u <= 0xffff {
      utf[0] := 0xe0 + u / 0x1000;
      utf[1] := 0x80 + u / 0x40 % 0x40;
      utf[2] := 0x80 + u % 0x40;
      return 3;
    }
    if u <= MAX_CODE_POINT {
      utf[0] := 0xf0 + u / 0x4_0000;
      utf[1] := 0x80 + u / 0x1000 % 0x40;
      utf[2] := 0x80 + u / 0x40 % 0x40;
      utf[3] := 0x80 + u % 0x40;
      return 4;
    }
    return 0;
  }
}
