module BaseSpec {
  // Base 16, 32 and 64 text, after sections 4 to 8 of RFC 4648: what a row of bytes is
  // encoded as, how a text is decoded, and that decoding undoes encoding.

  import opened Arithmetic
  import opened Bytes
  import opened BaseBits

  datatype Class = Digit(v: nat) | Space | Equals | Invalid

  /** An encoding: bits per digit, whether it is padded, its digits, and how characters are read. */
  datatype Config = Config(width: nat, wantPadding: bool, digit: nat -> byte, classOf: byte -> Class)

  ghost predicate ConfigOk(c: Config) {
    && 4 <= c.width <= 6 && (c.wantPadding ==> c.width == 6)
    && (forall v: nat {:trigger c.digit(v)} :: v < Pow2(c.width) ==> c.classOf(c.digit(v)) == Digit(v))
    && (forall b: byte {:trigger c.classOf(b)} :: c.classOf(b).Digit? ==> c.classOf(b).v < Pow2(c.width))
    && c.classOf(61) == Equals
  }

  // ---------------------------------------------------------------- encoding

  /** Bits cut into groups of w, the last one filled up with zeros. */
  function Groups(s: Bits, w: nat): (g: seq<nat>)
    requires w > 0
    ensures forall i :: 0 <= i < |g| ==> g[i] < Pow2(w)
    decreases |s|
  {
    if s == [] then []
    else if |s| < w then [Val(s + ZeroBits(w - |s|))]
    else [Val(s[..w])] + Groups(s[w..], w)
  }

  function Digits(c: Config, g: seq<nat>): (t: seq<byte>)
    ensures |t| == |g|
  {
    if g == [] then [] else [c.digit(g[0])] + Digits(c, g[1..])
  }

  function PadCount(c: Config, digits: nat): nat {
    if c.wantPadding then (4 - digits % 4) % 4 else 0
  }

  function Pads(n: nat): (t: seq<byte>)
    ensures |t| == n
  {
    seq(n, _ => 61)
  }

  function Encoded(c: Config, x: seq<byte>): seq<byte>
    requires c.width > 0
  {
    var g := Groups(ByteBits(x), c.width);
    Digits(c, g) + Pads(PadCount(c, |g|))
  }

  /** The zeros that fill up the last group. */
  function Filled(n: nat, w: nat): (e: nat)
    requires w > 0
    ensures e < w && (n + e) % w == 0
  {
    if n % w == 0 then 0 else
    FilledUp(n, w);
    w - n % w
  }

  lemma {:induction false} FilledUp(n: nat, w: nat)
    requires w > 0
    ensures (n + (w - n % w)) % w == 0
  {
    var q, r := n / w, n % w;
    assert n == w * q + r;
    Dist(q, 1, w);
    DivOf(q + 1, w, 0);
  }

  lemma {:induction false} FilledNext(n: nat, w: nat)
    requires 0 < w <= n
    ensures Filled(n, w) == Filled(n - w, w)
  {
    var q, r := (n - w) / w, (n - w) % w;
    assert n - w == w * q + r;
    Dist(q, 1, w);
    DivOf(q + 1, w, r);
  }

  lemma {:induction false} FilledSmall(n: nat, w: nat)
    requires n < w
    ensures Filled(n, w) == if n == 0 then 0 else w - n
  {
    DivOf(0, w, n);
  }

  lemma {:induction false} GroupsNext(s: Bits, w: nat)
    requires 0 < w <= |s|
    ensures Groups(s, w) == [Val(s[..w])] + Groups(s[w..], w)
  {
  }

  lemma {:induction false} GroupsEnd(s: Bits, w: nat)
    requires |s| < w
    ensures Groups(s, w) == if s == [] then [] else [Val(s + ZeroBits(w - |s|))]
  {
  }

  lemma {:induction false} GroupCount(s: Bits, w: nat)
    requires w > 0
    ensures w * |Groups(s, w)| == |s| + Filled(|s|, w)
    decreases |s|
  {
    hide Groups, Filled;
    if |s| < w {
      GroupsEnd(s, w);
      FilledSmall(|s|, w);
    } else {
      GroupsNext(s, w);
      FilledNext(|s|, w);
      GroupCount(s[w..], w);
      Dist(1, |Groups(s[w..], w)|, w);
    }
  }

  /** The lengths that RFC 4648 gives: four characters for every three bytes or part of them, or as many as the bits need. */
  lemma {:induction false} EncodedLength(c: Config, x: seq<byte>)
    requires ConfigOk(c)
    ensures c.wantPadding ==> |Encoded(c, x)| == 4 * ((|x| + 2) / 3)
    ensures !c.wantPadding ==> |Encoded(c, x)| == (8 * |x| + c.width - 1) / c.width
  {
    hide Groups, ByteBits, Filled;
    GroupCount(ByteBits(x), c.width);
    var n, k, e := |x|, |Groups(ByteBits(x), c.width)|, Filled(8 * |x|, c.width);
    if c.width == 4 {
      Length4(n, k, e);
    } else if c.width == 5 {
      Length5(n, k, e);
    } else {
      Length6(n, k, e);
    }
  }

  lemma {:induction false} Length4(n: nat, k: nat, e: nat)
    requires 4 * k == 8 * n + e && e < 4
    ensures k == (8 * n + 3) / 4
  {
  }

  lemma {:induction false} Length5(n: nat, k: nat, e: nat)
    requires 5 * k == 8 * n + e && e < 5
    ensures k == (8 * n + 4) / 5
  {
  }

  lemma {:induction false} Length6(n: nat, k: nat, e: nat)
    requires 6 * k == 8 * n + e && e < 6
    ensures k == (8 * n + 5) / 6 && k + (4 - k % 4) % 4 == 4 * ((n + 2) / 3)
  {
    var q, r := n / 3, n % 3;
    assert n == 3 * q + r;
    assert k == 4 * q + (if r == 0 then 0 else r + 1);
  }

  // ---------------------------------------------------------------- decoding

  /**
   * How far a text has been read: the bytes so far, the bits that are left over, the bits
   * that padding stands for, how many characters have been used, and whether there was no
   * room for a byte.
   */
  datatype Scan = Scan(out: seq<byte>, left: Bits, padding: nat, used: nat, full: bool)

  function NextByte(left: Bits): byte
    requires |left| >= 8
  {
    assert Pow2(8) == 256;
    Val(left[..8])
  }

  datatype Step = Go(s: Scan) | Stop(s: Scan)

  /** Read one character. */
  function ReadOne(c: Config, skip: bool, b: byte, s: Scan, room: nat): Step {
    match c.classOf(b)
    case Space => if skip then Go(s.(used := s.used + 1)) else Stop(s)
    case Invalid => Stop(s)
    case Equals =>
      if !c.wantPadding || (|s.left| + s.padding) % 8 == 0 then Stop(s)
      else if s.padding == 0 && c.width <= |s.left| < 8 then Stop(s)
      else
        var s' := s.(padding := s.padding + c.width, used := s.used + 1);
        if (|s'.left| + s'.padding) % 8 == 0 then Stop(s') else Go(s')
    case Digit(v) =>
      if s.padding > 0 then Stop(s)
      else
        var left := s.left + BitsOf(v, c.width);
        var s' := s.(left := left, used := s.used + 1);
        if |left| < 8 then Go(s')
        else if |s.out| >= room then Stop(s'.(full := true))
        else Go(s'.(out := s.out + [NextByte(left)], left := left[8..]))
  }

  /** Read on from text that is still to be read. */
  function Read(c: Config, skip: bool, t: seq<byte>, s: Scan, room: nat): Scan
    decreases |t|
  {
    if t == [] then s else
    match ReadOne(c, skip, t[0], s, room)
    case Stop(s') => s'
    case Go(s') => Read(c, skip, t[1..], s', room)
  }

  const BEGIN := Scan([], [], 0, 0, false)

  datatype Outcome = Fine | Overflow | PaddingMissing

  datatype Decoded = Decoded(outcome: Outcome, out: seq<byte>, used: int)

  /** What decoding ends with; a last character that adds nothing is given back. */
  function Ended(c: Config, s: Scan): Decoded {
    if s.full then Decoded(Overflow, s.out, s.used)
    else if (|s.left| + s.padding) % 8 == 0 then Decoded(Fine, s.out, s.used)
    else if c.wantPadding then Decoded(PaddingMissing, s.out, s.used)
    else if s.padding == 0 && c.width <= |s.left| < 8 then Decoded(Fine, s.out, s.used - 1)
    else Decoded(Fine, s.out, s.used)
  }

  function Decode(c: Config, skip: bool, t: seq<byte>, room: nat): Decoded {
    Ended(c, Read(c, skip, t, BEGIN, room))
  }

  // ---------------------------------------------------------------- decoding undoes encoding

  /** The bits of groups put together again. */
  function Ungroup(g: seq<nat>, w: nat): (s: Bits)
    ensures |s| == w * |g|
  {
    if g == [] then [] else
    Dist(1, |g| - 1, w);
    BitsOf(g[0], w) + Ungroup(g[1..], w)
  }

  lemma {:induction false} UngroupFirst(v: nat, g: seq<nat>, w: nat)
    ensures Ungroup([v] + g, w) == BitsOf(v, w) + Ungroup(g, w)
  {
    assert ([v] + g)[1..] == g;
  }

  lemma {:induction false} UngroupGroups(s: Bits, w: nat)
    requires w > 0
    ensures Ungroup(Groups(s, w), w) == s + ZeroBits(Filled(|s|, w))
    decreases |s|
  {
    hide Groups, Filled, BitsOf, Val;
    if |s| < w {
      GroupsEnd(s, w);
      FilledSmall(|s|, w);
      if s != [] {
        var r := s + ZeroBits(w - |s|);
        BitsOfVal(r);
        UngroupFirst(Val(r), [], w);
        assert [Val(r)] + [] == [Val(r)];
      }
    } else {
      GroupsNext(s, w);
      FilledNext(|s|, w);
      UngroupGroups(s[w..], w);
      BitsOfVal(s[..w]);
      UngroupFirst(Val(s[..w]), Groups(s[w..], w), w);
      assert s == s[..w] + s[w..];
    }
  }

  /** All bits read so far. */
  function Stream(s: Scan): Bits {
    ByteBits(s.out) + s.left
  }

  lemma {:induction false} ByteTaken(s: Scan, more: Bits)
    requires |s.left + more| >= 8
    ensures var left := s.left + more;
            ByteBits(s.out + [NextByte(left)]) + left[8..] == Stream(s) + more
  {
    var left := s.left + more;
    ByteBitsMore(s.out, NextByte(left));
    BitsOfVal(left[..8]);
    assert left == left[..8] + left[8..];
    assert ByteBits(s.out) + left == Stream(s) + more;
  }

  ghost predicate Reading(s: Scan) {
    |s.left| < 8 && s.padding == 0 && !s.full
  }

  lemma {:induction false} ReadDigit(c: Config, skip: bool, v: nat, s: Scan, room: nat) returns (s': Scan)
    requires ConfigOk(c) && Reading(s) && v < Pow2(c.width) && (|Stream(s)| + c.width) / 8 <= room
    ensures ReadOne(c, skip, c.digit(v), s, room) == Go(s')
    ensures Reading(s') && Stream(s') == Stream(s) + BitsOf(v, c.width) && s'.used == s.used + 1
  {
    hide Pow2, BitsOf, ByteBits;
    assert c.classOf(c.digit(v)) == Digit(v) && |Stream(s)| == 8 * |s.out| + |s.left|;
    var more := BitsOf(v, c.width);
    var left := s.left + more;
    s' := s.(left := left, used := s.used + 1);
    if |left| >= 8 {
      ByteTaken(s, more);
      s' := s'.(out := s.out + [NextByte(left)], left := left[8..]);
    }
  }

  /** Reading the digits of groups adds their bits to the stream. */
  lemma {:induction false} ReadDigits(c: Config, skip: bool, g: seq<nat>, rest: seq<byte>, s: Scan, room: nat)
    returns (s': Scan)
    requires ConfigOk(c) && Reading(s) && forall i :: 0 <= i < |g| ==> g[i] < Pow2(c.width)
    requires (|Stream(s)| + |Ungroup(g, c.width)|) / 8 <= room
    ensures Read(c, skip, Digits(c, g) + rest, s, room) == Read(c, skip, rest, s', room)
    ensures Reading(s') && Stream(s') == Stream(s) + Ungroup(g, c.width) && s'.used == s.used + |g|
    decreases |g|
  {
    hide ConfigOk, Reading, Stream, ReadOne, BitsOf, Pow2;
    var t := Digits(c, g) + rest;
    if g == [] {
      assert t == rest;
      s' := s;
    } else {
      assert t[0] == c.digit(g[0]) && t[1..] == Digits(c, g[1..]) + rest;
      UngroupFirst(g[0], g[1..], c.width);
      assert g == [g[0]] + g[1..];
      var s1 := ReadDigit(c, skip, g[0], s, room);
      s' := ReadDigits(c, skip, g[1..], rest, s1, room);
    }
  }

  /** A stream that ends in fewer than eight bits determines its bytes. */
  lemma {:induction false} StreamBytes(s: Scan, x: seq<byte>, e: nat)
    requires |s.left| < 8 && e < 8 && Stream(s) == ByteBits(x) + ZeroBits(e)
    ensures s.out == x && |s.left| == e
  {
    assert 8 * |s.out| + |s.left| == 8 * |x| + e;
    assert |s.out| == |x|;
    var t := Stream(s);
    assert t[..8 * |x|] == ByteBits(x) && t[..8 * |x|] == ByteBits(s.out);
    ByteBitsUnique(s.out, x);
  }

  /** How many bits are left over tells how much padding there is. */
  lemma {:induction false} PadCountIs(c: Config, x: seq<byte>)
    requires ConfigOk(c)
    ensures var e, k := Filled(8 * |x|, c.width), PadCount(c, |Groups(ByteBits(x), c.width)|);
            if c.wantPadding then (e == 0 && k == 0) || (e == 2 && k == 1) || (e == 4 && k == 2) else k == 0
  {
    hide Groups, ByteBits, Filled;
    GroupCount(ByteBits(x), c.width);
    if c.wantPadding { PadArith(|x|, |Groups(ByteBits(x), 6)|, Filled(8 * |x|, 6)); }
  }

  lemma {:induction false} PadArith(n: nat, k: nat, e: nat)
    requires 6 * k == 8 * n + e && e < 6
    ensures (e == 0 && k % 4 == 0) || (e == 2 && k % 4 == 3) || (e == 4 && k % 4 == 2)
  {
    var q, r := k / 4, k % 4;
    var d := 3 * q - n;
    assert k == 4 * q + r;
    assert e == 8 * d + 6 * r;
  }

  lemma {:induction false} ReadPads(c: Config, skip: bool, s: Scan, room: nat)
    requires ConfigOk(c) && c.wantPadding && Reading(s)
    requires |s.left| == 0 || |s.left| == 2 || |s.left| == 4
    ensures var r := Read(c, skip, Pads(|s.left| / 2), s, room);
            r.out == s.out && r.used == s.used + |s.left| / 2 && !r.full && (|r.left| + r.padding) % 8 == 0
  {
    var n := |s.left| / 2;
    var t := Pads(n);
    if n > 0 {
      assert t[0] == 61;
      assert t[1..] == Pads(n - 1);
      if n == 2 { assert Pads(1)[0] == 61; }
    }
  }

  /**
   * Decoding what bytes were encoded as gives the bytes, without an error, and uses up
   * the whole text.
   */
  lemma {:induction false} RoundTrip(c: Config, skip: bool, x: seq<byte>, room: nat)
    requires ConfigOk(c) && |x| <= room
    ensures Decode(c, skip, Encoded(c, x), room) == Decoded(Fine, x, |Encoded(c, x)|)
  {
    hide Groups, Filled, Pow2, BitsOf, ByteBits, Read, Pads;
    var g := Groups(ByteBits(x), c.width);
    var e := Filled(8 * |x|, c.width);
    var pads := Pads(PadCount(c, |g|));
    UngroupGroups(ByteBits(x), c.width);
    BeginReads(c);
    assert (8 * |x| + e) / 8 == |x|;
    var s := ReadDigits(c, skip, g, pads, BEGIN, room);
    StreamBytes(s, x, e);
    PadCountIs(c, x);
    if c.wantPadding {
      ReadPads(c, skip, s, room);
    } else {
      ReadNothing(c, skip, s, room);
    }
  }

  lemma {:induction false} BeginReads(c: Config)
    ensures Reading(BEGIN) && Stream(BEGIN) == [] && |Stream(BEGIN)| == 0
    ensures forall b: Bits :: Stream(BEGIN) + b == b
  {
  }

  lemma {:induction false} ReadNothing(c: Config, skip: bool, s: Scan, room: nat)
    ensures Pads(0) == [] && Read(c, skip, [], s, room) == s
  {
  }

  // ---------------------------------------------------------------- whitespace

  /** A text without its whitespace. */
  function Stripped(c: Config, t: seq<byte>): seq<byte> {
    if t == [] then [] else (if c.classOf(t[0]).Space? then [] else [t[0]]) + Stripped(c, t[1..])
  }

  /** Scans that differ at most in how many characters have been used. */
  ghost predicate Alike(s: Scan, s': Scan) {
    s' == s.(used := s'.used)
  }

  lemma {:induction false} ReadOneAlike(c: Config, b: byte, s: Scan, s': Scan, room: nat)
    requires Alike(s, s')
    ensures var r, r' := ReadOne(c, true, b, s, room), ReadOne(c, true, b, s', room);
            r.Go? == r'.Go? && Alike(r.s, r'.s)
  {
  }

  lemma {:induction false} ReadStripped(c: Config, t: seq<byte>, s: Scan, s': Scan, room: nat)
    requires Alike(s, s')
    ensures Alike(Read(c, true, t, s, room), Read(c, true, Stripped(c, t), s', room))
    decreases |t|
  {
    if t != [] {
      var rest := Stripped(c, t[1..]);
      if c.classOf(t[0]).Space? {
        assert Stripped(c, t) == rest;
        ReadStripped(c, t[1..], s.(used := s.used + 1), s', room);
      } else {
        assert Stripped(c, t)[0] == t[0] && Stripped(c, t)[1..] == rest;
        ReadOneAlike(c, t[0], s, s', room);
        hide ReadOne;
        var r, r' := ReadOne(c, true, t[0], s, room), ReadOne(c, true, t[0], s', room);
        if r.Go? { ReadStripped(c, t[1..], r.s, r'.s, room); }
      }
    }
  }

  /** In skip mode whitespace, wherever it is put, changes neither the decoded bytes nor the outcome. */
  lemma {:induction false} WhitespaceIgnored(c: Config, t: seq<byte>, room: nat)
    ensures Decode(c, true, t, room).out == Decode(c, true, Stripped(c, t), room).out
    ensures Decode(c, true, t, room).outcome == Decode(c, true, Stripped(c, t), room).outcome
  {
    ReadStripped(c, t, BEGIN, BEGIN, room);
  }

  // ---------------------------------------------------------------- the character that is given back

  /** The last digit among the first n characters, or -1. */
  function LastDigit(c: Config, t: seq<byte>, n: nat): (p: int)
    requires n <= |t|
    ensures -1 <= p < n
    ensures p >= 0 ==> c.classOf(t[p]).Digit?
    ensures forall i :: p < i < n ==> !c.classOf(t[i]).Digit?
  {
    if n == 0 then -1 else if c.classOf(t[n - 1]).Digit? then n - 1 else LastDigit(c, t, n - 1)
  }

  /** Without padding only digits and whitespace are used, and whitespace leaves the bits as they are. */
  lemma {:induction false} ReadUses(c: Config, skip: bool, t: seq<byte>, s: Scan, room: nat) returns (n: nat)
    requires !c.wantPadding
    ensures n <= |t| && Read(c, skip, t, s, room).used == s.used + n
    ensures forall i :: 0 <= i < n ==> c.classOf(t[i]).Digit? || c.classOf(t[i]).Space?
    ensures (forall i :: 0 <= i < n ==> c.classOf(t[i]).Space?) ==> Read(c, skip, t, s, room).left == s.left
  {
    n := 0;
    if t != [] {
      var step := ReadOne(c, skip, t[0], s, room);
      n := step.s.used - s.used;
      if step.Go? {
        var k := ReadUses(c, skip, t[1..], step.s, room);
        forall i | 0 <= i < 1 + k ensures c.classOf(t[i]).Digit? || c.classOf(t[i]).Space? {
          if i > 0 { assert t[i] == t[1..][i - 1]; }
        }
        if forall i :: 0 <= i < 1 + k ==> c.classOf(t[i]).Space? {
          forall i | 0 <= i < k ensures c.classOf(t[1..][i]).Space? { assert t[1..][i] == t[i + 1]; }
        }
        n := 1 + k;
      }
    }
  }

  /**
   * When bits of a last digit are left over, the last character that was used is given back.
   * The digit is not consumed if and only if that character is the digit, and not whitespace
   * that came after it.
   */
  lemma {:induction false} GivesBackDigit(c: Config, skip: bool, t: seq<byte>, room: nat)
    requires !c.wantPadding
    ensures var s := Read(c, skip, t, BEGIN, room);
            !s.full && s.padding == 0 && 0 < c.width <= |s.left| < 8 ==>
              && 0 < s.used <= |t| && Decode(c, skip, t, room).used == s.used - 1
              && var p := LastDigit(c, t, s.used);
              && p >= 0
              && (Decode(c, skip, t, room).used <= p <==> !c.classOf(t[s.used - 1]).Space?)
  {
    var s := Read(c, skip, t, BEGIN, room);
    var n := ReadUses(c, skip, t, BEGIN, room);
    if !s.full && s.padding == 0 && 0 < c.width <= |s.left| < 8 {
      assert (|s.left| + s.padding) % 8 != 0;
      var p := LastDigit(c, t, s.used);
    }
  }
}
