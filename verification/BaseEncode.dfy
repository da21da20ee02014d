// The encoder and the decoder, which shift bits through a 32-bit buffer, and the
// encodings that are configured.
module BaseEncode {
  import opened Bytes
  import opened BaseBits
  import opened BaseSpec

  // ---------------------------------------------------------------- the configurations

  function Decimal(b: byte): Class { if 48 <= b <= 57 then Digit(b - 48) else Other(b) }

  /** What is no digit: tab, line feed, space, the equals sign and the rest. */
  function Other(b: byte): Class {
    if b == 9 || b == 10 || b == 32 then Space else if b == 61 then Equals else Invalid
  }

  /** The table of base 16 also reads P as 15. */
  function Class16(b: byte): Class {
    if 65 <= b <= 70 then Digit(b - 55) else if 97 <= b <= 102 then Digit(b - 87) else if b == 80 then Digit(15) else Decimal(b)
  }

  function Class32(b: byte): Class {
    if 65 <= b <= 90 then Digit(b - 65) else if 50 <= b <= 55 then Digit(b - 24) else Other(b)
  }

  function Class32Hex(b: byte): Class {
    if 65 <= b <= 86 then Digit(b - 55) else if 97 <= b <= 118 then Digit(b - 87) else Decimal(b)
  }

  /** Base 64 with two characters for 62 and 63. */
  function Class64(b: byte, c62: byte, c63: byte): Class {
    if 65 <= b <= 90 then Digit(b - 65) else if 97 <= b <= 122 then Digit(b - 71) else if 48 <= b <= 57 then Digit(b + 4)
    else if b == c62 then Digit(62) else if b == c63 then Digit(63) else Other(b)
  }

  function Digit16Lower(v: nat): byte { if v < 10 then 48 + v else if v < 16 then 87 + v else 0 }
  function Digit16Upper(v: nat): byte { if v < 10 then 48 + v else if v < 16 then 55 + v else 0 }
  function Digit32(v: nat): byte { if v < 26 then 65 + v else if v < 32 then 24 + v else 0 }
  function Digit32Hex(v: nat): byte { if v < 10 then 48 + v else if v < 32 then 55 + v else 0 }

  function Digit64(v: nat, c62: byte, c63: byte): byte {
    if v < 26 then 65 + v else if v < 52 then 71 + v else if v < 62 then v - 4 else if v == 62 then c62 else if v == 63 then c63 else 0
  }

  const BASE16_LOWER := Config(4, false, Digit16Lower, Class16)
  const BASE16 := Config(4, false, Digit16Upper, Class16)
  const BASE32 := Config(5, false, Digit32, Class32)
  const BASE32HEX := Config(5, false, Digit32Hex, Class32Hex)
  const BASE64 := Config(6, true, (v: nat) => Digit64(v, 43, 47), (b: byte) => Class64(b, 43, 47))
  const BASE64URL := Config(6, false, (v: nat) => Digit64(v, 45, 95), (b: byte) => Class64(b, 45, 95))

  lemma {:induction false} Powers()
    ensures Pow2(4) == 16 && Pow2(5) == 32 && Pow2(6) == 64 && Pow2(8) == 256
  {
  }

  /** In every encoding each digit is read back as what it stands for. */
  lemma {:induction false} AllConfigsOk()
    ensures ConfigOk(BASE16) && ConfigOk(BASE16_LOWER) && ConfigOk(BASE32) && ConfigOk(BASE32HEX)
    ensures ConfigOk(BASE64) && ConfigOk(BASE64URL)
  {
    Powers();
  }

  /** Text in either case of base 16 is decoded, whichever of the two configurations is used. */
  lemma {:induction false} EitherCase(x: seq<byte>, room: nat)
    requires |x| <= room
    ensures Decode(BASE16_LOWER, false, Encoded(BASE16, x), room) == Decoded(Fine, x, |Encoded(BASE16, x)|)
  {
    AllConfigsOk();
    RoundTrip(BASE16, false, x, room);
    SameReading(BASE16, BASE16_LOWER, Encoded(BASE16, x), BEGIN, room);
  }

  lemma {:induction false} SameReading(c: Config, d: Config, t: seq<byte>, s: Scan, room: nat)
    requires d == c.(digit := d.digit)
    ensures Read(c, false, t, s, room) == Read(d, false, t, s, room)
    decreases |t|
  {
    if t != [] {
      var r := ReadOne(c, false, t[0], s, room);
      assert r == ReadOne(d, false, t[0], s, room);
      hide ReadOne;
      if r.Go? { SameReading(c, d, t[1..], r.s, room); }
    }
  }

  // ---------------------------------------------------------------- more about groups

  lemma {:induction false} DigitsMore(c: Config, g: seq<nat>, v: nat)
    ensures Digits(c, g + [v]) == Digits(c, g) + [c.digit(v)]
  {
    if g == [] {
      assert g + [v] == [v] && [v][1..] == [];
    } else {
      assert (g + [v])[1..] == g[1..] + [v];
      DigitsMore(c, g[1..], v);
    }
  }

  lemma {:induction false} DigitsSplit(c: Config, a: seq<nat>, b: seq<nat>)
    ensures Digits(c, a + b) == Digits(c, a) + Digits(c, b)
  {
    if a == [] {
      assert a + b == b;
    } else {
      assert (a + b)[1..] == a[1..] + b;
      DigitsSplit(c, a[1..], b);
    }
  }

  lemma {:induction false} ByteBitsSplit(a: seq<byte>, b: seq<byte>)
    ensures ByteBits(a + b) == ByteBits(a) + ByteBits(b)
  {
    if b == [] {
      assert a + b == a;
    } else {
      var c, x := b[..|b| - 1], b[|b| - 1];
      assert a + b == (a + c) + [x] && b == c + [x];
      ByteBitsSplit(a, c);
      ByteBitsMore(a + c, x);
      ByteBitsMore(c, x);
      assert ByteBits(a) + (ByteBits(c) + BitsOf(x, 8)) == (ByteBits(a) + ByteBits(c)) + BitsOf(x, 8);
    }
  }

  lemma {:induction false} FirstByte(x: byte, rest: seq<byte>)
    ensures ByteBits([x] + rest) == BitsOf(x, 8) + ByteBits(rest)
  {
    ByteBitsSplit([x], rest);
    ByteBitsMore([], x);
    assert [] + [x] == [x];
  }

  // ---------------------------------------------------------------- the buffer

  /** The buffer's lowest bits are those that have not been used yet. */
  ghost predicate Holds(buf: nat, left: Bits) {
    buf % Pow2(|left|) == Val(left)
  }

  const WORD: nat := 0x1_0000_0000

  lemma {:induction false} WordIs()
    ensures Pow2(32) == WORD
  {
    PowSum(16, 16);
    PowSum(8, 8);
    Powers();
  }

  /** Shifting bits in at the low end of a 32-bit buffer. */
  lemma {:induction false} ShiftIn(buf: nat, left: Bits, v: nat, w: nat)
    requires Holds(buf, left) && v < Pow2(w) && |left| + w <= 32
    ensures Holds((buf * Pow2(w) + v) % WORD, left + BitsOf(v, w))
  {
    hide Pow2, Val, BitsOf;
    ValOfBits(v, w);
    Appended(buf, left, BitsOf(v, w));
    WordIs();
    CutTo32(buf * Pow2(w) + v, |left| + w);
  }

  /** Taking bits out at the high end. */
  lemma {:induction false} TakeOut(buf: nat, left: Bits, w: nat)
    requires Holds(buf, left) && w <= |left|
    ensures buf / Pow2(|left| - w) % Pow2(w) == Val(left[..w]) && Holds(buf, left[w..])
  {
    assert left == left[..w] + left[w..];
    TopBits(buf, left[..w], left[w..]);
  }

  /** The last bits, filled up with zeros. */
  lemma {:induction false} FillUp(buf: nat, left: Bits, w: nat)
    requires Holds(buf, left) && |left| <= w <= 32
    ensures buf * Pow2(w - |left|) % WORD % Pow2(w) == Val(left + ZeroBits(w - |left|))
  {
    hide Pow2, Val, BitsOf;
    ValZeros(w - |left|);
    Appended(buf, left, ZeroBits(w - |left|));
    WordIs();
    CutTo32(buf * Pow2(w - |left|), w);
  }

  // ---------------------------------------------------------------- encoding

  /** The width of a digit is the shift that gives the size of the alphabet. */
  method FindShift(c: Config) returns (shval: nat)
    requires 0 < c.width < 8
    ensures shval == c.width
  {
    shval := 1;
    while shval < 8 && Pow2(shval) != Pow2(c.width)
      invariant 1 <= shval <= c.width
    {
      PowGrows(shval, c.width);
      shval := shval + 1;
    }
    if shval < c.width { PowGrows(shval, c.width); }
  }

  lemma {:induction false} PowGrows(a: nat, b: nat)
    requires a < b
    ensures Pow2(a) < Pow2(b)
  {
    if a + 1 < b { PowGrows(a, b - 1); }
  }

  /** What has been put out is the text of the first groups, and these are the groups to come. */
  ghost predicate Encoding(c: Config, x: seq<byte>, out: seq<byte>, rest: seq<nat>)
    requires c.width > 0
  {
    exists done: seq<nat> :: Groups(ByteBits(x), c.width) == done + rest && out == Digits(c, done)
  }

  lemma {:induction false} EncodingBegins(c: Config, x: seq<byte>)
    requires c.width > 0
    ensures Encoding(c, x, [], Groups([] + ByteBits(x[0..]), c.width))
  {
    assert [] + ByteBits(x[0..]) == ByteBits(x) by { assert x[0..] == x; }
    assert Groups(ByteBits(x), c.width) == [] + Groups(ByteBits(x), c.width);
    assert Digits(c, []) == [];
  }

  lemma {:induction false} EncodingGoesOn(c: Config, x: seq<byte>, out: seq<byte>, v: nat, rest: seq<nat>)
    requires c.width > 0 && Encoding(c, x, out, [v] + rest)
    ensures Encoding(c, x, out + [c.digit(v)], rest)
  {
    var done: seq<nat> :| Groups(ByteBits(x), c.width) == done + ([v] + rest) && out == Digits(c, done);
    DigitsMore(c, done, v);
    assert done + ([v] + rest) == (done + [v]) + rest;
  }

  /** Text so far is the beginning of the whole text. */
  lemma {:induction false} EncodingIsPrefix(c: Config, x: seq<byte>, out: seq<byte>, rest: seq<nat>)
    requires c.width > 0 && Encoding(c, x, out, rest)
    ensures |Encoded(c, x)| >= |out| + |rest| && Encoded(c, x)[..|out|] == out
    ensures rest == [] ==> Encoded(c, x) == out + Pads(PadCount(c, |out|))
  {
    var done: seq<nat> :| Groups(ByteBits(x), c.width) == done + rest && out == Digits(c, done);
    DigitsSplit(c, done, rest);
    assert rest == [] ==> done + rest == done;
  }

  /** Put out one digit unless there is no room for it and a terminator. */
  method PutDigits(c: Config, ghost x: seq<byte>, text: seq<byte>, room: nat, buf: nat, count: nat, ghost row: Bits,
          ghost after: Bits)
    returns (ok: bool, out: seq<byte>, bits: nat, ghost left: Bits)
    requires 0 < c.width && room > 0 && |text| < room && count == |row| && Holds(buf, row)
    requires Encoding(c, x, text, Groups(row + after, c.width))
    ensures |out| < room && bits == |left| && Holds(buf, left)
    ensures Encoding(c, x, out, Groups(left + after, c.width))
    ensures if ok then bits < c.width else |out| == room - 1 && bits >= c.width
    ensures c.width == 6 ==> 6 * |out| + bits == 6 * |text| + count
  {
    hide Encoding, Groups, Holds, Pow2, Val;
    out, bits, left, ok := text, count, row, true;
    while bits >= c.width && ok
      invariant |out| < room && bits == |left| && Holds(buf, left)
      invariant Encoding(c, x, out, Groups(left + after, c.width))
      invariant !ok ==> |out| == room - 1 && bits >= c.width
      invariant c.width == 6 ==> 6 * |out| + bits == 6 * |text| + count
      decreases bits, ok
    {
      if |out| >= room - 1 {
        ok := false;
      } else {
        TakeOut(buf, left, c.width);
        GroupsNext(left + after, c.width);
        assert (left + after)[..c.width] == left[..c.width] && (left + after)[c.width..] == left[c.width..] + after;
        EncodingGoesOn(c, x, out, Val(left[..c.width]), Groups(left[c.width..] + after, c.width));
        out := out + [c.digit(buf / Pow2(bits - c.width) % Pow2(c.width))];
        bits := bits - c.width;
        left := left[c.width..];
      }
    }
  }

  /**
   * Encode bytes into room for so many characters, one of them for a terminator: fails
   * with as much text as there is room for, if there is not enough.
   */
  method Encode(c: Config, x: seq<byte>, room: nat) returns (ok: bool, out: seq<byte>)
    requires ConfigOk(c)
    ensures ok == (|Encoded(c, x)| < room)
    ensures ok ==> out == Encoded(c, x)
    ensures !ok && room > 0 ==> out == Encoded(c, x)[..room - 1]
  {
    hide Encoding, Groups, Holds, Pow2, Val, ByteBits, BitsOf;
    var shval := FindShift(c);
    if room == 0 {
      return false, [];
    }
    if |x| == 0 {
      NothingEncoded(c, x);
      return true, [];
    }
    var used, bits: nat, buf: nat := 0, 0, 0;
    out := [];
    ghost var left: Bits := [];
    EncodingBegins(c, x);
    HoldsNothing();
    while used < |x|
      invariant used <= |x| && |out| < room && bits == |left| < c.width && Holds(buf, left)
      invariant Encoding(c, x, out, Groups(left + ByteBits(x[used..]), c.width))
      invariant c.width == 6 ==> 6 * |out| + bits == 8 * used
    {
      Powers();
      ShiftIn(buf, left, x[used], 8);
      buf := (buf * Pow2(8) + x[used]) % WORD;
      ghost var row := left + BitsOf(x[used], 8);
      ghost var after := ByteBits(x[used + 1..]);
      FirstByte(x[used], x[used + 1..]);
      assert x[used..] == [x[used]] + x[used + 1..];
      assert left + ByteBits(x[used..]) == row + after;
      used := used + 1;
      bits := bits + 8;
      ok, out, bits, left := PutDigits(c, x, out, room, buf, bits, row, after);
      if !ok {
        NotYetAll(c, x, out, left + after);
        return;
      }
    }
    NoMoreBytes(x, left);
    ok, out := Finish(c, x, out, room, buf, bits, left);
  }

  lemma {:induction false} NothingEncoded(c: Config, x: seq<byte>)
    requires ConfigOk(c) && x == []
    ensures Encoded(c, x) == []
  {
  }

  lemma {:induction false} HoldsNothing()
    ensures Holds(0, [])
  {
  }

  lemma {:induction false} NoMoreBytes(x: seq<byte>, left: Bits)
    ensures left + ByteBits(x[|x|..]) == left
  {
  }

  lemma {:induction false} NotYetAll(c: Config, x: seq<byte>, out: seq<byte>, s: Bits)
    requires c.width > 0 && Encoding(c, x, out, Groups(s, c.width)) && s != []
    ensures |Encoded(c, x)| > |out| && Encoded(c, x)[..|out|] == out
  {
    EncodingIsPrefix(c, x, out, Groups(s, c.width));
  }

  /** Put out the bits that are left, if any, as the high bits of a digit. */
  method PutLeft(c: Config, ghost x: seq<byte>, text: seq<byte>, room: nat, buf: nat, count: nat, ghost left: Bits)
    returns (ok: bool, out: seq<byte>, bits: nat)
    requires ConfigOk(c) && |text| < room && count == |left| < c.width && Holds(buf, left)
    requires Encoding(c, x, text, Groups(left, c.width))
    ensures |out| < room
    ensures if ok then Encoding(c, x, out, []) else |Encoded(c, x)| > |out| == room - 1 && out == Encoded(c, x)[..room - 1]
    ensures ok && count == 0 ==> bits == 0 && |out| == |text|
    ensures ok && count > 0 ==> bits == count + (8 - c.width) && |out| == |text| + 1
  {
    hide Encoding, Groups, Holds, Pow2, Val, Encoded;
    bits := count;
    out := text;
    ok := true;
    GroupsEnd(left, c.width);
    if bits > 0 {
      if |out| >= room - 1 {
        NotYetAll(c, x, out, left);
        ok := false;
      } else {
        FillUp(buf, left, c.width);
        ghost var v := Val(left + ZeroBits(c.width - |left|));
        assert [v] == [v] + [];
        EncodingGoesOn(c, x, out, v, []);
        out := out + [c.digit(buf * Pow2(c.width - bits) % WORD % Pow2(c.width))];
        bits := bits + (8 - c.width);
      }
    }
  }

  /** Put out the last bits, and padding. */
  method Finish(c: Config, ghost x: seq<byte>, text: seq<byte>, room: nat, buf: nat, count: nat, ghost left: Bits)
    returns (ok: bool, out: seq<byte>)
    requires ConfigOk(c) && |text| < room && count == |left| < c.width && Holds(buf, left)
    requires Encoding(c, x, text, Groups(left, c.width)) && (c.width == 6 ==> 6 * |text| + count == 8 * |x|)
    ensures ok == (|Encoded(c, x)| < room)
    ensures ok ==> out == Encoded(c, x)
    ensures !ok ==> out == Encoded(c, x)[..room - 1]
  {
    hide Encoding, Groups, Holds, Encoded;
    var bits;
    ok, out, bits := PutLeft(c, x, text, room, buf, count, left);
    if ok {
      EncodingIsPrefix(c, x, out, []);
      if c.wantPadding {
        LeftPads(|text|, count, |x|);
        ok, out := PutPads(c, out, room, bits);
      } else {
        assert out + Pads(0) == out;
      }
    }
  }

  /** The bits that are left after whole bytes in groups of six. */
  lemma {:induction false} LeftPads(groups: nat, left: nat, bytes: nat)
    requires 6 * groups + left == 8 * bytes && left < 6
    ensures (left == 0 && groups % 4 == 0) || (left == 2 && groups % 4 == 1) || (left == 4 && groups % 4 == 2)
  {
  }

  /** Put out pads until the bits make whole bytes. */
  method PutPads(c: Config, text: seq<byte>, room: nat, count: nat) returns (ok: bool, out: seq<byte>)
    requires c.width == 6 && |text| < room
    requires (count == 0 && |text| % 4 == 0) || (count == 4 && |text| % 4 == 2) || (count == 6 && |text| % 4 == 3)
    ensures var all := text + Pads((4 - |text| % 4) % 4);
            && ok == (|all| < room)
            && (ok ==> out == all) && (!ok ==> out == all[..room - 1])
  {
    out := text;
    var bits := count;
    ok := true;
    ghost var n := (4 - |text| % 4) % 4;
    ghost var k := 0;
    while bits % 8 != 0 && ok
      invariant k <= n && out == text + Pads(k) && |out| < room
      invariant (n - k == 0 && bits % 8 == 0) || (n - k == 1 && bits == 6) || (n - k == 2 && bits == 4)
      invariant !ok ==> k < n && |out| == room - 1
      decreases n - k, ok
    {
      if |out| >= room - 1 {
        ok := false;
      } else {
        out := out + [61];
        bits := bits + 2;
        k := k + 1;
        assert Pads(k) == Pads(k - 1) + [61];
      }
    }
    if !ok {
      assert (text + Pads(n))[..|out|] == out;
    }
  }

  // ---------------------------------------------------------------- decoding

  /** The decoder's variables hold what has been read so far. */
  ghost predicate Tracks(s: Scan, out: seq<byte>, buf: nat, bits: nat, padding: nat, used: nat) {
    s.out == out && bits == |s.left| < 8 && Holds(buf, s.left) && s.padding == padding && s.used == used && !s.full
  }

  lemma {:induction false} ReadNext(c: Config, skip: bool, t: seq<byte>, used: nat, s: Scan, room: nat)
    requires used < |t|
    ensures var r := ReadOne(c, skip, t[used], s, room);
            Read(c, skip, t[used..], s, room) == if r.Stop? then r.s else Read(c, skip, t[used + 1..], r.s, room)
  {
    assert t[used..][0] == t[used] && t[used..][1..] == t[used + 1..];
  }

  /** Reading the whole text comes by the scan s, or ends with it. */
  ghost predicate Reaches(c: Config, skip: bool, t: seq<byte>, room: nat, used: nat, s: Scan, done: bool)
    requires used <= |t|
  {
    if done then s == Read(c, skip, t, BEGIN, room) else Read(c, skip, t[used..], s, room) == Read(c, skip, t, BEGIN, room)
  }

  lemma {:induction false} ReachesNext(c: Config, skip: bool, t: seq<byte>, room: nat, used: nat, s: Scan)
    requires used < |t| && Reaches(c, skip, t, room, used, s, false)
    ensures var r := ReadOne(c, skip, t[used], s, room);
            if r.Stop? then forall u: nat :: u <= |t| ==> Reaches(c, skip, t, room, u, r.s, true)
            else Reaches(c, skip, t, room, used + 1, r.s, false)
  {
    ReadNext(c, skip, t, used, s, room);
  }

  lemma {:induction false} ReadStarts(c: Config, skip: bool, t: seq<byte>, room: nat)
    ensures Reaches(c, skip, t, room, 0, BEGIN, false) && Tracks(BEGIN, [], 0, 0, 0, 0)
  {
    assert t[0..] == t;
  }

  lemma {:induction false} ReadEnds(c: Config, skip: bool, t: seq<byte>, s: Scan, room: nat)
    requires Reaches(c, skip, t, room, |t|, s, false)
    ensures Reaches(c, skip, t, room, |t|, s, true)
  {
    assert t[|t|..] == [];
  }

  /** What decoding ends with. */
  method Conclude(c: Config, bits: nat, padding: nat, full: bool, at: nat, ghost s: Scan)
    returns (outcome: Outcome, used: int)
    requires s.padding == padding && s.used == at && s.full == full && (!full ==> bits == |s.left|)
    ensures Decoded(outcome, s.out, used) == Ended(c, s)
  {
    outcome, used := Fine, at;
    if full {
      outcome := Overflow;
    } else if (bits + padding) % 8 != 0 {
      if c.wantPadding {
        outcome := PaddingMissing;
      } else if padding == 0 && bits >= c.width && bits < 8 {
        used := used - 1;
      }
    }
  }

  /**
   * Decode text into room for so many bytes.  Stops at what is no part of the text; a last
   * digit that adds nothing is not used.
   */
  method DecodeText(c: Config, skip: bool, t: seq<byte>, room: nat) returns (outcome: Outcome, out: seq<byte>, used: int)
    requires ConfigOk(c)
    ensures Decoded(outcome, out, used) == Decode(c, skip, t, room)
  {
    var shval := FindShift(c);
    hide ConfigOk, Holds, Pow2, Val, BitsOf, Read, ReadOne;
    hide Reaches, Ended;
    var bits: nat, padding: nat, buf: nat, at: nat, done, full := 0, 0, 0, 0, false, false;
    out := [];
    ghost var s := BEGIN;
    ReadStarts(c, skip, t, room);
    while !done && at < |t|
      invariant at <= |t| && (full ==> done && s.full)
      invariant !full ==> Tracks(s, out, buf, bits, padding, at)
      invariant s.out == out && s.used == at && s.padding == padding
      invariant Reaches(c, skip, t, room, at, s, done)
      decreases |t| - at, !done
    {
      ReachesNext(c, skip, t, room, at, s);
      match c.classOf(t[at])
      case Digit(v) =>
        if padding > 0 {
          StopsHere(c, skip, t[at], s, room);
          done := true;
        } else {
          done, out, buf, bits, s := TakeDigit(c, skip, t[at], v, out, room, buf, bits, s);
          full := done;
          at := at + 1;
        }
      case _ =>
        done, padding, at, s := TakeOther(c, skip, t[at], out, room, buf, bits, padding, at, s);
    }
    if !done { ReadEnds(c, skip, t, s, room); }
    WholeRead(c, skip, t, room, at, s);
    outcome, used := Conclude(c, bits, padding, full, at, s);
  }

  lemma {:induction false} WholeRead(c: Config, skip: bool, t: seq<byte>, room: nat, used: nat, s: Scan)
    requires used <= |t| && Reaches(c, skip, t, room, used, s, true)
    ensures s == Read(c, skip, t, BEGIN, room)
  {
  }

  /** After padding no digit is read. */
  lemma {:induction false} StopsHere(c: Config, skip: bool, b: byte, s: Scan, room: nat)
    requires c.classOf(b).Digit? && s.padding > 0
    ensures ReadOne(c, skip, b, s, room) == Stop(s)
  {
  }

  /** Pass over whitespace, count padding, or stop. */
  method TakeOther(c: Config, skip: bool, b: byte, ghost out: seq<byte>, ghost room: nat, ghost buf: nat, bits: nat,
          count: nat, at: nat, ghost s: Scan)
    returns (done: bool, padding: nat, used: nat, ghost s': Scan)
    requires !c.classOf(b).Digit? && Tracks(s, out, buf, bits, count, at)
    ensures s' == ReadOne(c, skip, b, s, room).s && done == ReadOne(c, skip, b, s, room).Stop?
    ensures Tracks(s', out, buf, bits, padding, used) && at <= used <= at + 1 && (!done ==> used == at + 1)
  {
    hide Holds, Val, BitsOf, Pow2;
    done, padding, used, s' := false, count, at, s;
    match c.classOf(b)
    case Space =>
      if skip {
        used := used + 1;
        s' := s.(used := used);
      } else {
        done := true;
      }
    case Equals =>
      if c.wantPadding {
        var stop := false;
        if (bits + padding) % 8 != 0 {
          if padding == 0 && bits >= c.width && bits < 8 {
            stop := true;
          } else {
            used := used + 1;
            padding := padding + c.width;
            s' := s.(used := used, padding := padding);
          }
        }
        if stop || (bits + padding) % 8 == 0 {
          done := true;
        }
      } else {
        done := true;
      }
    case _ =>
      done := true;
  }

  /** Shift a digit in, and a byte out once there are eight bits. */
  method TakeDigit(c: Config, ghost skip: bool, ghost b: byte, v: nat, text: seq<byte>, room: nat, buf: nat,
          bits: nat, ghost s: Scan)
    returns (full: bool, out: seq<byte>, buf': nat, bits': nat, ghost s': Scan)
    requires ConfigOk(c) && c.classOf(b) == Digit(v) && s.padding == 0 && Tracks(s, text, buf, bits, 0, s.used)
    ensures s' == ReadOne(c, skip, b, s, room).s && full == ReadOne(c, skip, b, s, room).Stop? == s'.full
    ensures full <==> |s.left| + c.width >= 8 && |s.out| >= room
    ensures out == ReadOne(c, skip, b, s, room).s.out && s'.out == out && s'.used == s.used + 1 && s'.padding == 0
    ensures !full ==> Tracks(s', out, buf', bits', 0, s.used + 1)
  {
    hide Holds, Val, BitsOf, Pow2;
    ghost var left := s.left + BitsOf(v, c.width);
    ShiftIn(buf, s.left, v, c.width);
    bits' := bits + c.width;
    buf' := (buf * Pow2(c.width) + v) % WORD;
    s' := s.(left := left, used := s.used + 1);
    out := text;
    full := false;
    if bits' >= 8 {
      if |out| >= room {
        full := true;
        s' := s'.(full := true);
      } else {
        TakeOut(buf', left, 8);
        Powers();
        out := out + [buf' / Pow2(bits' - 8) % 256];
        s' := s'.(out := out, left := left[8..]);
        bits' := bits' - 8;
      }
    }
  }

  // ---------------------------------------------------------------- hexadecimal

  /** Bytes as hexadecimal text, with no room to be asked for. */
  method Bin2Hex(x: seq<byte>, upper: bool) returns (hex: seq<byte>)
    ensures hex == Encoded(if upper then BASE16 else BASE16_LOWER, x) && |hex| == 2 * |x|
  {
    AllConfigsOk();
    EncodedLength(BASE16, x);
    EncodedLength(BASE16_LOWER, x);
    var ok;
    ok, hex := Encode(if upper then BASE16 else BASE16_LOWER, x, 2 * |x| + 1);
  }

  method Hex2Bin(hex: seq<byte>) returns (x: seq<byte>)
    ensures x == Decode(BASE16_LOWER, false, hex, (|hex| + 1) / 2).out
  {
    AllConfigsOk();
    var outcome, used;
    outcome, x, used := DecodeText(BASE16_LOWER, false, hex, (|hex| + 1) / 2);
  }

  /** Bytes come back from their hexadecimal text, in either case. */
  method HexThereAndBack(x: seq<byte>, upper: bool) returns (y: seq<byte>)
    ensures y == x
  {
    hide Encoded, Decode, ConfigOk;
    var hex := Bin2Hex(x, upper);
    AllConfigsOk();
    EitherCase(x, |x|);
    RoundTrip(BASE16_LOWER, false, x, |x|);
    y := Hex2Bin(hex);
  }

  /** Of "A" nothing is consumed, and of "A " the digit that is worth nothing: the space is given back. */
  lemma {:induction false} SpaceIsGivenBack()
    ensures Decode(BASE16, true, [65], 1) == Decoded(Fine, [], 0)
    ensures Decode(BASE16, true, [65, 32], 1) == Decoded(Fine, [], 1)
  {
    var t: seq<byte> := [65, 32];
    assert t[1..] == [32] && [32][1..] == [] && [65][1..] == [];
    var s := BEGIN.(left := BitsOf(10, 4), used := 1);
    assert ReadOne(BASE16, true, 65, BEGIN, 1) == Go(s);
    assert Read(BASE16, true, [32], s, 1) == s.(used := 2);
  }
}
