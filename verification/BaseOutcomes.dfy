module BaseOutcomes {
  // How decoding ends, told by counting characters: how far a text is read, when it is
  // too long for the room there is, when padding is missing, and which bytes come out.

  import opened Bytes
  import opened BaseBits
  import opened BaseSpec

  // ---------------------------------------------------------------- counting

  /** What the digits among the first n characters stand for. */
  function Values(c: Config, t: seq<byte>, n: nat): (g: seq<nat>)
    requires n <= |t|
  {
    if n == 0 then [] else
    Values(c, t, n - 1) + match c.classOf(t[n - 1]) { case Digit(v) => [v] case _ => [] }
  }

  /** How many bits the first n characters stand for, and how many with those of the pads. */
  function DigitBits(c: Config, t: seq<byte>, n: nat): nat
    requires n <= |t|
  {
    c.width * |Values(c, t, n)|
  }

  function PadChars(c: Config, t: seq<byte>, n: nat): nat
    requires n <= |t|
  {
    if n == 0 then 0 else PadChars(c, t, n - 1) + if c.classOf(t[n - 1]).Equals? then 1 else 0
  }

  /** The digits and pads among the first n characters make whole bytes. */
  predicate Whole(c: Config, t: seq<byte>, n: nat)
    requires n <= |t|
  {
    (DigitBits(c, t, n) + c.width * PadChars(c, t, n)) % 8 == 0
  }

  /**
   * Whether the character behind the first n is read: whitespace in skip mode only, digits
   * only before pads, and a pad only where one is missing to make whole bytes, but not
   * behind a digit that adds nothing to a byte.  Pads that make whole bytes end the text.
   */
  predicate MayRead(c: Config, skip: bool, t: seq<byte>, n: nat)
    requires n < |t|
  {
    var pads := PadChars(c, t, n);
    && !(pads > 0 && Whole(c, t, n))
    && match c.classOf(t[n]) {
         case Space => skip
         case Digit(_) => pads == 0
         case Equals => c.wantPadding && !Whole(c, t, n) && !(pads == 0 && DigitBits(c, t, n) % 8 >= c.width)
         case Invalid => false
       }
  }

  /** There is no room for a byte that the first n characters stand for. */
  predicate TooMany(c: Config, t: seq<byte>, n: nat, room: nat)
    requires n <= |t|
  {
    DigitBits(c, t, n) / 8 > room
  }

  /** Reading stops behind the first n characters, and not before. */
  ghost predicate StopsBehind(c: Config, skip: bool, t: seq<byte>, room: nat, n: nat) {
    && n <= |t|
    && (forall i {:trigger MayRead(c, skip, t, i)} :: 0 <= i < n ==> MayRead(c, skip, t, i) && !TooMany(c, t, i, room))
    && (n == |t| || TooMany(c, t, n, room) || !MayRead(c, skip, t, n))
  }

  lemma {:induction false} StopsOnce(c: Config, skip: bool, t: seq<byte>, room: nat, m: nat, n: nat)
    requires StopsBehind(c, skip, t, room, m) && StopsBehind(c, skip, t, room, n)
    ensures m == n && n <= |t|
  {
    var a, b := m < |t| && MayRead(c, skip, t, m), n < |t| && MayRead(c, skip, t, n);
  }

  // ---------------------------------------------------------------- reading as counted

  /** A scan that has read the first n characters, and has had room for their bytes. */
  ghost predicate HasRead(c: Config, t: seq<byte>, n: nat, s: Scan, room: nat)
    requires n <= |t|
  {
    && s.used == n && !s.full && |s.left| < 8 && |s.out| <= room
    && Stream(s) == Ungroup(Values(c, t, n), c.width)
    && s.padding == c.width * PadChars(c, t, n)
  }

  lemma {:induction false} UngroupMore(g: seq<nat>, v: nat, w: nat)
    ensures Ungroup(g + [v], w) == Ungroup(g, w) + BitsOf(v, w)
  {
    if g == [] {
      UngroupFirst(v, [], w);
      assert [v] + [] == [v] && [] + [v] == [v];
    } else {
      UngroupMore(g[1..], v, w);
      UngroupFirst(g[0], g[1..], w);
      UngroupFirst(g[0], g[1..] + [v], w);
      assert [g[0]] + g[1..] == g && [g[0]] + (g[1..] + [v]) == g + [v];
    }
  }

  lemma {:induction false} Leftover(a: nat, b: nat)
    requires b < 8
    ensures (8 * a + b) % 8 == b && (8 * a + b) / 8 == a
  {
  }

  lemma {:induction false} LeftoverMod(a: nat, b: nat, p: nat)
    ensures (8 * a + b + p) % 8 == (b + p) % 8
  {
  }

  /** What is left over and what has come out, in numbers. */
  lemma {:induction false} LeftAndOut(c: Config, t: seq<byte>, n: nat, s: Scan, room: nat)
    requires n <= |t| && HasRead(c, t, n, s, room)
    ensures |s.left| == DigitBits(c, t, n) % 8 && |s.out| == DigitBits(c, t, n) / 8
    ensures Whole(c, t, n) <==> (|s.left| + s.padding) % 8 == 0
    ensures !TooMany(c, t, n, room)
  {
    hide ByteBits, Ungroup, Values;
    assert |Stream(s)| == 8 * |s.out| + |s.left|;
    Leftover(|s.out|, |s.left|);
    LeftoverMod(|s.out|, |s.left|, s.padding);
  }

  lemma {:induction false} ReadSpace(c: Config, skip: bool, t: seq<byte>, n: nat, s: Scan, room: nat)
    requires n < |t| && HasRead(c, t, n, s, room) && c.classOf(t[n]) == Space && skip
    ensures var s' := s.(used := s.used + 1);
            ReadOne(c, skip, t[n], s, room) == Go(s') && HasRead(c, t, n + 1, s', room)
  {
    assert Values(c, t, n + 1) == Values(c, t, n);
  }

  lemma {:induction false} ReadPad(c: Config, skip: bool, t: seq<byte>, n: nat, s: Scan, room: nat)
    requires ConfigOk(c) && n < |t| && HasRead(c, t, n, s, room) && c.classOf(t[n]) == Equals && MayRead(c, skip, t, n)
    ensures var s' := s.(padding := s.padding + c.width, used := s.used + 1);
            && HasRead(c, t, n + 1, s', room)
            && ReadOne(c, skip, t[n], s, room) == if Whole(c, t, n + 1) then Stop(s') else Go(s')
  {
    hide ConfigOk, Ungroup;
    LeftAndOut(c, t, n, s, room);
    assert Values(c, t, n + 1) == Values(c, t, n);
    Dist(PadChars(c, t, n), 1, c.width);
    PadPositive(c, t, n);
    LeftAndOut(c, t, n + 1, s.(padding := s.padding + c.width, used := s.used + 1), room);
  }

  lemma {:induction false} PadPositive(c: Config, t: seq<byte>, n: nat)
    requires ConfigOk(c) && n <= |t|
    ensures c.width * PadChars(c, t, n) == 0 <==> PadChars(c, t, n) == 0
  {
  }

  lemma {:induction false} ReadValue(c: Config, skip: bool, t: seq<byte>, n: nat, s: Scan, room: nat)
    requires ConfigOk(c) && n < |t| && HasRead(c, t, n, s, room) && c.classOf(t[n]).Digit? && MayRead(c, skip, t, n)
    ensures var r := ReadOne(c, skip, t[n], s, room);
            if TooMany(c, t, n + 1, room) then
              r.Stop? && r.s.full && r.s.used == n + 1 && r.s.out == s.out && |s.out| == room
              && ByteBits(s.out) <= Ungroup(Values(c, t, n + 1), c.width)
            else r.Go? && HasRead(c, t, n + 1, r.s, room)
  {
    hide ConfigOk, Ungroup, Values, BitsOf, ByteBits;
    var v := c.classOf(t[n]).v;
    var more := BitsOf(v, c.width);
    var left := s.left + more;
    PadPositive(c, t, n);
    ValuesMore(c, t, n);
    UngroupMore(Values(c, t, n), v, c.width);
    WidthFits(c);
    assert |Stream(s)| == 8 * |s.out| + |s.left|;
    assert DigitBits(c, t, n + 1) == 8 * |s.out| + |left|;
    if |left| >= 8 {
      ByteTaken(s, more);
      Leftover(|s.out| + 1, |left| - 8);
      assert ByteBits(s.out) <= Stream(s) + more;
    } else {
      Leftover(|s.out|, |left|);
      assert ByteBits(s.out) + left == Stream(s) + more;
    }
  }

  lemma {:induction false} WidthFits(c: Config)
    requires ConfigOk(c)
    ensures 0 < c.width < 8
  {
  }

  lemma {:induction false} ValuesMore(c: Config, t: seq<byte>, n: nat)
    requires n < |t| && c.classOf(t[n]).Digit?
    ensures Values(c, t, n + 1) == Values(c, t, n) + [c.classOf(t[n]).v]
    ensures PadChars(c, t, n + 1) == PadChars(c, t, n)
  {
  }

  /** What may not be read stops reading. */
  lemma {:induction false} ReadStops(c: Config, skip: bool, t: seq<byte>, n: nat, s: Scan, room: nat)
    requires ConfigOk(c) && n < |t| && HasRead(c, t, n, s, room) && !MayRead(c, skip, t, n)
    requires PadChars(c, t, n) > 0 ==> !Whole(c, t, n)
    ensures ReadOne(c, skip, t[n], s, room) == Stop(s)
  {
    hide ConfigOk, Ungroup, Values, Stream;
    LeftAndOut(c, t, n, s, room);
    PadPositive(c, t, n);
  }

  /** How a scan looks when reading has stopped. */
  ghost predicate HasStopped(c: Config, skip: bool, t: seq<byte>, s: Scan, room: nat) {
    && StopsBehind(c, skip, t, room, s.used)
    && (if s.full then TooMany(c, t, s.used, room) && |s.out| == room && ByteBits(s.out) <= Ungroup(Values(c, t, s.used), c.width)
        else HasRead(c, t, s.used, s, room))
  }

  lemma {:induction false} ReadOn(c: Config, skip: bool, t: seq<byte>, n: nat, s: Scan, room: nat)
    requires ConfigOk(c) && n <= |t| && HasRead(c, t, n, s, room)
    requires forall i {:trigger MayRead(c, skip, t, i)} :: 0 <= i < n ==> MayRead(c, skip, t, i) && !TooMany(c, t, i, room)
    requires PadChars(c, t, n) > 0 ==> !Whole(c, t, n)
    ensures HasStopped(c, skip, t, Read(c, skip, t[n..], s, room), room)
    decreases |t| - n
  {
    hide ConfigOk, HasRead, ReadOne, MayRead, TooMany, Whole;
    if n == |t| {
      ReadAll(c, t, n, s, room);
    } else {
      assert t[n..][0] == t[n] && t[n..][1..] == t[n + 1..];
      LeftAndOut(c, t, n, s, room);
      if MayRead(c, skip, t, n) {
        NextRead(c, skip, t, n, s, room);
        var r := ReadOne(c, skip, t[n], s, room);
        if r.Go? {
          ReadOn(c, skip, t, n + 1, r.s, room);
        } else if !r.s.full {
          StoppedWhole(c, skip, t, n + 1, r.s, room);
        }
      } else {
        ReadStops(c, skip, t, n, s, room);
        ReadAll(c, t, n, s, room);
      }
    }
  }

  lemma {:induction false} ReadAll(c: Config, t: seq<byte>, n: nat, s: Scan, room: nat)
    requires n <= |t| && HasRead(c, t, n, s, room)
    ensures s.used == n && !s.full
  {
  }

  lemma {:induction false} StoppedWhole(c: Config, skip: bool, t: seq<byte>, n: nat, s: Scan, room: nat)
    requires n <= |t| && HasRead(c, t, n, s, room) && PadChars(c, t, n) > 0 && Whole(c, t, n)
    ensures s.used == n && (n < |t| ==> !MayRead(c, skip, t, n))
  {
  }

  /** One character that may be read. */
  lemma {:induction false} NextRead(c: Config, skip: bool, t: seq<byte>, n: nat, s: Scan, room: nat)
    requires ConfigOk(c) && n < |t| && HasRead(c, t, n, s, room) && MayRead(c, skip, t, n)
    ensures var r := ReadOne(c, skip, t[n], s, room);
            && (r.Go? ==> HasRead(c, t, n + 1, r.s, room) && !(PadChars(c, t, n + 1) > 0 && Whole(c, t, n + 1)))
            && (r.Stop? && !r.s.full ==> HasRead(c, t, n + 1, r.s, room) && PadChars(c, t, n + 1) > 0 && Whole(c, t, n + 1))
            && (r.Stop? && r.s.full ==> r.s.used == n + 1 && TooMany(c, t, n + 1, room) && |r.s.out| == room
                                        && ByteBits(r.s.out) <= Ungroup(Values(c, t, n + 1), c.width))
  {
    hide ConfigOk, HasRead, ReadOne, TooMany, Ungroup;
    match c.classOf(t[n]) {
      case Space =>
        ReadSpace(c, skip, t, n, s, room);
        assert Values(c, t, n + 1) == Values(c, t, n);
        ReadAll(c, t, n + 1, s.(used := s.used + 1), room);
      case Equals =>
        ReadPad(c, skip, t, n, s, room);
        ReadAll(c, t, n + 1, s.(padding := s.padding + c.width, used := s.used + 1), room);
      case Digit(v) =>
        ReadValue(c, skip, t, n, s, room);
        if !TooMany(c, t, n + 1, room) { ReadAll(c, t, n + 1, ReadOne(c, skip, t[n], s, room).s, room); }
      case Invalid =>
    }
  }

  lemma {:induction false} ReadFromBegin(c: Config, skip: bool, t: seq<byte>, room: nat)
    requires ConfigOk(c)
    ensures HasStopped(c, skip, t, Read(c, skip, t, BEGIN, room), room)
  {
    hide ConfigOk, Read, HasStopped;
    BeginReads(c);
    assert Values(c, t, 0) == [] && Ungroup([], c.width) == [];
    assert t[0..] == t;
    ReadOn(c, skip, t, 0, BEGIN, room);
  }

  // ---------------------------------------------------------------- how decoding ends

  /**
   * With n the number of characters that are read: decoding overflows if and only if
   * their digits make more bytes than there is room for, and then it has put out as many
   * as there is room for.  Otherwise padding is missing if and only if the encoding is
   * padded and digits and pads do not make whole bytes.  The bytes are those of the bits
   * of the digits, and all n characters are used, but for one when a digit adds nothing.
   */
  lemma {:induction false} DecodesAsCounted(c: Config, skip: bool, t: seq<byte>, room: nat, n: nat)
    requires ConfigOk(c) && StopsBehind(c, skip, t, room, n)
    ensures var d := Decode(c, skip, t, room);
            var bits := c.width * |Values(c, t, n)|;
            && (d.outcome == Overflow <==> bits / 8 > room)
            && (d.outcome == PaddingMissing <==>
                  bits / 8 <= room && c.wantPadding && (bits + c.width * PadChars(c, t, n)) % 8 != 0)
            && |d.out| == (if bits / 8 > room then room else bits / 8)
            && ByteBits(d.out) <= Ungroup(Values(c, t, n), c.width)
            && d.used == if bits / 8 <= room && !c.wantPadding && bits % 8 >= c.width then n - 1 else n
  {
    hide StopsBehind, Read, Ungroup, Values;
    var s := Read(c, skip, t, BEGIN, room);
    ReadFromBegin(c, skip, t, room);
    StopsOnce(c, skip, t, room, s.used, n);
    if !s.full {
      LeftAndOut(c, t, n, s, room);
      assert ByteBits(s.out) <= Stream(s);
      PadPositive(c, t, n);
      if !c.wantPadding { NoPads(c, skip, t, room, n); }
    }
  }

  /** Without padding no pads are read, and what is left over are the bits that make no byte. */
  lemma {:induction false} NoPads(c: Config, skip: bool, t: seq<byte>, room: nat, n: nat)
    requires StopsBehind(c, skip, t, room, n) && !c.wantPadding
    ensures PadChars(c, t, n) == 0
  {
    if n > 0 {
      NoPadsBefore(c, skip, t, room, n, n);
    }
  }

  lemma {:induction false} NoPadsBefore(c: Config, skip: bool, t: seq<byte>, room: nat, n: nat, i: nat)
    requires StopsBehind(c, skip, t, room, n) && !c.wantPadding && i <= n
    ensures PadChars(c, t, i) == 0
  {
    if i > 0 {
      assert MayRead(c, skip, t, i - 1);
      NoPadsBefore(c, skip, t, room, n, i - 1);
    }
  }

  /** How far a text is read. */
  lemma {:induction false} StopsSomewhere(c: Config, skip: bool, t: seq<byte>, room: nat) returns (n: nat)
    requires ConfigOk(c)
    ensures StopsBehind(c, skip, t, room, n)
  {
    ReadFromBegin(c, skip, t, room);
    n := Read(c, skip, t, BEGIN, room).used;
  }

  // ---------------------------------------------------------------- texts that are cut off

  lemma {:induction false} ReadUpTo(c: Config, skip: bool, t: seq<byte>, i: nat, s: Scan, room: nat)
    requires i < |t| && (c.classOf(t[i]).Invalid? || (c.classOf(t[i]).Space? && !skip))
    ensures Read(c, skip, t, s, room) == Read(c, skip, t[..i], s, room)
    decreases |t|
  {
    if i > 0 {
      hide ReadOne;
      var r := ReadOne(c, skip, t[0], s, room);
      assert t[..i][0] == t[0] && t[..i][1..] == t[1..][..i - 1];
      if r.Go? { ReadUpTo(c, skip, t[1..], i - 1, r.s, room); }
    }
  }

  /** Outside skip mode nothing from the first whitespace on matters, and in no mode anything from a character of no kind on. */
  lemma {:induction false} NothingBehind(c: Config, skip: bool, t: seq<byte>, i: nat, room: nat)
    requires i < |t| && (c.classOf(t[i]).Invalid? || (c.classOf(t[i]).Space? && !skip))
    ensures Decode(c, skip, t, room) == Decode(c, skip, t[..i], room)
  {
    ReadUpTo(c, skip, t, i, BEGIN, room);
  }

  lemma {:induction false} PadsByThree(n: nat, k: nat, e: nat)
    requires 6 * k == 8 * n + e && e < 6
    ensures (4 - k % 4) % 4 == (3 - n % 3) % 3
  {
    Length6(n, k, e);
    var q, r := n / 3, n % 3;
    assert n == 3 * q + r && k == 4 * q + (if r == 0 then 0 else r + 1);
  }

  /** Too few pads behind digits that leave bits over. */
  lemma {:induction false} FewPads(c: Config, skip: bool, s: Scan, n: nat, room: nat)
    requires ConfigOk(c) && c.wantPadding && Reading(s) && n < |s.left| / 2
    requires |s.left| == 2 || |s.left| == 4
    ensures var r := Read(c, skip, Pads(n), s, room);
            r.out == s.out && r.used == s.used + n && !r.full && (|r.left| + r.padding) % 8 != 0
  {
    var t := Pads(n);
    if n > 0 {
      assert t[0] == 61 && t[1..] == Pads(0);
    }
  }

  /** What bytes were encoded as with padding, with one or more of its pads cut off: all bytes come out, and padding is missing. */
  lemma {:induction false} CutPads(c: Config, skip: bool, x: seq<byte>, k: nat, room: nat)
    requires ConfigOk(c) && c.wantPadding && |x| <= room && 1 <= k <= (3 - |x| % 3) % 3
    ensures k <= |Encoded(c, x)|
    ensures Decode(c, skip, Encoded(c, x)[..|Encoded(c, x)| - k], room) == Decoded(PaddingMissing, x, |Encoded(c, x)| - k)
  {
    hide Groups, Filled, Pow2, BitsOf, ByteBits, Read, Pads, Ended;
    var g := Groups(ByteBits(x), c.width);
    var e := Filled(8 * |x|, c.width);
    UngroupGroups(ByteBits(x), c.width);
    GroupCount(ByteBits(x), c.width);
    BeginReads(c);
    assert (8 * |x| + e) / 8 == |x|;
    PadCountIs(c, x);
    PadsByThree(|x|, |g|, e);
    var n := PadCount(c, |g|);
    CutText(c, g, n, k);
    var s := ReadDigits(c, skip, g, Pads(n - k), BEGIN, room);
    StreamBytes(s, x, e);
    FewPads(c, skip, s, n - k, room);
    EndsUnpadded(c, Read(c, skip, Pads(n - k), s, room));
  }

  lemma {:induction false} CutText(c: Config, g: seq<nat>, n: nat, k: nat)
    requires k <= n
    ensures (Digits(c, g) + Pads(n))[..|g| + n - k] == Digits(c, g) + Pads(n - k)
  {
  }

  lemma {:induction false} EndsUnpadded(c: Config, s: Scan)
    requires c.wantPadding && !s.full && (|s.left| + s.padding) % 8 != 0
    ensures Ended(c, s) == Decoded(PaddingMissing, s.out, s.used)
  {
  }
}
