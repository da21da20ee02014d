module BaseNumbers {
  // Encoding in terms of numbers: bytes are the digits of a number to base 256, and their
  // text has the digits of the same number to base 16, 32 or 64, high digit first, with
  // zeros shifted in to fill the last one.

  import opened Bytes
  import opened BaseBits
  import opened BaseSpec

  /** The number whose digits these are, high digit first. */
  function Number(digits: seq<nat>, base: nat): nat {
    if digits == [] then 0 else Number(digits[..|digits| - 1], base) * base + digits[|digits| - 1]
  }

  lemma {:induction false} UngroupLast(g: seq<nat>, w: nat)
    requires g != []
    ensures Ungroup(g, w) == Ungroup(g[..|g| - 1], w) + BitsOf(g[|g| - 1], w)
    decreases |g|
  {
    hide BitsOf;
    if |g| == 1 {
      assert g[1..] == [] && g[..0] == [];
    } else {
      UngroupLast(g[1..], w);
      assert g[1..][..|g| - 2] == g[..|g| - 1][1..];
    }
  }

  lemma {:induction false} GroupsNumber(g: seq<nat>, w: nat)
    requires forall i :: 0 <= i < |g| ==> g[i] < Pow2(w)
    ensures Number(g, Pow2(w)) == Val(Ungroup(g, w))
    decreases |g|
  {
    hide Pow2, Val, BitsOf;
    if g == [] {
      ValZeros(0);
      assert ZeroBits(0) == Ungroup(g, w);
    } else {
      var h, v := g[..|g| - 1], g[|g| - 1];
      GroupsNumber(h, w);
      UngroupLast(g, w);
      ValSplit(Ungroup(h, w), BitsOf(v, w));
      ValOfBits(v, w);
    }
  }

  lemma {:induction false} BytesNumber(x: seq<byte>)
    ensures Number(x, 256) == Val(ByteBits(x))
  {
    hide Pow2, Val, BitsOf;
    if x == [] {
      ValZeros(0);
      assert ZeroBits(0) == ByteBits(x);
    } else {
      var y, b := x[..|x| - 1], x[|x| - 1];
      BytesNumber(y);
      assert x == y + [b];
      ByteBitsMore(y, b);
      ValSplit(ByteBits(y), BitsOf(b, 8));
      Pow8();
      ValOfBits(b, 8);
    }
  }

  lemma {:induction false} Pow8()
    ensures Pow2(8) == 256
  {
  }

  /**
   * A text is the digits, in this order and with pads behind them, of the number that the
   * bytes stand for, times the power of two that fills up the last digit.
   */
  lemma {:induction false} EncodedIsNumber(c: Config, x: seq<byte>) returns (digits: seq<nat>, fill: nat)
    requires ConfigOk(c)
    ensures forall i :: 0 <= i < |digits| ==> digits[i] < Pow2(c.width)
    ensures fill < c.width && c.width * |digits| == 8 * |x| + fill
    ensures Number(digits, Pow2(c.width)) == Number(x, 256) * Pow2(fill)
    ensures |digits| <= |Encoded(c, x)|
    ensures forall i :: 0 <= i < |Encoded(c, x)| ==>
              Encoded(c, x)[i] == if i < |digits| then c.digit(digits[i]) else 61
  {
    hide Pow2, Val, Groups, Ungroup, ByteBits, Filled;
    digits := Groups(ByteBits(x), c.width);
    fill := Filled(8 * |x|, c.width);
    GroupCount(ByteBits(x), c.width);
    UngroupGroups(ByteBits(x), c.width);
    GroupsNumber(digits, c.width);
    BytesNumber(x);
    ValSplit(ByteBits(x), ZeroBits(fill));
    ValZeros(fill);
    DigitsAt(c, digits);
  }

  lemma {:induction false} DigitsAt(c: Config, g: seq<nat>)
    ensures forall i :: 0 <= i < |g| ==> Digits(c, g)[i] == c.digit(g[i])
  {
    if g != [] { DigitsAt(c, g[1..]); }
  }
}
