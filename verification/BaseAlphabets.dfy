module BaseAlphabets {
  // The alphabets as sections 4 to 8 of RFC 4648 list them, and the characters that are
  // read as their digits.

  import opened Bytes
  import opened BaseSpec
  import opened BaseEncode

  const CAPITALS := "ABCDEFGHIJKLMNOPQRSTUVWXYZ"
  const SMALL := "abcdefghijklmnopqrstuvwxyz"
  const NUMERALS := "0123456789"

  /** A character that stands for a number in an alphabet. */
  predicate Spells(alphabet: string, b: byte, v: nat) {
    v < |alphabet| && alphabet[v] as int == b as int
  }

  /** Digits are written as an alphabet lists them. */
  ghost predicate Writes(c: Config, alphabet: string) {
    forall v: nat {:trigger c.digit(v)} :: v < |alphabet| ==> Spells(alphabet, c.digit(v), v)
  }

  /** Digits, but for some, are read as either of two alphabets lists them; tab, line feed and space are whitespace. */
  ghost predicate Reads(c: Config, alphabet: string, other: string, odd: set<byte>) {
    && (forall b: byte, v: nat {:trigger Spells(alphabet, b, v)} :: b !in odd ==>
          (c.classOf(b) == Digit(v) <==> Spells(alphabet, b, v) || Spells(other, b, v)))
    && (forall b: byte {:trigger c.classOf(b)} :: c.classOf(b) == Space <==> b == 9 || b == 10 || b == 32)
    && (forall b: byte {:trigger c.classOf(b)} :: c.classOf(b) == Equals <==> b == 61)
  }

  lemma {:induction false} SpellsSum(x: string, y: string, b: byte, v: nat)
    ensures Spells(x + y, b, v) <==> Spells(x, b, v) || (v >= |x| && Spells(y, b, v - |x|))
  {
  }

  lemma {:induction false} CapitalsAre(b: byte, v: nat)
    ensures |CAPITALS| == 26 && (Spells(CAPITALS, b, v) <==> v < 26 && b == 65 + v)
  {
  }

  lemma {:induction false} SmallAre(b: byte, v: nat)
    ensures |SMALL| == 26 && (Spells(SMALL, b, v) <==> v < 26 && b == 97 + v)
  {
  }

  lemma {:induction false} Pieces(b: byte, v: nat)
    ensures |CAPITALS| == 26 && (Spells(CAPITALS, b, v) <==> v < 26 && b == 65 + v)
    ensures |SMALL| == 26 && (Spells(SMALL, b, v) <==> v < 26 && b == 97 + v)
    ensures |NUMERALS| == 10 && (Spells(NUMERALS, b, v) <==> v < 10 && b == 48 + v)
  {
    hide CAPITALS, SMALL;
    CapitalsAre(b, v);
    SmallAre(b, v);
  }

  lemma {:induction false} Pieces16(b: byte, v: nat)
    ensures Spells(NUMERALS + CAPITALS[..6], b, v) <==> (v < 10 && b == 48 + v) || (10 <= v < 16 && b == 55 + v)
    ensures Spells(NUMERALS + SMALL[..6], b, v) <==> (v < 10 && b == 48 + v) || (10 <= v < 16 && b == 87 + v)
  {
    hide CAPITALS, SMALL, NUMERALS;
    Pieces(b, v);
    SpellsSum(NUMERALS, CAPITALS[..6], b, v);
    SpellsSum(NUMERALS, SMALL[..6], b, v);
    if v >= 10 { Pieces(b, v - 10); }
  }

  /** Base 16, whose alphabet goes on to F, in either case; a capital P is read as 15 too. */
  lemma {:induction false} Alphabet16()
    ensures |CAPITALS| == |SMALL| == 26
    ensures Writes(BASE16, NUMERALS + CAPITALS[..6]) && Writes(BASE16_LOWER, NUMERALS + SMALL[..6])
    ensures Reads(BASE16, NUMERALS + CAPITALS[..6], NUMERALS + SMALL[..6], {80}) && BASE16.classOf(80) == Digit(15)
    ensures BASE16.width == 4 && !BASE16.wantPadding && BASE16_LOWER == BASE16.(digit := BASE16_LOWER.digit)
  {
    Lengths();
    hide CAPITALS, SMALL, NUMERALS, Spells;
    forall b: byte, v: nat
      ensures Spells(NUMERALS + CAPITALS[..6], b, v) <==> (v < 10 && b == 48 + v) || (10 <= v < 16 && b == 55 + v)
      ensures Spells(NUMERALS + SMALL[..6], b, v) <==> (v < 10 && b == 48 + v) || (10 <= v < 16 && b == 87 + v)
    {
      Pieces16(b, v);
    }
  }

  lemma {:induction false} Pieces32(b: byte, v: nat)
    ensures Spells(CAPITALS + NUMERALS[2..8], b, v) <==> (v < 26 && b == 65 + v) || (26 <= v < 32 && b == 24 + v)
  {
    hide CAPITALS, SMALL, NUMERALS;
    Pieces(b, v);
    SpellsSum(CAPITALS, NUMERALS[2..8], b, v);
    if v >= 26 { Pieces(b, v - 24); }
  }

  /** Base 32: the capitals and the numerals 2 to 7. */
  lemma {:induction false} Alphabet32()
    ensures |NUMERALS| == 10
    ensures Writes(BASE32, CAPITALS + NUMERALS[2..8]) && Reads(BASE32, CAPITALS + NUMERALS[2..8], "", {})
    ensures BASE32.width == 5 && !BASE32.wantPadding
  {
    Lengths();
    NoneSpelled();
    hide CAPITALS, SMALL, NUMERALS, Spells;
    forall b: byte, v: nat
      ensures Spells(CAPITALS + NUMERALS[2..8], b, v) <==> (v < 26 && b == 65 + v) || (26 <= v < 32 && b == 24 + v)
    {
      Pieces32(b, v);
    }
  }

  lemma {:induction false} NoneSpelled()
    ensures forall b: byte, v: nat :: !Spells("", b, v)
  {
  }

  lemma {:induction false} Pieces32Hex(b: byte, v: nat)
    ensures Spells(NUMERALS + CAPITALS[..22], b, v) <==> (v < 10 && b == 48 + v) || (10 <= v < 32 && b == 55 + v)
    ensures Spells(NUMERALS + SMALL[..22], b, v) <==> (v < 10 && b == 48 + v) || (10 <= v < 32 && b == 87 + v)
  {
    hide CAPITALS, SMALL, NUMERALS;
    Pieces(b, v);
    SpellsSum(NUMERALS, CAPITALS[..22], b, v);
    SpellsSum(NUMERALS, SMALL[..22], b, v);
    if v >= 10 { Pieces(b, v - 10); }
  }

  /** Base 32 with the extended hexadecimal alphabet, which goes on to V, read in either case. */
  lemma {:induction false} Alphabet32Hex()
    ensures |CAPITALS| == |SMALL| == 26
    ensures Writes(BASE32HEX, NUMERALS + CAPITALS[..22])
    ensures Reads(BASE32HEX, NUMERALS + CAPITALS[..22], NUMERALS + SMALL[..22], {})
    ensures BASE32HEX.width == 5 && !BASE32HEX.wantPadding
  {
    Lengths();
    hide CAPITALS, SMALL, NUMERALS, Spells;
    forall b: byte, v: nat
      ensures Spells(NUMERALS + CAPITALS[..22], b, v) <==> (v < 10 && b == 48 + v) || (10 <= v < 32 && b == 55 + v)
      ensures Spells(NUMERALS + SMALL[..22], b, v) <==> (v < 10 && b == 48 + v) || (10 <= v < 32 && b == 87 + v)
    {
      Pieces32Hex(b, v);
    }
  }

  lemma {:induction false} Pieces64(end: string, b: byte, v: nat)
    requires |end| == 2
    ensures Spells(CAPITALS + SMALL + NUMERALS + end, b, v) <==>
              (v < 26 && b == 65 + v) || (26 <= v < 52 && b == 71 + v) || (52 <= v < 62 && b == v - 4)
              || (v == 62 && b as int == end[0] as int) || (v == 63 && b as int == end[1] as int)
  {
    hide CAPITALS, SMALL, NUMERALS;
    Pieces(b, v);
    SpellsSum(CAPITALS + SMALL + NUMERALS, end, b, v);
    SpellsSum(CAPITALS + SMALL, NUMERALS, b, v);
    SpellsSum(CAPITALS, SMALL, b, v);
    if v >= 26 { Pieces(b, v - 26); }
    if v >= 52 { Pieces(b, v - 52); }
  }

  lemma {:induction false} Alphabet64()
    ensures Writes(BASE64, CAPITALS + SMALL + NUMERALS + "+/")
    ensures Reads(BASE64, CAPITALS + SMALL + NUMERALS + "+/", "", {}) && BASE64.width == 6 && BASE64.wantPadding
  {
    NoneSpelled();
    Lengths();
    hide CAPITALS, SMALL, NUMERALS, Spells;
    forall b: byte, v: nat
      ensures Spells(CAPITALS + SMALL + NUMERALS + "+/", b, v) <==>
                (v < 26 && b == 65 + v) || (26 <= v < 52 && b == 71 + v) || (52 <= v < 62 && b == v - 4)
                || (v == 62 && b == 43) || (v == 63 && b == 47)
    {
      Pieces64("+/", b, v);
    }
  }

  /** Base 64 with the alphabet for URLs and file names, which is not padded. */
  lemma {:induction false} Alphabet64Url()
    ensures Writes(BASE64URL, CAPITALS + SMALL + NUMERALS + "-_")
    ensures Reads(BASE64URL, CAPITALS + SMALL + NUMERALS + "-_", "", {}) && BASE64URL.width == 6 && !BASE64URL.wantPadding
  {
    NoneSpelled();
    Lengths();
    hide CAPITALS, SMALL, NUMERALS, Spells;
    forall b: byte, v: nat
      ensures Spells(CAPITALS + SMALL + NUMERALS + "-_", b, v) <==>
                (v < 26 && b == 65 + v) || (26 <= v < 52 && b == 71 + v) || (52 <= v < 62 && b == v - 4)
                || (v == 62 && b == 45) || (v == 63 && b == 95)
    {
      Pieces64("-_", b, v);
    }
  }

  lemma {:induction false} Lengths()
    ensures |CAPITALS| == |SMALL| == 26 && |NUMERALS| == 10
  {
  }
}
