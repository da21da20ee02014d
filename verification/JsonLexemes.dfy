module JsonLexemes {
  // The strings, numbers and words of JSON text as sections 3, 6 and 7 of RFC 8259 spell
  // them, written down without the parser: what each form looks like and what it means.
  // The parser takes exactly these, and gives their meaning.

  import opened Bytes
  import opened SxeUnicode
  import opened JsonText
  import opened JsonPrint

  // ---------------------------------------------------------------- strings

  /** A hexadecimal digit in either case. */
  datatype Hex = Hex(v: nat, capital: bool)

  /** A character as it is, one that is escaped with a letter, or one given by its code. */
  datatype Piece = Plain(b: byte) | Short(letter: char) | Code(h: seq<Hex>)

  /** What a letter behind a backslash stands for. */
  const SHORT: map<char, byte> :=
    map['\"' := 0x22, '\\' := 0x5c, '/' := 0x2f, 'b' := 0x08, 'f' := 0x0c, 'n' := 0x0a, 'r' := 0x0d, 't' := 0x09]

  function HexChar(h: Hex): (c: byte)
    requires h.v < 16
  {
    var c := (if h.capital then "0123456789ABCDEF" else "0123456789abcdef")[h.v];
    assert c < 'g';
    c as int
  }

  predicate PieceOk(x: Piece) {
    match x
    case Plain(b) => b as char !in "\0\"\\"
    case Short(letter) => letter in SHORT
    case Code(h) => |h| == 4 && forall i :: 0 <= i < 4 ==> h[i].v < 16
  }

  function PieceText(x: Piece): (s: Text)
    requires PieceOk(x)
    ensures |s| > 0
  {
    match x
    case Plain(b) => [b]
    case Short(letter) => ['\\' as int, letter as int]
    case Code(h) => ['\\' as int, 'u' as int, HexChar(h[0]), HexChar(h[1]), HexChar(h[2]), HexChar(h[3])]
  }

  /** The bytes that a piece stands for: a code stands for its character's UTF-8. */
  function PieceMeans(x: Piece): Text
    requires PieceOk(x)
  {
    match x
    case Plain(b) => [b]
    case Short(letter) => [SHORT[letter]]
    case Code(h) => Utf8(0x1000 * h[0].v + 0x100 * h[1].v + 0x10 * h[2].v + h[3].v)
  }

  predicate PiecesOk(ps: seq<Piece>) {
    forall i :: 0 <= i < |ps| ==> PieceOk(ps[i])
  }

  function PiecesText(ps: seq<Piece>): Text
    requires PiecesOk(ps)
  {
    if ps == [] then [] else PieceText(ps[0]) + PiecesText(ps[1..])
  }

  function PiecesMean(ps: seq<Piece>): Text
    requires PiecesOk(ps)
  {
    if ps == [] then [] else PieceMeans(ps[0]) + PiecesMean(ps[1..])
  }

  /** At a backslash where no escape is found. */
  ghost predicate NoEscape(t: Text, q: nat) {
    Char(t, q) == 92 && forall x {:trigger PieceText(x)} :: PieceOk(x) ==> !Found(t, q, PieceText(x))
  }

  lemma {:induction false} HexCharBack(h: Hex)
    requires h.v < 16
    ensures HexDigit(HexChar(h)) == h.v
  {
  }

  lemma {:induction false} HexCharOf(c: byte)
    requires HexDigit(c) < 16
    ensures HexChar(Hex(HexDigit(c), 65 <= c <= 70)) == c
  {
  }

  lemma {:induction false} HexOfFour(t: Text, p: nat)
    ensures IsHex4(t, p) <==> HexDigit(Char(t, p)) < 16 && HexDigit(Char(t, p + 1)) < 16
                              && HexDigit(Char(t, p + 2)) < 16 && HexDigit(Char(t, p + 3)) < 16
    ensures IsHex4(t, p) ==>
              Hex4(t, p) == 0x1000 * HexDigit(Char(t, p)) + 0x100 * HexDigit(Char(t, p + 1))
                            + 0x10 * HexDigit(Char(t, p + 2)) + HexDigit(Char(t, p + 3))
  {
    hide HexDigit;
    assert IsHex(t, p, 1) <==> HexDigit(Char(t, p + 0)) < 16;
    assert IsHex(t, p, 2) <==> IsHex(t, p, 1) && HexDigit(Char(t, p + 1)) < 16;
    assert IsHex(t, p, 3) <==> IsHex(t, p, 2) && HexDigit(Char(t, p + 2)) < 16;
    if IsHex4(t, p) {
      assert HexValue(t, p, 1) == HexDigit(Char(t, p + 0));
      assert HexValue(t, p, 2) == HexValue(t, p, 1) * 16 + HexDigit(Char(t, p + 1));
      assert HexValue(t, p, 3) == HexValue(t, p, 2) * 16 + HexDigit(Char(t, p + 2));
    }
  }

  lemma {:induction false} ShortIs(letter: char)
    requires letter in SHORT
    ensures (letter as int) < 256 && letter != 'u' && Escaped(letter as int) == SHORT[letter] != 0
  {
  }

  lemma {:induction false} ShortOf(c: byte)
    ensures c as char in SHORT <==> Escaped(c) != 0
  {
  }

  /** A piece of a string is taken for what it means. */
  lemma {:induction false} PieceParses(t: Text, p: nat, x: Piece)
    requires PieceOk(x) && Found(t, p, PieceText(x))
    ensures p < |t| && t[p] != 34 && OneChar(t, p) == Ok(PieceMeans(x), p + |PieceText(x)|)
  {
    hide HexChar, SHORT, IsHex4, Hex4, Escaped, Utf8, HexDigit;
    var s := PieceText(x);
    FoundChars(t, p, s);
    assert Char(t, p + 0) == s[0];
    match x {
      case Plain(b) =>
      case Short(letter) =>
        assert Char(t, p + 1) == s[1];
        ShortIs(letter);
      case Code(h) =>
        assert Char(t, p + 1) == s[1] && Char(t, p + 2) == s[2] && Char(t, p + 3) == s[3] && Char(t, p + 4) == s[4] && Char(t, p + 5) == s[5];
        forall i | 0 <= i < 4 ensures HexDigit(HexChar(h[i])) == h[i].v { HexCharBack(h[i]); }
        HexOfFour(t, p + 2);
    }
  }

  lemma {:induction false} FoundSlice(t: Text, p: nat, q: nat, s: Text)
    requires p <= q <= |t| && t[p..q] == s
    ensures Found(t, p, s) && q == p + |s|
  {
  }

  /** What is taken for one character is a piece. */
  lemma {:induction false} PieceIs(t: Text, p: nat) returns (x: Piece)
    requires p < |t| && t[p] != 34 && OneChar(t, p).Ok?
    ensures PieceOk(x) && Found(t, p, PieceText(x))
  {
    hide HexChar, SHORT, Escaped, Utf8, HexDigit, Hex4, IsHex4;
    if t[p] != 92 {
      x := Plain(t[p]);
      FoundSlice(t, p, p + 1, [t[p]]);
    } else if Char(t, p + 1) == 117 {
      HexOfFour(t, p + 2);
      var a, b, c, d := Char(t, p + 2), Char(t, p + 3), Char(t, p + 4), Char(t, p + 5);
      HexCharOf(a);
      HexCharOf(b);
      HexCharOf(c);
      HexCharOf(d);
      NoHexAtEnd(t, p + 5);
      x := Code([Hex(HexDigit(a), 65 <= a <= 70), Hex(HexDigit(b), 65 <= b <= 70), Hex(HexDigit(c), 65 <= c <= 70),
                 Hex(HexDigit(d), 65 <= d <= 70)]);
      assert t[p..p + 6] == [92, 117, a, b, c, d];
      FoundSlice(t, p, p + 6, PieceText(x));
    } else {
      ShortOf(t[p + 1]);
      x := Short(t[p + 1] as char);
      assert t[p..p + 2] == [92, t[p + 1]];
      FoundSlice(t, p, p + 2, PieceText(x));
    }
  }

  lemma {:induction false} NoHexAtEnd(t: Text, p: nat)
    requires HexDigit(Char(t, p)) < 16
    ensures p < |t|
  {
  }

  /** Characters go wrong where the text ends and where a backslash starts no escape. */
  lemma {:induction false} CharErrors(t: Text, p: nat)
    requires p < |t| && t[p] != 34
    ensures Char(t, p) == 0 <==> OneChar(t, p) == Err(Invalid)
    ensures NoEscape(t, p) <==> OneChar(t, p) == Err(IllegalSequence)
  {
    hide PieceText, PieceOk, IsHex4, Hex4, Escaped, Utf8;
    if OneChar(t, p).Ok? {
      var x := PieceIs(t, p);
    }
    if Char(t, p) == 92 && OneChar(t, p).Err? {
      forall x | PieceOk(x) ensures !Found(t, p, PieceText(x)) {
        if Found(t, p, PieceText(x)) { PieceParses(t, p, x); }
      }
    }
  }

  /** A string goes on behind its pieces. */
  lemma {:induction false} PiecesParse(t: Text, p: nat, ps: seq<Piece>)
    requires PiecesOk(ps) && p <= |t| && Found(t, p, PiecesText(ps))
    ensures var q := p + |PiecesText(ps)|;
            q <= |t| && ParseString(t, p) == match ParseString(t, q) {
              case Err(e) => Err(e)
              case Ok(rest, r) => Ok(PiecesMean(ps) + rest, r)
            }
    decreases |ps|
  {
    hide PieceText, PieceOk, OneChar, PieceMeans;
    if ps != [] {
      var a, b := PieceText(ps[0]), PiecesText(ps[1..]);
      FoundParts(t, p, a, b);
      PieceParses(t, p, ps[0]);
      PiecesParse(t, p + |a|, ps[1..]);
      var q := p + |PiecesText(ps)|;
      if ParseString(t, q).Ok? {
        var rest := ParseString(t, q).v;
        assert PieceMeans(ps[0]) + (PiecesMean(ps[1..]) + rest) == PieceMeans(ps[0]) + PiecesMean(ps[1..]) + rest;
      }
    } else {
      match ParseString(t, p) {
        case Err(_) =>
        case Ok(rest, _) => assert PiecesMean(ps) + rest == rest;
      }
    }
  }

  /**
   * Behind the opening quote and pieces, of all forms and mixed as they may be, a quote
   * ends the string, which is what the pieces mean; the end of the text and a backslash
   * that starts no escape are errors.
   */
  lemma {:induction false} StringOutcome(t: Text, p: nat, ps: seq<Piece>)
    requires PiecesOk(ps) && p <= |t| && Found(t, p, PiecesText(ps))
    ensures var q := p + |PiecesText(ps)|;
            && (Char(t, q) == 34 ==> ParseString(t, p) == Ok(PiecesMean(ps), q + 1))
            && (Char(t, q) == 0 ==> ParseString(t, p) == Err(Invalid))
            && (NoEscape(t, q) ==> ParseString(t, p) == Err(IllegalSequence))
  {
    hide NoEscape, PieceText, PieceOk, OneChar, PieceMeans;
    PiecesParse(t, p, ps);
    var q := p + |PiecesText(ps)|;
    if NoEscape(t, q) { AtEnd(t, q); }
    if q < |t| && t[q] != 34 { CharErrors(t, q); }
    assert PiecesMean(ps) + [] == PiecesMean(ps);
  }

  lemma {:induction false} AtEnd(t: Text, q: nat)
    requires NoEscape(t, q)
    ensures q < |t| && t[q] != 34 && t[q] != 0
  {
  }

  /** From any place on there are pieces, and one of these three behind them. */
  lemma {:induction false} StringCases(t: Text, p: nat) returns (ps: seq<Piece>)
    requires p <= |t|
    ensures PiecesOk(ps) && Found(t, p, PiecesText(ps))
    ensures var q := p + |PiecesText(ps)|; Char(t, q) == 34 || Char(t, q) == 0 || NoEscape(t, q)
    decreases |t| - p
  {
    hide PieceText, PieceOk, OneChar, NoEscape;
    ps := [];
    if p < |t| && t[p] != 34 {
      CharErrors(t, p);
      if OneChar(t, p).Ok? {
        var x := PieceIs(t, p);
        PieceParses(t, p, x);
        var q := p + |PieceText(x)|;
        var rest := StringCases(t, q);
        ps := [x] + rest;
        assert ps[1..] == rest;
        FoundBoth(t, p, PieceText(x), PiecesText(rest));
      } else {
        OneError(t, p);
      }
    }
  }

  lemma {:induction false} OneError(t: Text, p: nat)
    requires p < |t| && OneChar(t, p).Err?
    ensures OneChar(t, p) == Err(Invalid) || OneChar(t, p) == Err(IllegalSequence)
  {
    hide Escaped, IsHex4;
  }

  lemma {:induction false} FoundBoth(t: Text, p: nat, a: Text, b: Text)
    requires Found(t, p, a) && Found(t, p + |a|, b)
    ensures Found(t, p, a + b)
  {
  }

  // ---------------------------------------------------------------- numbers and words

  /** An exponent: its letter, its sign if it has one, and its digits. */
  datatype Power = NoPower | Power(capital: bool, sign: Text, digits: Text)

  /** A word, a number in its parts, or a string. */
  datatype Lexeme = Word(s: string) | Number(minus: bool, whole: Text, fraction: Text, power: Power) | Quoted(ps: seq<Piece>)

  predicate Numerals(s: Text) {
    forall i :: 0 <= i < |s| ==> '0' as int <= s[i] <= '9' as int
  }

  predicate LexemeOk(x: Lexeme) {
    match x
    case Word(s) => s == "null" || s == "true" || s == "false"
    case Number(_, whole, fraction, power) =>
      && Numerals(whole) && whole != [] && Numerals(fraction)
      && (power.Power? ==> Numerals(power.digits) && power.digits != [] && power.sign in {[], ['+' as int], ['-' as int]})
    case Quoted(ps) => PiecesOk(ps)
  }

  /** A string of ASCII characters as bytes. */
  function Ascii(s: string): Text
    requires forall i :: 0 <= i < |s| ==> s[i] < '\U{80}'
  {
    seq(|s|, i requires 0 <= i < |s| => s[i] as int)
  }

  function FractionText(fraction: Text): Text {
    if fraction == [] then [] else ['.' as int] + fraction
  }

  function PowerText(power: Power): Text {
    if power.NoPower? then [] else [(if power.capital then 'E' else 'e') as int] + power.sign + power.digits
  }

  function NumberText(x: Lexeme): Text
    requires x.Number?
  {
    (if x.minus then ['-' as int] else []) + x.whole + FractionText(x.fraction) + PowerText(x.power)
  }

  function LexemeText(x: Lexeme): Text
    requires LexemeOk(x)
  {
    match x
    case Word(s) => Ascii(s)
    case Number(_, _, _, _) => NumberText(x)
    case Quoted(ps) => ['\"' as int] + (PiecesText(ps) + ['\"' as int])
  }

  function TenTo(n: nat): nat { if n == 0 then 1 else 10 * TenTo(n - 1) }

  function DecimalValue(s: Text): nat
    requires Numerals(s)
  {
    if s == [] then 0 else (s[0] - 48) * TenTo(|s| - 1) + DecimalValue(s[1..])
  }

  /** A number of digits only is an integer, cut to the largest of 64 bits; one of any other form is kept as a double. */
  function LexemeMeans(x: Lexeme): Value
    requires LexemeOk(x)
  {
    match x
    case Word(s) => if s == "null" then Null else Bool(s == "true")
    case Number(minus, whole, fraction, power) =>
      if minus || fraction != [] || power.Power? then Dbl(NumberText(x))
      else if DecimalValue(whole) < 18446744073709551615 then Num(DecimalValue(whole)) else Num(18446744073709551615)
    case Quoted(ps) => Str(PiecesMean(ps))
  }

  lemma {:induction false} DecimalLast(s: Text)
    requires Numerals(s) && s != []
    ensures DecimalValue(s) == DecimalValue(s[..|s| - 1]) * 10 + s[|s| - 1] - 48
  {
    if |s| > 1 {
      var r := s[1..];
      DecimalLast(r);
      assert r[..|r| - 1] == s[..|s| - 1][1..];
      var a, k := s[0] - 48, TenTo(|s| - 2);
      assert a * (10 * k) == 10 * (a * k);
    }
  }

  lemma {:induction false} DecimalIs(s: Text)
    requires Numerals(s)
    ensures AllDigits(s) && Decimal(s) == DecimalValue(s)
  {
    if s != [] {
      DecimalIs(s[..|s| - 1]);
      DecimalLast(s);
    }
  }

  lemma {:induction false} NumeralsFound(t: Text, p: nat, s: Text)
    requires p <= |t| && Numerals(s) && Found(t, p, s) && !IsDigit(Char(t, p + |s|))
    ensures p + |s| <= |t| && SkipDigits(t, p) == p + |s|
  {
    FoundChars(t, p, s);
    forall i | p <= i < p + |s| ensures IsDigit(t[i]) { assert Char(t, p + (i - p)) == s[i - p]; }
    SkipsDigits(t, p, p + |s|);
  }

  lemma {:induction false} FirstNumeral(t: Text, p: nat, s: Text)
    requires Numerals(s) && s != [] && Found(t, p, s)
    ensures p < |t| && IsDigit(Char(t, p))
  {
    FoundChars(t, p, s);
    assert Char(t, p + 0) == s[0];
  }

  lemma {:induction false} FractionParses(t: Text, p: nat, fraction: Text)
    requires p <= |t| && Numerals(fraction) && Found(t, p, FractionText(fraction))
    requires var c := Char(t, p + |FractionText(fraction)|); !IsDigit(c) && c != 46
    ensures SkipFraction(t, p) == Ok(fraction != [], p + |FractionText(fraction)|)
  {
    hide SkipDigits;
    if fraction != [] {
      FoundParts(t, p, [46], fraction);
      FoundOne(t, p, 46);
      FirstNumeral(t, p + 1, fraction);
      NumeralsFound(t, p + 1, fraction);
    }
  }

  lemma {:induction false} ExponentIs(t: Text, p: nat, sign: Text)
    requires p < |t| && (t[p] == 69 || t[p] == 101) && sign in {[], [43], [45]}
    requires sign != [] ==> Char(t, p + 1) == sign[0]
    requires p + 1 + |sign| <= |t| && IsDigit(Char(t, p + 1 + |sign|))
    ensures SkipExponent(t, p) == Ok(true, SkipDigits(t, p + 1 + |sign|))
  {
    hide SkipDigits;
  }

  lemma {:induction false} NoExponentIs(t: Text, p: nat)
    requires p <= |t| && !IsIdent(Char(t, p))
    ensures SkipExponent(t, p) == Ok(false, p) && !IsDigit(Char(t, p))
  {
    hide SkipDigits;
  }

  lemma {:induction false} PowerParses(t: Text, p: nat, x: Lexeme)
    requires p <= |t| && LexemeOk(x) && x.Number? && Found(t, p, PowerText(x.power))
    requires !IsIdent(Char(t, p + |PowerText(x.power)|))
    ensures SkipExponent(t, p) == Ok(x.power.Power?, p + |PowerText(x.power)|)
  {
    hide SkipDigits, SkipExponent, IsIdent, IsDigit, Found, Numerals;
    FoundWithin(t, p, PowerText(x.power));
    NoExponentIs(t, p + |PowerText(x.power)|);
    if x.power.Power? {
      var a, sign, digits := if x.power.capital then 69 else 101, x.power.sign, x.power.digits;
      FoundThree(t, p, [a], sign, digits);
      FoundOne(t, p, a);
      if sign != [] { FoundOne(t, p + 1, sign[0]); }
      FirstNumeral(t, p + 1 + |sign|, digits);
      NumeralsFound(t, p + 1 + |sign|, digits);
      ExponentIs(t, p, sign);
    }
  }

  /** What may follow a number that has a part of these left to come. */
  lemma {:induction false} PartFollows(t: Text, p: nat, x: Lexeme)
    requires p <= |t| && LexemeOk(x) && x.Number? && Found(t, p, FractionText(x.fraction) + PowerText(x.power))
    requires !IsIdent(Char(t, p + |FractionText(x.fraction) + PowerText(x.power)|))
    ensures !IsDigit(Char(t, p))
    ensures var c := Char(t, p + |FractionText(x.fraction)|); !IsDigit(c) && c != 46
  {
    FoundParts(t, p, FractionText(x.fraction), PowerText(x.power));
    if x.fraction != [] {
      FoundParts(t, p, [46], x.fraction);
      FoundOne(t, p, 46);
    }
    if x.power.Power? {
      var a := if x.power.capital then 69 else 101;
      var f := p + |FractionText(x.fraction)|;
      FoundThree(t, f, [a], x.power.sign, x.power.digits);
      FoundOne(t, f, a);
    }
  }

  /** Where the parts of a number end, and what it is then. */
  ghost predicate Parts(t: Text, p: nat, minus: bool, fraction: bool, power: bool, q: nat) {
    && p < |t| && q <= |t| && (minus <==> t[p] == 45)
    && var first := if minus then p + 1 else p;
    && IsDigit(Char(t, first))
    && var digits := SkipDigits(t, first);
    && SkipFraction(t, digits).Ok? && SkipFraction(t, digits).v == fraction
    && SkipExponent(t, SkipFraction(t, digits).q) == Ok(power, q)
  }

  lemma {:induction false} PartsAre(t: Text, p: nat, minus: bool, fraction: bool, power: bool, q: nat)
    requires Parts(t, p, minus, fraction, power, q)
    ensures minus || fraction || power ==> p < q && ParseNumber(t, p) == Ok(Dbl(t[p..q]), q)
    ensures !minus && !fraction && !power ==>
              p < q && AllDigits(t[p..q]) && ParseNumber(t, p) == Ok(Num(Saturated(Decimal(t[p..q]))), q)
  {
    hide SkipDigits, Decimal, Saturated;
  }

  lemma {:induction false} NumberHasParts(t: Text, p: nat, x: Lexeme)
    requires p <= |t| && LexemeOk(x) && x.Number? && Found(t, p, NumberText(x)) && !IsIdent(Char(t, p + |NumberText(x)|))
    ensures Parts(t, p, x.minus, x.fraction != [], x.power.Power?, p + |NumberText(x)|)
  {
    hide SkipDigits, SkipFraction, SkipExponent, FractionText, PowerText, IsIdent, IsDigit, Found, Numerals, Parts;
    var m := if x.minus then [45] else [];
    var rest := FractionText(x.fraction) + PowerText(x.power);
    assert NumberText(x) == m + x.whole + rest;
    FoundThree(t, p, m, x.whole, rest);
    if x.minus { FoundOne(t, p, 45); }
    var a := p + |m|;
    var b := a + |x.whole|;
    FirstNumeral(t, a, x.whole);
    NoMinus(Char(t, a));
    assert |NumberText(x)| == |m| + |x.whole| + |rest|;
    PartFollows(t, b, x);
    NumeralsFound(t, a, x.whole);
    FoundParts(t, b, FractionText(x.fraction), PowerText(x.power));
    FractionParses(t, b, x.fraction);
    PowerParses(t, b + |FractionText(x.fraction)|, x);
    FoundWithin(t, p, NumberText(x));
    PartsMade(t, p, x.minus, x.fraction != [], b + |FractionText(x.fraction)|, x.power.Power?, p + |NumberText(x)|);
  }

  lemma {:induction false} FoundWithin(t: Text, p: nat, s: Text)
    requires Found(t, p, s)
    ensures p + |s| <= |t|
  {
  }

  lemma {:induction false} PartsMade(t: Text, p: nat, minus: bool, fraction: bool, f: nat, power: bool, q: nat)
    requires p < |t| && q <= |t| && (minus <==> Char(t, p) == 45)
    requires var first := if minus then p + 1 else p;
             first <= |t| && IsDigit(Char(t, first)) && SkipFraction(t, SkipDigits(t, first)) == Ok(fraction, f)
    requires f <= |t| && SkipExponent(t, f) == Ok(power, q)
    ensures Parts(t, p, minus, fraction, power, q)
  {
    hide SkipDigits, SkipFraction, SkipExponent, IsDigit;
  }

  lemma {:induction false} NoMinus(c: byte)
    requires IsDigit(c)
    ensures c != 45
  {
  }

  lemma {:induction false} NumberParsed(t: Text, p: nat, x: Lexeme)
    requires p <= |t| && LexemeOk(x) && x.Number? && Found(t, p, NumberText(x)) && !IsIdent(Char(t, p + |NumberText(x)|))
    ensures p < |t| && (t[p] == 45 || IsDigit(t[p]))
    ensures ParseNumber(t, p) == Ok(LexemeMeans(x), p + |NumberText(x)|)
  {
    hide Parts, ParseNumber, NumberText;
    var q := p + |NumberText(x)|;
    NumberHasParts(t, p, x);
    assert t[p..q] == NumberText(x);
    NumberMeans(t, p, x, q);
    NumberStarts(t, p, x.minus, x.fraction != [], x.power.Power?, q);
  }

  lemma {:induction false} NumberStarts(t: Text, p: nat, minus: bool, fraction: bool, power: bool, q: nat)
    requires Parts(t, p, minus, fraction, power, q)
    ensures p < |t| && (t[p] == 45 || IsDigit(t[p]))
  {
  }

  lemma {:induction false} NoParts(x: Lexeme)
    requires x.Number? && !x.minus && x.fraction == [] && x.power.NoPower?
    ensures NumberText(x) == x.whole
  {
  }

  /** What is taken for a number is one. */
  lemma {:induction false} NumberIs(t: Text, p: nat) returns (x: Lexeme)
    requires p < |t| && ParseNumber(t, p).Ok?
    ensures x.Number? && LexemeOk(x) && Found(t, p, NumberText(x)) && ParseNumber(t, p) == Ok(LexemeMeans(x), p + |NumberText(x)|)
  {
    hide SkipDigits, Decimal, DecimalValue, IsDigit, SkipFraction, SkipExponent, ParseNumber, Parts, Numerals, FractionText, PowerText;
    var minus, first, digits, f, q := NumberPlaces(t, p);
    NumeralsSlice(t, first, digits);
    var fraction := FractionIs(t, digits);
    var power := PowerIs(t, f);
    x := Number(minus, t[first..digits], fraction, power);
    PartsAre(t, p, minus, fraction != [], power.Power?, q);
    SliceThree(t, p, first, digits, f);
    SliceTwo(t, p, f, q);
    assert t[p..first] == if minus then [45] else [];
    assert t[p..q] == NumberText(x);
    FoundSlice(t, p, q, NumberText(x));
    NumberMeans(t, p, x, q);
  }

  /** Where the parts of what is taken for a number are. */
  lemma {:induction false} NumberPlaces(t: Text, p: nat) returns (minus: bool, first: nat, digits: nat, f: nat, q: nat)
    requires p < |t| && ParseNumber(t, p).Ok?
    ensures p <= first < digits <= f <= q <= |t| && minus == (t[p] == 45) && first == (if minus then p + 1 else p)
    ensures (forall i :: first <= i < digits ==> IsDigit(t[i]))
    ensures SkipFraction(t, digits).Ok? && SkipFraction(t, digits).q == f
    ensures SkipExponent(t, f).Ok? && SkipExponent(t, f).q == q
    ensures Parts(t, p, minus, SkipFraction(t, digits).v, SkipExponent(t, f).v, q)
  {
    hide SkipDigits, SkipFraction, SkipExponent, Decimal;
    minus := t[p] == 45;
    first := if minus then p + 1 else p;
    digits := SkipDigits(t, first);
    f := SkipFraction(t, digits).q;
    q := SkipExponent(t, f).q;
    assert digits != first;
  }

  lemma {:induction false} NumberMeans(t: Text, p: nat, x: Lexeme, q: nat)
    requires x.Number? && LexemeOk(x) && Parts(t, p, x.minus, x.fraction != [], x.power.Power?, q)
    requires p <= q <= |t| && t[p..q] == NumberText(x)
    ensures ParseNumber(t, p) == Ok(LexemeMeans(x), q)
  {
    hide Parts, ParseNumber, Decimal, DecimalValue, NumberText;
    PartsAre(t, p, x.minus, x.fraction != [], x.power.Power?, q);
    DecimalIs(x.whole);
    if !(x.minus || x.fraction != [] || x.power.Power?) { NoParts(x); }
  }

  lemma {:induction false} SliceTwo(t: Text, p: nat, q: nat, r: nat)
    requires p <= q <= r <= |t|
    ensures t[p..r] == t[p..q] + t[q..r]
  {
  }

  lemma {:induction false} SliceThree(t: Text, p: nat, q: nat, r: nat, s: nat)
    requires p <= q <= r <= s <= |t|
    ensures t[p..s] == t[p..q] + t[q..r] + t[r..s]
  {
  }

  lemma {:induction false} NumeralsSlice(t: Text, p: nat, q: nat)
    requires p <= q <= |t| && forall i :: p <= i < q ==> IsDigit(t[i])
    ensures Numerals(t[p..q])
  {
  }

  lemma {:induction false} FractionIs(t: Text, p: nat) returns (fraction: Text)
    requires p <= |t| && SkipFraction(t, p).Ok?
    ensures Numerals(fraction) && t[p..SkipFraction(t, p).q] == FractionText(fraction)
    ensures SkipFraction(t, p).v <==> fraction != []
  {
    hide SkipDigits;
    var r := SkipFraction(t, p);
    fraction := [];
    if r.v {
      fraction := t[p + 1..r.q];
      NumeralsSlice(t, p + 1, r.q);
      SliceTwo(t, p, p + 1, r.q);
      assert t[p..p + 1] == [46];
      assert r.q != p + 1;
    }
  }

  lemma {:induction false} PowerIs(t: Text, p: nat) returns (power: Power)
    requires p <= |t| && SkipExponent(t, p).Ok?
    ensures t[p..SkipExponent(t, p).q] == PowerText(power) && (SkipExponent(t, p).v <==> power.Power?)
    ensures power.Power? ==> Numerals(power.digits) && power.digits != [] && power.sign in {[], ['+' as int], ['-' as int]}
  {
    hide SkipDigits;
    var r := SkipExponent(t, p);
    power := NoPower;
    if r.v {
      var s := if Char(t, p + 1) == 45 || Char(t, p + 1) == 43 then p + 2 else p + 1;
      power := Power(t[p] == 69, t[p + 1..s], t[s..r.q]);
      NumeralsSlice(t, s, r.q);
      SliceThree(t, p, p + 1, s, r.q);
      assert t[p..p + 1] == [t[p]];
      assert s == p + 2 ==> t[p + 1..s] == [t[p + 1]];
      assert r.q != s;
    }
  }

  lemma {:induction false} Words()
    ensures Ascii("null") == NULL_TEXT && Ascii("true") == TRUE_TEXT && Ascii("false") == FALSE_TEXT
  {
  }

  lemma {:induction false} WordStarts(t: Text, p: nat, s: Text)
    requires s == NULL_TEXT || s == TRUE_TEXT || s == FALSE_TEXT
    requires p <= |t| && Found(t, p, s) && !IsIdent(Char(t, p + |s|))
    ensures p < |t| && IsAlpha(t[p]) && SkipIdent(t, p) == p + |s| && t[p..p + |s|] == s
  {
    var q := p + |s|;
    FoundChars(t, p, s);
    assert Char(t, p + 0) == s[0];
    forall i | 0 <= i < |s| ensures IsIdent(s[i]) { }
    forall i | p <= i < q ensures IsIdent(t[i]) { assert Char(t, p + (i - p)) == s[i - p]; }
    SkipsIdent(t, p, q);
  }

  lemma {:induction false} WordParsed(t: Text, p: nat, x: Lexeme)
    requires p <= |t| && LexemeOk(x) && x.Word? && Found(t, p, LexemeText(x)) && !IsIdent(Char(t, p + |LexemeText(x)|))
    ensures p < |t| && IsAlpha(t[p]) && ParseConstant(t, p) == Ok(LexemeMeans(x), p + |LexemeText(x)|)
  {
    hide SkipIdent, IsIdent, IsAlpha, Found, Ascii;
    Words();
    WordStarts(t, p, LexemeText(x));
  }

  lemma {:induction false} WordIs(t: Text, p: nat) returns (x: Lexeme)
    requires p < |t| && IsAlpha(t[p]) && ParseConstant(t, p).Ok?
    ensures x.Word? && LexemeOk(x) && Found(t, p, LexemeText(x))
    ensures ParseConstant(t, p) == Ok(LexemeMeans(x), p + |LexemeText(x)|)
  {
    hide SkipIdent, IsIdent, Ascii;
    Words();
    match ParseConstant(t, p).v {
      case Null => x := Word("null");
      case Bool(b) => x := if b then Word("true") else Word("false");
    }
    FoundSlice(t, p, ParseConstant(t, p).q, LexemeText(x));
  }

  lemma {:induction false} QuotedParsed(t: Text, p: nat, ps: seq<Piece>)
    requires PiecesOk(ps) && p <= |t| && Found(t, p, LexemeText(Quoted(ps)))
    ensures p < |t| && t[p] == 34 && ParseString(t, p + 1) == Ok(PiecesMean(ps), p + |LexemeText(Quoted(ps))|)
  {
    hide PiecesOk, PiecesText, PiecesMean, Found, ParseString;
    FoundParts(t, p, [34], PiecesText(ps) + [34]);
    FoundOne(t, p, 34);
    FoundParts(t, p + 1, PiecesText(ps), [34]);
    FoundOne(t, p + 1 + |PiecesText(ps)|, 34);
    StringOutcome(t, p + 1, ps);
  }

  lemma {:induction false} QuoteFound(t: Text, p: nat)
    requires Char(t, p) == 34
    ensures Found(t, p, [34])
  {
  }

  lemma {:induction false} QuotedLooks(t: Text, p: nat, ps: seq<Piece>)
    requires PiecesOk(ps) && Char(t, p) == 34 && Found(t, p + 1, PiecesText(ps)) && Char(t, p + 1 + |PiecesText(ps)|) == 34
    ensures Found(t, p, LexemeText(Quoted(ps))) && |LexemeText(Quoted(ps))| == |PiecesText(ps)| + 2
  {
    hide PiecesOk, PiecesText, Found;
    QuoteFound(t, p);
    QuoteFound(t, p + 1 + |PiecesText(ps)|);
    FoundBoth(t, p + 1, PiecesText(ps), [34]);
    FoundBoth(t, p, [34], PiecesText(ps) + [34]);
  }

  lemma {:induction false} QuotedIs(t: Text, p: nat) returns (ps: seq<Piece>)
    requires p < |t| && t[p] == 34 && ParseString(t, p + 1).Ok?
    ensures PiecesOk(ps) && Found(t, p, LexemeText(Quoted(ps)))
    ensures ParseString(t, p + 1) == Ok(PiecesMean(ps), p + |LexemeText(Quoted(ps))|)
  {
    hide PiecesOk, PiecesText, PiecesMean, ParseString, Found, NoEscape, LexemeText;
    ps := StringCases(t, p + 1);
    StringOutcome(t, p + 1, ps);
    QuotedLooks(t, p, ps);
  }

  /** A value may be followed by anything but letters, digits, an underscore and a point. */
  ghost predicate EndsAt(t: Text, q: nat) {
    var c := Char(t, q) as char;
    !('a' <= c <= 'z' || 'A' <= c <= 'Z' || '0' <= c <= '9' || c == '_' || c == '.')
  }

  lemma {:induction false} EndsIdent(t: Text, q: nat)
    ensures EndsAt(t, q) <==> !IsIdent(Char(t, q))
  {
  }

  lemma {:induction false} LexemeParses(t: Text, p: nat, x: Lexeme)
    requires p <= |t| && LexemeOk(x) && Found(t, p, LexemeText(x)) && EndsAt(t, p + |LexemeText(x)|)
    ensures ParseValue(t, p) == Ok(LexemeMeans(x), p + |LexemeText(x)|)
  {
    hide ParseNumber, ParseString, ParseConstant, ParseMembers, ParseElements, EndsAt, IsIdent, Found, LexemeText, LexemeMeans;
    EndsIdent(t, p + |LexemeText(x)|);
    match x {
      case Word(_) => WordParsed(t, p, x);
      case Number(_, _, _, _) => NumberLexeme(x); NumberParsed(t, p, x);
      case Quoted(ps) => QuotedParsed(t, p, ps); MeansString(ps);
    }
    SkipsNone(t, p);
  }

  lemma {:induction false} NumberLexeme(x: Lexeme)
    requires LexemeOk(x) && x.Number?
    ensures LexemeText(x) == NumberText(x)
  {
  }

  lemma {:induction false} MeansString(ps: seq<Piece>)
    requires PiecesOk(ps)
    ensures LexemeOk(Quoted(ps)) && LexemeMeans(Quoted(ps)) == Str(PiecesMean(ps))
  {
  }

  lemma {:induction false} LexemeIs(t: Text, p: nat) returns (x: Lexeme)
    requires p <= |t| && !IsSpace(Char(t, p)) && ParseValue(t, p).Ok? && !ParseValue(t, p).v.Arr? && !ParseValue(t, p).v.Obj?
    ensures LexemeOk(x) && Found(t, p, LexemeText(x)) && ParseValue(t, p) == Ok(LexemeMeans(x), p + |LexemeText(x)|)
  {
    hide ParseNumber, ParseString, ParseConstant, ParseMembers, ParseElements, IsIdent, Found, LexemeText, LexemeMeans, LexemeOk, PiecesOk;
    SkipsNone(t, p);
    var c := Char(t, p);
    if c == 34 {
      var ps := QuotedIs(t, p);
      MeansString(ps);
      x := Quoted(ps);
    } else if c == 45 || IsDigit(c) {
      x := NumberIs(t, p);
      NumberLexeme(x);
    } else {
      x := WordIs(t, p);
    }
  }
}
