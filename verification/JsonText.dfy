// JSON values and their text: what the parser makes of a text, and the text that is
// printed for a value.
module JsonText {
  import opened Bytes
  import opened SxeUnicode

  type Text = seq<byte>

  /**
   * Num is an unsigned 64-bit integer.  A number of any other form is kept as its text,
   * which stands for the double that it is converted to.
   */
  datatype Value =
    | Null
    | Bool(b: bool)
    | Num(n: nat)
    | Dbl(text: Text)
    | Str(s: Text)
    | Arr(es: seq<Value>)
    | Obj(ms: seq<Member>)

  datatype Member = Member(name: Text, value: Value)

  datatype Error = NoData | Invalid | IllegalSequence

  /** What was parsed and the position after it. */
  datatype Parsed<T> = Ok(v: T, q: nat) | Err(e: Error)

  const UINT64: nat := 0x1_0000_0000_0000_0000

  // ---------------------------------------------------------------- characters

  /** The character at a position; 0 at the end. */
  function Char(t: Text, p: nat): byte {
    if p < |t| then t[p] else 0
  }

  predicate IsSpace(c: byte) { 9 <= c <= 13 || c == 32 }
  predicate IsDigit(c: byte) { 48 <= c <= 57 }
  predicate IsAlpha(c: byte) { 65 <= c <= 90 || 97 <= c <= 122 || c == 95 }
  predicate IsIdent(c: byte) { IsAlpha(c) || IsDigit(c) || c == 46 }

  function SkipSpace(t: Text, p: nat): (q: nat)
    requires p <= |t|
    ensures p <= q <= |t| && !IsSpace(Char(t, q))
    ensures forall i :: p <= i < q ==> IsSpace(t[i])
    decreases |t| - p
  {
    if IsSpace(Char(t, p)) then SkipSpace(t, p + 1) else p
  }

  /** At a character that is no space nothing is skipped. */
  lemma {:induction false} SkipsNone(t: Text, p: nat)
    requires p <= |t| && !IsSpace(Char(t, p))
    ensures SkipSpace(t, p) == p
  {
  }

  function SkipDigits(t: Text, p: nat): (q: nat)
    requires p <= |t|
    ensures p <= q <= |t| && !IsDigit(Char(t, q))
    ensures forall i :: p <= i < q ==> IsDigit(t[i])
    decreases |t| - p
  {
    if IsDigit(Char(t, p)) then SkipDigits(t, p + 1) else p
  }

  function SkipIdent(t: Text, p: nat): (q: nat)
    requires p <= |t|
    ensures p <= q <= |t| && !IsIdent(Char(t, q))
    ensures forall i :: p <= i < q ==> IsIdent(t[i])
    decreases |t| - p
  {
    if IsIdent(Char(t, p)) then SkipIdent(t, p + 1) else p
  }

  // ---------------------------------------------------------------- strings

  /** The value of a hexadecimal digit, or 16. */
  function HexDigit(c: byte): nat {
    if IsDigit(c) then c - 48 else if 97 <= c <= 102 then c - 87 else if 65 <= c <= 70 then c - 55 else 16
  }

  /** The n characters from p on are hexadecimal digits. */
  predicate IsHex(t: Text, p: nat, n: nat) {
    n == 0 || (IsHex(t, p, n - 1) && HexDigit(Char(t, p + n - 1)) < 16)
  }

  function Sixteens(n: nat): nat {
    if n == 0 then 1 else 16 * Sixteens(n - 1)
  }

  /** The value of the n hexadecimal digits from p on. */
  function HexValue(t: Text, p: nat, n: nat): (u: nat)
    requires IsHex(t, p, n)
    ensures u < Sixteens(n)
  {
    if n == 0 then 0 else HexValue(t, p, n - 1) * 16 + HexDigit(Char(t, p + n - 1))
  }

  predicate IsHex4(t: Text, p: nat) { IsHex(t, p, 4) }

  function Hex4(t: Text, p: nat): (u: nat)
    requires IsHex4(t, p)
    ensures u < 0x1_0000
  {
    assert Sixteens(4) == 0x1_0000;
    HexValue(t, p, 4)
  }

  /** What a one-letter escape stands for, or 0. */
  function Escaped(c: byte): byte {
    if c == 34 || c == 92 || c == 47 then c
    else if c == 98 then 8
    else if c == 102 then 12
    else if c == 110 then 10
    else if c == 114 then 13
    else if c == 116 then 9
    else 0
  }

  /** One character of a string, escape or not, and the position after it. */
  function OneChar(t: Text, p: nat): (r: Parsed<Text>)
    requires p < |t|
    ensures r.Ok? ==> p < r.q <= |t| && 1 <= |r.v| <= 4
  {
    if t[p] == 0 then Err(Invalid)
    else if t[p] != 92 then Ok([t[p]], p + 1)
    else if Char(t, p + 1) == 117 then
      if IsHex4(t, p + 2) then Ok(Utf8(Hex4(t, p + 2)), p + 6) else Err(IllegalSequence)
    else if Escaped(Char(t, p + 1)) != 0 then Ok([Escaped(t[p + 1])], p + 2)
    else Err(IllegalSequence)
  }

  /** A string from the position after its opening quote. */
  function ParseString(t: Text, p: nat): (r: Parsed<Text>)
    requires p <= |t|
    ensures r.Ok? ==> p < r.q <= |t|
    decreases |t| - p
  {
    if Char(t, p) == 34 then Ok([], p + 1)
    else if p == |t| then Err(Invalid)
    else match OneChar(t, p)
      case Err(e) => Err(e)
      case Ok(s, q) =>
        match ParseString(t, q)
        case Err(e) => Err(e)
        case Ok(rest, r) => Ok(s + rest, r)
  }

  // ---------------------------------------------------------------- numbers

  /** The value of a row of decimal digits. */
  function Decimal(s: Text): nat
    requires forall i :: 0 <= i < |s| ==> IsDigit(s[i])
  {
    if s == [] then 0
    else assert IsDigit(s[|s| - 1]); Decimal(s[..|s| - 1]) * 10 + (s[|s| - 1] as int - 48)
  }

  /** As strtoul: numbers that are too large become the largest. */
  function Saturated(n: nat): nat {
    if n < UINT64 then n else UINT64 - 1
  }

  /** The position after an optional fraction, or none if there is a point and no digit. */
  function SkipFraction(t: Text, p: nat): (r: Parsed<bool>)
    requires p <= |t|
    ensures r.Ok? ==> p <= r.q <= |t| && (r.v <==> Char(t, p) == 46)
  {
    if Char(t, p) != 46 then Ok(false, p)
    else if IsDigit(Char(t, p + 1)) then Ok(true, SkipDigits(t, p + 1))
    else Err(Invalid)
  }

  /** The position after an optional exponent. */
  function SkipExponent(t: Text, p: nat): (r: Parsed<bool>)
    requires p <= |t|
    ensures r.Ok? ==> p <= r.q <= |t| && (r.v <==> Char(t, p) == 69 || Char(t, p) == 101)
  {
    if Char(t, p) != 69 && Char(t, p) != 101 then Ok(false, p)
    else
      var s := if Char(t, p + 1) == 45 || Char(t, p + 1) == 43 then p + 2 else p + 1;
      if IsDigit(Char(t, s)) then Ok(true, SkipDigits(t, s)) else Err(Invalid)
  }

  function ParseNumber(t: Text, p: nat): (r: Parsed<Value>)
    requires p < |t|
    ensures r.Ok? ==> p < r.q <= |t|
  {
    var negative := t[p] == 45;
    var first := if negative then p + 1 else p;
    if !IsDigit(Char(t, first)) then Err(Invalid) else
    var digits := SkipDigits(t, first);
    match SkipFraction(t, digits)
    case Err(e) => Err(e)
    case Ok(fraction, f) =>
      match SkipExponent(t, f)
      case Err(e) => Err(e)
      case Ok(exponent, q) =>
        if negative || fraction || exponent then Ok(Dbl(t[p..q]), q)
        else Ok(Num(Saturated(Decimal(t[p..q]))), q)
  }

  // ---------------------------------------------------------------- values

  const NULL_TEXT: Text := [110, 117, 108, 108]
  const TRUE_TEXT: Text := [116, 114, 117, 101]
  const FALSE_TEXT: Text := [102, 97, 108, 115, 101]

  function ParseConstant(t: Text, p: nat): (r: Parsed<Value>)
    requires p < |t| && IsAlpha(t[p])
    ensures r.Ok? ==> p < r.q <= |t|
  {
    var q := SkipIdent(t, p);
    if t[p..q] == TRUE_TEXT then Ok(Bool(true), q)
    else if t[p..q] == FALSE_TEXT then Ok(Bool(false), q)
    else if t[p..q] == NULL_TEXT then Ok(Null, q)
    else Err(Invalid)
  }

  function ParseValue(t: Text, p: nat): (r: Parsed<Value>)
    requires p <= |t|
    ensures r.Ok? ==> p < r.q <= |t|
    decreases |t| - p, 0
  {
    var s := SkipSpace(t, p);
    var c := Char(t, s);
    if c == 0 then Err(NoData)
    else if c == 34 then
      (match ParseString(t, s + 1) case Err(e) => Err(e) case Ok(x, q) => Ok(Str(x), q))
    else if c == 123 then
      var f := SkipSpace(t, s + 1);
      if Char(t, f) == 125 then Ok(Obj([]), f + 1)
      else (match ParseMembers(t, f) case Err(e) => Err(e) case Ok(ms, q) => Ok(Obj(ms), q))
    else if c == 91 then
      var f := SkipSpace(t, s + 1);
      if Char(t, f) == 93 then Ok(Arr([]), f + 1)
      else (match ParseElements(t, f) case Err(e) => Err(e) case Ok(es, q) => Ok(Arr(es), q))
    else if c == 45 || IsDigit(c) then ParseNumber(t, s)
    else if IsAlpha(c) then ParseConstant(t, s)
    else Err(Invalid)
  }

  /** The elements of an array, at least one, up to and including its closing bracket. */
  function ParseElements(t: Text, p: nat): (r: Parsed<seq<Value>>)
    requires p <= |t|
    ensures r.Ok? ==> p < r.q <= |t|
    decreases |t| - p, 1
  {
    match ParseValue(t, p)
    case Err(e) => Err(e)
    case Ok(v, q) =>
      var s := SkipSpace(t, q);
      if Char(t, s) == 44 then
        (match ParseElements(t, s + 1) case Err(e) => Err(e) case Ok(vs, r) => Ok([v] + vs, r))
      else if Char(t, s) == 93 then Ok([v], s + 1)
      else Err(Invalid)
  }

  /** A member of an object: its name, from the opening quote on, and its value. */
  function ParseMember(t: Text, p: nat): (r: Parsed<Member>)
    requires p <= |t|
    ensures r.Ok? ==> p < r.q <= |t|
    decreases |t| - p, 1
  {
    if Char(t, p) != 34 then Err(Invalid) else
    match ParseString(t, p + 1)
    case Err(e) => Err(e)
    case Ok(name, q) =>
      var s := SkipSpace(t, q);
      if Char(t, s) != 58 then Err(Invalid) else
      match ParseValue(t, s + 1)
      case Err(e) => Err(e)
      case Ok(v, r) => Ok(Member(name, v), r)
  }

  /** The members of an object, at least one, up to and including its closing brace. */
  function ParseMembers(t: Text, p: nat): (r: Parsed<seq<Member>>)
    requires p <= |t|
    ensures r.Ok? ==> p < r.q <= |t|
    decreases |t| - p, 2
  {
    match ParseMember(t, p)
    case Err(e) => Err(e)
    case Ok(m, q) =>
      var s := SkipSpace(t, q);
      if Char(t, s) == 44 then
        (match ParseMembers(t, SkipSpace(t, s + 1)) case Err(e) => Err(e) case Ok(ms, r) => Ok([m] + ms, r))
      else if Char(t, s) == 125 then Ok([m], s + 1)
      else Err(Invalid)
  }
}
