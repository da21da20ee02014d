// The text that is printed for a value, and that parsing it gives the value back.
module JsonPrint {
  import opened Bytes
  import opened SxeUnicode
  import opened JsonText

  // ---------------------------------------------------------------- printing

  function HexLetter(n: nat): byte
    requires n < 16
  {
    if n < 10 then 48 + n else 87 + n
  }

  /** Control characters, quotes and backslashes are printed as \u00xx, everything else as it is. */
  function Escape(c: byte): (s: Text)
    ensures |s| >= 1
  {
    if c <= 0x1f || c == 34 || c == 92 then [92, 117, 48, 48, HexLetter(c / 16), HexLetter(c % 16)] else [c]
  }

  function EscapeAll(s: Text): Text {
    if s == [] then [] else Escape(s[0]) + EscapeAll(s[1..])
  }

  function Quote(s: Text): Text {
    [34] + EscapeAll(s) + [34]
  }

  /** The decimal digits of a number. */
  function Digits(n: nat): (s: Text)
    ensures |s| > 0
  {
    (if n < 10 then [] else Digits(n / 10)) + [48 + n % 10]
  }

  function Build(v: Value): Text
    decreases v
  {
    match v
    case Null => NULL_TEXT
    case Bool(b) => if b then TRUE_TEXT else FALSE_TEXT
    case Num(n) => Digits(n)
    case Dbl(text) => text
    case Str(s) => Quote(s)
    case Arr(es) => if es == [] then [91, 93] else [91] + BuildElements(es) + [93]
    case Obj(ms) => if ms == [] then [123, 125] else [123] + BuildMembers(ms) + [125]
  }

  function BuildElements(es: seq<Value>): Text
    requires es != []
    decreases es
  {
    if |es| == 1 then Build(es[0]) else Build(es[0]) + [44] + BuildElements(es[1..])
  }

  function BuildMember(m: Member): Text
    decreases m
  {
    Quote(m.name) + [58] + Build(m.value)
  }

  function BuildMembers(ms: seq<Member>): Text
    requires ms != []
    decreases ms
  {
    if |ms| == 1 then BuildMember(ms[0]) else BuildMember(ms[0]) + [44] + BuildMembers(ms[1..])
  }

  /** No part of the value is a double, and numbers fit in 64 bits. */
  ghost predicate Exact(v: Value)
    decreases v
  {
    match v
    case Num(n) => n < UINT64
    case Dbl(_) => false
    case Arr(es) => forall i :: 0 <= i < |es| ==> Exact(es[i])
    case Obj(ms) => forall i :: 0 <= i < |ms| ==> Exact(ms[i].value)
    case _ => true
  }

  // ---------------------------------------------------------------- pieces of text

  /** The text s is found at position p. */
  predicate Found(t: Text, p: nat, s: Text) {
    p + |s| <= |t| && t[p..p + |s|] == s
  }

  lemma {:induction false} FoundChars(t: Text, p: nat, s: Text)
    requires Found(t, p, s)
    ensures forall i {:trigger s[i]} :: 0 <= i < |s| ==> Char(t, p + i) == s[i]
  {
    forall i | 0 <= i < |s| ensures t[p + i] == s[i] { assert t[p..p + |s|][i] == s[i]; }
  }

  lemma {:induction false} FoundParts(t: Text, p: nat, a: Text, b: Text)
    requires Found(t, p, a + b)
    ensures Found(t, p, a) && Found(t, p + |a|, b)
  {
    var w := t[p..p + |a + b|];
    assert w == a + b && w[..|a|] == a && w[|a|..] == b;
    assert t[p..p + |a|] == w[..|a|];
    assert t[p + |a|..p + |a| + |b|] == w[|a|..];
  }

  lemma {:induction false} FoundThree(t: Text, p: nat, a: Text, b: Text, c: Text)
    requires Found(t, p, a + b + c)
    ensures Found(t, p, a) && Found(t, p + |a|, b) && Found(t, p + |a| + |b|, c)
  {
    FoundParts(t, p, a + b, c);
    FoundParts(t, p, a, b);
  }

  // ---------------------------------------------------------------- strings

  lemma {:induction false} HexBack(n: nat)
    requires n < 16
    ensures HexDigit(HexLetter(n)) == n
  {
  }

  lemma {:induction false} HexOfTwo(t: Text, p: nat, c: byte)
    requires Char(t, p) == 48 && Char(t, p + 1) == 48
    requires HexDigit(Char(t, p + 2)) == c / 16 && HexDigit(Char(t, p + 3)) == c % 16
    ensures IsHex4(t, p) && Hex4(t, p) == c
  {
    assert IsHex(t, p, 1) && HexValue(t, p, 1) == 0;
    assert IsHex(t, p, 2) && HexValue(t, p, 2) == 0;
    assert IsHex(t, p, 3) && HexValue(t, p, 3) == c / 16;
  }

  lemma {:induction false} EscapeBack(t: Text, p: nat, c: byte)
    requires Found(t, p, Escape(c))
    ensures p < |t| && OneChar(t, p) == Ok([c], p + |Escape(c)|)
    ensures Char(t, p) != 34
  {
    var s := Escape(c);
    FoundChars(t, p, s);
    assert Char(t, p + 0) == s[0];
    if c <= 0x1f || c == 34 || c == 92 {
      assert Char(t, p + 1) == s[1] && Char(t, p + 2) == s[2] && Char(t, p + 3) == s[3] && Char(t, p + 4) == s[4] && Char(t, p + 5) == s[5];
      HexBack(c / 16);
      HexBack(c % 16);
      HexOfTwo(t, p + 2, c);
    }
  }

  /** A printed string is parsed back, whatever bytes it holds. */
  lemma {:induction false} StringBack(t: Text, p: nat, s: Text)
    requires Found(t, p, EscapeAll(s) + [34])
    ensures p <= |t| && ParseString(t, p) == Ok(s, p + |EscapeAll(s)| + 1)
    decreases |s|
  {
    if s == [] {
      FoundChars(t, p, [34]);
      assert Found(t, p, [34]);
      assert Char(t, p + 0) == [34][0];
    } else {
      var a, b := Escape(s[0]), EscapeAll(s[1..]) + [34];
      assert EscapeAll(s) + [34] == a + b;
      FoundParts(t, p, a, b);
      EscapeBack(t, p, s[0]);
      StringBack(t, p + |a|, s[1..]);
      assert [s[0]] + s[1..] == s;
    }
  }

  // ---------------------------------------------------------------- numbers

  predicate AllDigits(s: Text) {
    forall i :: 0 <= i < |s| ==> IsDigit(s[i])
  }

  lemma {:induction false} OneMoreDigit(s: Text, d: nat)
    requires AllDigits(s) && d < 10
    ensures AllDigits(s + [48 + d]) && Decimal(s + [48 + d]) == Decimal(s) * 10 + d
  {
    var r := s + [48 + d];
    assert r[..|r| - 1] == s && r[|r| - 1] == 48 + d;
  }

  lemma {:induction false} NoDigits()
    ensures AllDigits([]) && Decimal([]) == 0
  {
  }

  lemma {:induction false} DigitsAre(n: nat)
    ensures AllDigits(Digits(n)) && Decimal(Digits(n)) == n
  {
    hide AllDigits, Decimal;
    if n < 10 {
      NoDigits();
      OneMoreDigit([], n);
      assert Digits(n) == [] + [48 + n];
    } else {
      var m, d := n / 10, n % 10;
      assert n == m * 10 + d && Digits(n) == Digits(m) + [48 + d];
      DigitsAre(m);
      OneMoreDigit(Digits(m), d);
    }
  }

  lemma {:induction false} SkipsDigits(t: Text, p: nat, q: nat)
    requires p <= q <= |t| && (forall i :: p <= i < q ==> IsDigit(t[i])) && !IsDigit(Char(t, q))
    ensures SkipDigits(t, p) == q
    decreases q - p
  {
    if p < q { SkipsDigits(t, p + 1, q); }
  }

  lemma {:induction false} SkipsIdent(t: Text, p: nat, q: nat)
    requires p <= q <= |t| && (forall i :: p <= i < q ==> IsIdent(t[i])) && !IsIdent(Char(t, q))
    ensures SkipIdent(t, p) == q
    decreases q - p
  {
    if p < q { SkipsIdent(t, p + 1, q); }
  }

  /** What may follow a value in printed text: the end, a comma or a closing bracket. */
  predicate Stops(t: Text, q: nat) {
    var c := Char(t, q);
    c == 0 || c == 44 || c == 93 || c == 125
  }

  lemma {:induction false} DigitsFound(t: Text, p: nat, n: nat)
    requires Found(t, p, Digits(n)) && Stops(t, p + |Digits(n)|)
    ensures p < |t| && IsDigit(t[p]) && t[p] != 45
    ensures SkipDigits(t, p) == p + |Digits(n)| && Decimal(t[p..p + |Digits(n)|]) == n
  {
    hide Digits, Decimal, SkipDigits;
    var s := Digits(n);
    DigitsAre(n);
    FoundChars(t, p, s);
    assert t[p..p + |s|] == s && Char(t, p + 0) == s[0];
    hide Found, Stops;
    forall i | p <= i < p + |s| ensures IsDigit(t[i]) { assert Char(t, p + (i - p)) == s[i - p]; }
    EndsDigits(t, p + |s|);
    SkipsDigits(t, p, p + |s|);
  }

  lemma {:induction false} EndsDigits(t: Text, q: nat)
    requires Stops(t, q)
    ensures !IsDigit(Char(t, q))
  {
  }

  /** A row of digits with nothing of a number after it is an unsigned integer. */
  lemma {:induction false} PlainNumber(t: Text, p: nat, q: nat)
    requires p < |t| && IsDigit(t[p]) && SkipDigits(t, p) == q && Stops(t, q)
    ensures forall i :: 0 <= i < |t[p..q]| ==> IsDigit(t[p..q][i])
    ensures ParseNumber(t, p) == Ok(Num(Saturated(Decimal(t[p..q]))), q)
  {
    hide SkipDigits, Decimal, Saturated;
    assert t[p] != 45;
    assert SkipFraction(t, q) == Ok(false, q) && SkipExponent(t, q) == Ok(false, q);
  }

  lemma {:induction false} NumberParses(t: Text, p: nat)
    requires p < |t| && IsDigit(t[p])
    ensures ParseValue(t, p) == ParseNumber(t, p)
  {
    hide ParseNumber;
    SkipsNone(t, p);
  }

  lemma {:induction false} NumberBack(t: Text, p: nat, n: nat)
    requires Found(t, p, Digits(n)) && Stops(t, p + |Digits(n)|) && n < UINT64
    ensures ParseValue(t, p) == Ok(Num(n), p + |Digits(n)|)
  {
    hide Digits, Decimal, SkipDigits, Found, Stops, ParseNumber, ParseValue;
    DigitsFound(t, p, n);
    PlainNumber(t, p, p + |Digits(n)|);
    NumberParses(t, p);
  }

  lemma {:induction false} ConstantBack(t: Text, p: nat, v: Value)
    requires v.Null? || v.Bool?
    requires Found(t, p, Build(v)) && Stops(t, p + |Build(v)|)
    ensures ParseValue(t, p) == Ok(v, p + |Build(v)|)
  {
    var s := Build(v);
    var q := p + |s|;
    FoundChars(t, p, s);
    assert IsAlpha(s[0]);
    forall i | 0 <= i < |s| ensures IsIdent(s[i]) { }
    forall i | p <= i < q ensures IsIdent(t[i]) { assert Char(t, p + (i - p)) == s[i - p]; }
    SkipsIdent(t, p, q);
    assert Char(t, p + 0) == s[0];
    assert t[p..q] == s;
    assert ParseConstant(t, p) == Ok(v, q);
  }

  // ---------------------------------------------------------------- values

  lemma {:induction false} FirstChar(v: Value)
    requires Exact(v)
    ensures |Build(v)| > 0 && !IsSpace(Build(v)[0]) && Build(v)[0] != 93
  {
    if v.Num? { DigitsAre(v.n); }
  }

  lemma {:induction false} StringValueBack(t: Text, p: nat, s: Text)
    requires Found(t, p, Quote(s))
    ensures Char(t, p) == 34 && p + 1 <= |t| && ParseString(t, p + 1) == Ok(s, p + |Quote(s)|)
  {
    FoundChars(t, p, Quote(s));
    assert Char(t, p + 0) == Quote(s)[0];
    assert Quote(s) == [34] + (EscapeAll(s) + [34]);
    FoundParts(t, p, [34], EscapeAll(s) + [34]);
    StringBack(t, p + 1, s);
  }

  lemma {:induction false} ElementsEnd(t: Text, p: nat, v: Value, q: nat)
    requires p <= |t| && ParseValue(t, p) == Ok(v, q) && Char(t, q) == 93
    ensures ParseElements(t, p) == Ok([v], q + 1)
  {
    hide ParseValue;
    SkipsNone(t, q);
  }

  lemma {:induction false} ElementsGoOn(t: Text, p: nat, v: Value, q: nat, vs: seq<Value>, r: nat)
    requires p <= |t| && ParseValue(t, p) == Ok(v, q) && Char(t, q) == 44
    requires q + 1 <= |t| && ParseElements(t, q + 1) == Ok(vs, r)
    ensures ParseElements(t, p) == Ok([v] + vs, r)
  {
    hide ParseValue;
    SkipsNone(t, q);
  }

  lemma {:induction false} ElementsBack(t: Text, p: nat, es: seq<Value>)
    requires es != [] && (forall i :: 0 <= i < |es| ==> Exact(es[i]))
    requires Found(t, p, BuildElements(es) + [93])
    ensures p <= |t| && ParseElements(t, p) == Ok(es, p + |BuildElements(es)| + 1)
    decreases es
  {
    hide ParseElements, ParseValue, Build, Found;
    var a := Build(es[0]);
    var q := p + |a|;
    if |es| == 1 {
      FoundParts(t, p, a, [93]);
      FoundOne(t, q, 93);
      ValueBack(t, p, es[0]);
      ElementsEnd(t, p, es[0], q);
      assert es == [es[0]];
    } else {
      var b := BuildElements(es[1..]) + [93];
      assert BuildElements(es) + [93] == a + [44] + b;
      FoundThree(t, p, a, [44], b);
      FoundOne(t, q, 44);
      ValueBack(t, p, es[0]);
      ElementsBack(t, q + 1, es[1..]);
      ElementsGoOn(t, p, es[0], q, es[1..], q + 1 + |BuildElements(es[1..])| + 1);
      assert [es[0]] + es[1..] == es;
    }
  }

  lemma {:induction false} FoundOne(t: Text, p: nat, c: byte)
    requires Found(t, p, [c])
    ensures Char(t, p) == c && p < |t|
  {
    FoundChars(t, p, [c]);
    assert Char(t, p + 0) == [c][0];
  }

  lemma {:induction false} MemberIs(t: Text, p: nat, name: Text, q: nat, v: Value, r: nat)
    requires Char(t, p) == 34 && p + 1 <= |t| && ParseString(t, p + 1) == Ok(name, q)
    requires Char(t, q) == 58 && q + 1 <= |t| && ParseValue(t, q + 1) == Ok(v, r)
    ensures ParseMember(t, p) == Ok(Member(name, v), r)
  {
    hide ParseValue, ParseString;
    SkipsNone(t, q);
  }

  lemma {:induction false} MemberBack(t: Text, p: nat, m: Member)
    requires Exact(m.value) && Found(t, p, BuildMember(m)) && Stops(t, p + |BuildMember(m)|)
    ensures p <= |t| && ParseMember(t, p) == Ok(m, p + |BuildMember(m)|)
    decreases m
  {
    hide ParseMember, ParseValue, ParseString, Build, Found;
    var a, b := Quote(m.name), Build(m.value);
    FoundThree(t, p, a, [58], b);
    StringValueBack(t, p, m.name);
    FoundOne(t, p + |a|, 58);
    ValueBack(t, p + |a| + 1, m.value);
    MemberIs(t, p, m.name, p + |a|, m.value, p + |a| + 1 + |b|);
  }

  lemma {:induction false} MembersEnd(t: Text, p: nat, m: Member, q: nat)
    requires p <= |t| && ParseMember(t, p) == Ok(m, q) && Char(t, q) == 125
    ensures ParseMembers(t, p) == Ok([m], q + 1)
  {
    hide ParseMember;
    SkipsNone(t, q);
  }

  lemma {:induction false} MembersGoOn(t: Text, p: nat, m: Member, q: nat, ms: seq<Member>, r: nat)
    requires p <= |t| && ParseMember(t, p) == Ok(m, q) && Char(t, q) == 44
    requires q + 1 <= |t| && !IsSpace(Char(t, q + 1)) && ParseMembers(t, q + 1) == Ok(ms, r)
    ensures ParseMembers(t, p) == Ok([m] + ms, r)
  {
    hide ParseMember;
    SkipsNone(t, q);
    SkipsNone(t, q + 1);
  }

  lemma {:induction false} MembersBack(t: Text, p: nat, ms: seq<Member>)
    requires ms != [] && (forall i :: 0 <= i < |ms| ==> Exact(ms[i].value))
    requires Found(t, p, BuildMembers(ms) + [125])
    ensures p <= |t| && ParseMembers(t, p) == Ok(ms, p + |BuildMembers(ms)| + 1)
    decreases ms
  {
    hide ParseMembers, ParseMember, BuildMember, Found;
    var a := BuildMember(ms[0]);
    var q := p + |a|;
    if |ms| == 1 {
      FoundParts(t, p, a, [125]);
      FoundOne(t, q, 125);
      MemberBack(t, p, ms[0]);
      MembersEnd(t, p, ms[0], q);
      assert ms == [ms[0]];
    } else {
      var b := BuildMembers(ms[1..]) + [125];
      assert BuildMembers(ms) + [125] == a + [44] + b;
      FoundThree(t, p, a, [44], b);
      FoundOne(t, q, 44);
      MemberBack(t, p, ms[0]);
      MemberStarts(t, q + 1, ms[1..]);
      MembersBack(t, q + 1, ms[1..]);
      MembersGoOn(t, p, ms[0], q, ms[1..], q + 1 + |BuildMembers(ms[1..])| + 1);
      assert [ms[0]] + ms[1..] == ms;
    }
  }

  lemma {:induction false} MemberStarts(t: Text, p: nat, ms: seq<Member>)
    requires ms != [] && Found(t, p, BuildMembers(ms) + [125])
    ensures Char(t, p) == 34
  {
    var s := BuildMembers(ms) + [125];
    FoundChars(t, p, s);
    assert BuildMember(ms[0])[0] == 34;
    assert Char(t, p + 0) == s[0];
  }

  lemma {:induction false} ArrayParses(t: Text, p: nat, es: seq<Value>, q: nat)
    requires p + 1 <= |t| && Char(t, p) == 91 && !IsSpace(Char(t, p + 1))
    requires if es == [] then Char(t, p + 1) == 93 && q == p + 2
             else Char(t, p + 1) != 93 && ParseElements(t, p + 1) == Ok(es, q)
    ensures ParseValue(t, p) == Ok(Arr(es), q)
  {
    hide ParseElements;
    SkipsNone(t, p);
    SkipsNone(t, p + 1);
  }

  lemma {:induction false} ArrayBack(t: Text, p: nat, v: Value)
    requires v.Arr? && Exact(v) && Found(t, p, Build(v))
    ensures ParseValue(t, p) == Ok(v, p + |Build(v)|)
    decreases v, 0
  {
    hide ParseValue, ParseElements, Found;
    if v.es == [] {
      assert Build(v) == [91] + [93];
      FoundParts(t, p, [91], [93]);
      FoundOne(t, p, 91);
      FoundOne(t, p + 1, 93);
    } else {
      var a, b := Build(v.es[0]), BuildElements(v.es) + [93];
      assert Build(v) == [91] + b;
      FoundParts(t, p, [91], b);
      FoundOne(t, p, 91);
      FirstChar(v.es[0]);
      assert b[0] == a[0];
      FoundChars(t, p + 1, b);
      assert Char(t, p + 1 + 0) == b[0];
      ElementsBack(t, p + 1, v.es);
    }
    ArrayParses(t, p, v.es, p + |Build(v)|);
  }

  lemma {:induction false} ObjectParses(t: Text, p: nat, ms: seq<Member>, q: nat)
    requires p + 1 <= |t| && Char(t, p) == 123 && !IsSpace(Char(t, p + 1))
    requires if ms == [] then Char(t, p + 1) == 125 && q == p + 2
             else Char(t, p + 1) != 125 && ParseMembers(t, p + 1) == Ok(ms, q)
    ensures ParseValue(t, p) == Ok(Obj(ms), q)
  {
    hide ParseMembers;
    SkipsNone(t, p);
    SkipsNone(t, p + 1);
  }

  lemma {:induction false} ObjectBack(t: Text, p: nat, v: Value)
    requires v.Obj? && Exact(v) && Found(t, p, Build(v))
    ensures ParseValue(t, p) == Ok(v, p + |Build(v)|)
    decreases v, 0
  {
    hide ParseValue, ParseMembers, Found;
    if v.ms == [] {
      assert Build(v) == [123] + [125];
      FoundParts(t, p, [123], [125]);
      FoundOne(t, p, 123);
      FoundOne(t, p + 1, 125);
    } else {
      var b := BuildMembers(v.ms) + [125];
      assert Build(v) == [123] + b;
      FoundParts(t, p, [123], b);
      FoundOne(t, p, 123);
      MemberStarts(t, p + 1, v.ms);
      MembersBack(t, p + 1, v.ms);
    }
    ObjectParses(t, p, v.ms, p + |Build(v)|);
  }

  /** Printed text is parsed back to the value it was printed for, wherever it stands. */
  lemma {:induction false} ValueBack(t: Text, p: nat, v: Value)
    requires Exact(v) && Found(t, p, Build(v)) && Stops(t, p + |Build(v)|)
    ensures ParseValue(t, p) == Ok(v, p + |Build(v)|)
    decreases v
  {
    match v {
      case Null => ConstantBack(t, p, v);
      case Bool(_) => ConstantBack(t, p, v);
      case Num(n) => NumberBack(t, p, n);
      case Dbl(_) => assert false;
      case Str(s) => StringValueBack(t, p, s); SkipsNone(t, p);
      case Arr(_) => ArrayBack(t, p, v);
      case Obj(_) => ObjectBack(t, p, v);
    }
  }

  /** Parsing the text printed for a value gives that value and uses up the whole text. */
  lemma {:induction false} ParseBuild(v: Value)
    requires Exact(v)
    ensures ParseValue(Build(v), 0) == Ok(v, |Build(v)|)
  {
    ValueBack(Build(v), 0, v);
  }
}
