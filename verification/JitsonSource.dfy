// A source of characters, read from left to right.
module JitsonSource {
  import opened Bytes
  import opened SxeUnicode
  import opened JsonText

  class Source {
    const text: Text
    var next: nat

    ghost predicate Valid()
      reads this
    {
      next <= |text|
    }

    constructor (json: Text)
      ensures Valid() && text == json && next == 0
    {
      text := json;
      next := 0;
    }

    function PeekChar(): byte
      reads this
    {
      if next >= |text| then 0 else text[next]
    }

    /** The next character, or 0 at the end. */
    method GetChar() returns (c: byte)
      requires Valid()
      modifies this
      ensures Valid() && c == Char(text, old(next))
      ensures next == if old(next) < |text| then old(next) + 1 else old(next)
    {
      if next >= |text| {
        c := 0;
      } else {
        c := text[next];
        next := next + 1;
      }
    }

    /** Skip whitespace and look at the character after it. */
    method PeekNonspace() returns (c: byte)
      requires Valid()
      modifies this
      ensures Valid() && next == SkipSpace(text, old(next)) && c == Char(text, next)
    {
      while next < |text| && IsSpace(text[next])
        invariant Valid() && SkipSpace(text, next) == SkipSpace(text, old(next))
        decreases |text| - next
      {
        next := next + 1;
      }
      c := PeekChar();
    }

    /** Skip whitespace and take the character after it. */
    method GetNonspace() returns (c: byte)
      requires Valid()
      modifies this
      ensures Valid() && c == Char(text, SkipSpace(text, old(next)))
      ensures var s := SkipSpace(text, old(next)); next == if s < |text| then s + 1 else s
    {
      c := GetChar();
      while IsSpace(c)
        invariant Valid() && IsSpace(c) ==> next > 0 && c == text[next - 1]
        invariant next <= |text|
        invariant IsSpace(c) ==> SkipSpace(text, next) == SkipSpace(text, old(next))
        invariant !IsSpace(c) ==> c == Char(text, SkipSpace(text, old(next)))
        invariant !IsSpace(c) ==> var s := SkipSpace(text, old(next)); next == if s < |text| then s + 1 else s
        decreases |text| - next, if IsSpace(c) then 1 else 0
      {
        c := GetChar();
      }
    }

    /** Take the characters of an identifier. */
    method GetIdentifier() returns (token: Text)
      requires Valid()
      modifies this
      ensures Valid() && next == SkipIdent(text, old(next)) && token == text[old(next)..next]
    {
      var n := next;
      while IsIdent(Char(text, n))
        invariant next <= n <= |text| && SkipIdent(text, n) == SkipIdent(text, next)
        decreases |text| - n
      {
        n := n + 1;
      }
      token := text[next..n];
      next := n;
    }

    method GetDigits()
      requires Valid()
      modifies this
      ensures Valid() && next == SkipDigits(text, old(next))
    {
      while IsDigit(PeekChar())
        invariant Valid() && SkipDigits(text, next) == SkipDigits(text, old(next))
        decreases |text| - next
      {
        next := next + 1;
      }
    }

    /** Take a fraction, if there is a point. */
    method GetFraction() returns (ok: bool, some: bool)
      requires Valid()
      modifies this
      ensures Valid() && ok == SkipFraction(text, old(next)).Ok?
      ensures ok ==> Ok(some, next) == SkipFraction(text, old(next))
    {
      ok, some := true, PeekChar() == 46;
      if some {
        next := next + 1;
        ok := IsDigit(PeekChar());
        if ok {
          GetDigits();
        }
      }
    }

    /** Take an exponent, if there is an E. */
    method GetExponent() returns (ok: bool, some: bool)
      requires Valid()
      modifies this
      ensures Valid() && ok == SkipExponent(text, old(next)).Ok?
      ensures ok ==> Ok(some, next) == SkipExponent(text, old(next))
    {
      ok, some := true, PeekChar() == 69 || PeekChar() == 101;
      if some {
        next := next + 1;
        if PeekChar() == 45 || PeekChar() == 43 {
          next := next + 1;
        }
        ok := IsDigit(PeekChar());
        if ok {
          GetDigits();
        }
      }
    }

    /** Take a number; tells whether it is one, and whether it is an unsigned integer. */
    method GetNumber() returns (ok: bool, isUint: bool)
      requires Valid() && next < |text|
      modifies this
      ensures Valid() && ok == ParseNumber(text, old(next)).Ok?
      ensures ok ==> next == ParseNumber(text, old(next)).q && old(next) < next && (isUint <==> ParseNumber(text, old(next)).v.Num?)
    {
      hide Decimal, Saturated, SkipFraction, SkipExponent, SkipDigits;
      var negative := PeekChar() == 45;
      if negative {
        next := next + 1;
      }
      ok := IsDigit(PeekChar());
      isUint := !negative;
      if ok {
        GetDigits();
        var fraction, exponent;
        ok, fraction := GetFraction();
        if ok {
          ok, exponent := GetExponent();
          isUint := !negative && !fraction && !exponent;
        }
      }
    }
  }
}
