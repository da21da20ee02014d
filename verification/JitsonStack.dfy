// The stack of tokens that the parser pushes values on, and the parser.
module JitsonStack {
  import A = Arithmetic
  import opened Bytes
  import opened SxeUnicode
  import opened JsonText
  import opened JitsonTokens
  import opened JitsonSource
  import Sequences

  const MAX_INCR: nat := 4096

  /** How far the stack grows to hold so many tokens. */
  function NewMaximum(maximum: nat, expanded: nat): (n: nat)
    requires 0 < maximum < expanded
  {
    if expanded < MAX_INCR then ((expanded - 1) / maximum + 1) * maximum else ((expanded - 1) / MAX_INCR + 1) * MAX_INCR
  }

  lemma {:induction false} RoundsUp(n: nat, d: nat)
    requires d > 0
    ensures (n / d + 1) * d > n
  {
    assert n == d * (n / d) + n % d;
    assert (n / d + 1) * d == d * (n / d) + d;
  }

  /** The new maximum has room for what was asked. */
  lemma {:induction false} NewMaximumFits(maximum: nat, expanded: nat)
    requires 0 < maximum < expanded
    ensures NewMaximum(maximum, expanded) >= expanded
  {
    RoundsUp(expanded - 1, maximum);
    RoundsUp(expanded - 1, MAX_INCR);
  }

  /** It is a whole number of old sizes, or of 4096 tokens from there on, and no more of them than needed. */
  lemma {:induction false} NewMaximumIs(maximum: nat, expanded: nat)
    requires 0 < maximum < expanded
    ensures var n, unit := NewMaximum(maximum, expanded), if expanded < 4096 then maximum else 4096;
            n % unit == 0 && expanded <= n < expanded + unit
  {
    var unit := if expanded < 4096 then maximum else 4096;
    var q, r := (expanded - 1) / unit, (expanded - 1) % unit;
    assert expanded - 1 == unit * q + r;
    assert (q + 1) * unit == unit * q + unit;
    Multiple(q + 1, unit);
  }

  lemma {:induction false} Multiple(k: nat, unit: nat)
    requires unit > 0
    ensures (k * unit) % unit == 0
  {
    A.DivOf(k, unit, 0);
  }

  /** A parse result with an error in place of what was not parsed. */
  datatype Outcome = Loaded | Failed(e: Error)

  // ---------------------------------------------------------------- loops as they unfold

  function After<T>(done: seq<T>, r: Parsed<seq<T>>): Parsed<seq<T>> {
    match r
    case Ok(rest, q) => Ok(done + rest, q)
    case Err(e) => Err(e)
  }

  /** A string from the whitespace before its opening quote. */
  function ParseQuoted(t: Text, p: nat): (r: Parsed<Text>)
    requires p <= |t|
    ensures r.Ok? ==> p < r.q <= |t|
  {
    var s := SkipSpace(t, p);
    if Char(t, s) != 34 then Err(Invalid) else ParseString(t, s + 1)
  }

  /** How a string ends: at a quote, or too early. */
  lemma {:induction false} StringEnds(t: Text, p: nat)
    requires p <= |t|
    ensures Char(t, p) == 34 ==> ParseString(t, p) == Ok([], p + 1)
    ensures Char(t, p) == 0 ==> ParseString(t, p) == Err(Invalid)
  {
  }

  lemma {:induction false} StringGoesOn(t: Text, p: nat, done: Text)
    requires p < |t| && t[p] != 34
    ensures var r := OneChar(t, p);
            After(done, ParseString(t, p)) == if r.Err? then Err(r.e) else After(done + r.v, ParseString(t, r.q))
  {
    var r := OneChar(t, p);
    if r.Ok? {
      var rest := ParseString(t, r.q);
      if rest.Ok? { assert done + (r.v + rest.v) == (done + r.v) + rest.v; }
    }
  }

  lemma {:induction false} ElementsGoOn(t: Text, p: nat, done: seq<Value>)
    requires p <= |t|
    ensures var r := ParseValue(t, p);
            After(done, ParseElements(t, p)) ==
            if r.Err? then Err(r.e) else
            var s := SkipSpace(t, r.q);
            if Char(t, s) == 44 then After(done + [r.v], ParseElements(t, s + 1))
            else if Char(t, s) == 93 then Ok(done + [r.v], s + 1)
            else Err(Invalid)
  {
    hide ParseValue;
    var r := ParseValue(t, p);
    if r.Ok? {
      var s := SkipSpace(t, r.q);
      if Char(t, s) == 44 {
        var rest := ParseElements(t, s + 1);
        if rest.Ok? { assert done + ([r.v] + rest.v) == (done + [r.v]) + rest.v; }
      }
    }
  }

  lemma {:induction false} MembersGoOn(t: Text, p: nat, done: seq<Member>)
    requires p <= |t|
    ensures var r := ParseMember(t, p);
            After(done, ParseMembers(t, p)) ==
            if r.Err? then Err(r.e) else
            var s := SkipSpace(t, r.q);
            if Char(t, s) == 44 then After(done + [r.v], ParseMembers(t, SkipSpace(t, s + 1)))
            else if Char(t, s) == 125 then Ok(done + [r.v], s + 1)
            else Err(Invalid)
  {
    hide ParseMember;
    var r := ParseMember(t, p);
    if r.Ok? {
      var s := SkipSpace(t, r.q);
      if Char(t, s) == 44 {
        var rest := ParseMembers(t, SkipSpace(t, s + 1));
        if rest.Ok? { assert done + ([r.v] + rest.v) == (done + [r.v]) + rest.v; }
      }
    }
  }

  lemma {:induction false} StaysNoHex(t: Text, p: nat, m: nat, n: nat)
    requires m <= n && !IsHex(t, p, m)
    ensures !IsHex(t, p, n)
  {
    if m < n { StaysNoHex(t, p, m, n - 1); }
  }

  lemma {:induction false} AfterNone<T>(r: Parsed<seq<T>>)
    ensures After([], r) == r
  {
    if r.Ok? { assert [] + r.v == r.v; }
  }

  class Stack {
    var maximum: nat
    var jitsons: seq<Token>
    var count: nat

    ghost predicate Valid()
      reads this
    {
      0 < maximum == |jitsons| && count <= maximum
    }

    /** The tokens in use. */
    ghost function Used(): seq<Token>
      requires Valid()
      reads this
    {
      jitsons[..count]
    }

    constructor (size: nat)
      requires size > 0
      ensures Valid() && Used() == []
    {
      maximum := size;
      jitsons := seq(size, _ => TFree);
      count := 0;
    }

    /** Take so many more tokens into use, growing the stack if need be. */
    method Expand(more: nat) returns (idx: nat)
      requires Valid()
      modifies this
      ensures Valid() && idx == old(count) && count == old(count) + more
      ensures jitsons[..idx] == old(Used())
      ensures maximum == if count > old(maximum) then NewMaximum(old(maximum), count) else old(maximum)
    {
      var expanded := count + more;
      if expanded > maximum {
        NewMaximumFits(maximum, expanded);
        var n := NewMaximum(maximum, expanded);
        jitsons := jitsons + seq(n - maximum, _ => TFree);
        maximum := n;
      }
      count := expanded;
      idx := expanded - more;
    }

    // -------------------------------------------------------------- strings

    /** The four digits of a unicode escape. */
    method ReadHex4(source: Source) returns (ok: bool, unicode: nat)
      requires source.Valid()
      modifies source
      ensures source.Valid() && source.next >= old(source.next) && ok == IsHex4(source.text, old(source.next))
      ensures ok ==> unicode == Hex4(source.text, old(source.next)) && source.next == old(source.next) + 4
    {
      ghost var t, p := source.text, source.next;
      var i := 0;
      unicode := 0;
      ok := true;
      while i < 4 && ok
        invariant i <= 4 && source.Valid() && source.next >= p
        invariant ok ==> source.next == p + i && IsHex(t, p, i) && unicode == HexValue(t, p, i)
        invariant !ok ==> !IsHex4(t, p)
        decreases 4 - i, if ok then 1 else 0
      {
        var c := source.GetChar();
        var d := HexDigit(c);
        if d == 16 {
          StaysNoHex(t, p, i + 1, 4);
          ok := false;
        } else {
          unicode := unicode * 16 + d;
          i := i + 1;
        }
      }
    }

    /** The bytes of one character whose first is c: what an escape stands for, or c itself. */
    method ReadChar(source: Source, c: byte) returns (ok: bool, utf: Text)
      requires source.Valid() && source.next > 0 && source.text[source.next - 1] == c && c != 0
      modifies source
      ensures source.Valid() && source.next >= old(source.next)
      ensures var r := OneChar(source.text, old(source.next) - 1);
              if ok then r == Ok(utf, source.next) else r == Err(IllegalSequence)
    {
      if c != 92 {
        return true, [c];
      }
      var e := source.GetChar();
      if e == 117 {
        var unicode;
        ok, unicode := ReadHex4(source);
        utf := if ok then Utf8(unicode) else [];
      } else {
        ok := Escaped(e) != 0;
        utf := [Escaped(e)];
      }
    }

    /** The room for a string's bytes in the tokens it has so far, less what is taken up. */
    ghost predicate Room(idx: nat, bytes: Text, space: nat)
      reads this
    {
      && idx < count && 1 <= space <= TOKEN_SIZE
      && |bytes| + space == STRING_SIZE + TOKEN_SIZE * (count - idx - 1)
    }

    /** The tokens from idx on hold a string so far. */
    ghost predicate Holds(idx: nat, bytes: Text)
      requires Valid()
      reads this
    {
      && idx < count && jitsons[idx] == TStr(bytes, |bytes|, false)
      && forall j :: idx < j < count ==> jitsons[j] == TMore
    }

    /** Add one character to the string at idx, taking another token when its room runs out. */
    method Append(idx: nat, ghost bytes: Text, utf: Text, space: nat) returns (left: nat)
      requires Valid() && Holds(idx, bytes) && Room(idx, bytes, space)
      requires 1 <= |utf| <= 4
      modifies this
      ensures Valid() && Holds(idx, bytes + utf) && Room(idx, bytes + utf, left)
      ensures jitsons[..idx] == old(jitsons)[..idx]
    {
      var i := |utf|;
      var s := jitsons[idx].bytes;
      jitsons := jitsons[idx := TStr(s + [utf[0]], |s| + 1, false)];
      left := space - 1;
      if left < i {
        var more := Expand(1);
        jitsons := jitsons[more := TMore];
        left := left + TOKEN_SIZE;
      }
      i := i - 1;
      if i > 0 {
        assert |s| + 1 + i <= STRING_SIZE + TOKEN_SIZE * (count - idx - 1);
        s := jitsons[idx].bytes;
        jitsons := jitsons[idx := TStr(s + utf[1..], |s| + i, false)];
        left := left - i;
      }
      assert bytes + [utf[0]] + utf[1..] == bytes + utf;
      assert |utf| == 1 ==> utf == [utf[0]];
    }

    /** The characters of a string up to its closing quote, into the string at idx, which is empty so far. */
    method LoadChars(source: Source, idx: nat) returns (r: Outcome, ghost bytes: Text)
      requires Valid() && source.Valid() && Holds(idx, []) && count == idx + 1
      modifies this, source
      ensures Valid() && source.Valid() && idx < count && jitsons[..idx] == old(jitsons)[..idx]
      ensures match ParseString(source.text, old(source.next))
              case Ok(s, q) => r == Loaded && source.next == q && bytes == s && Holds(idx, s) && exists space :: Room(idx, s, space)
              case Err(e) => r == Failed(e)
    {
      hide ParseString, OneChar;
      ghost var t, start := source.text, source.next;
      bytes := [];
      var space := STRING_SIZE;
      r := Loaded;
      AfterNone(ParseString(t, start));
      StringEnds(t, start);
      var c := source.GetChar();
      while c != 34 && r == Loaded
        invariant Valid() && source.Valid() && source.text == t
        invariant idx < count && jitsons[..idx] == old(jitsons)[..idx]
        invariant r == Loaded ==> Holds(idx, bytes) && Room(idx, bytes, space)
        invariant r == Loaded && c != 0 ==> start < source.next && c == t[source.next - 1]
        invariant r == Loaded && c != 0 ==> ParseString(t, start) == After(bytes, ParseString(t, source.next - 1))
        invariant r == Loaded && c == 0 ==> ParseString(t, start) == Err(Invalid)
        invariant r.Failed? ==> ParseString(t, start) == Err(r.e)
        decreases |t| - source.next, if c == 0 then 0 else 1, if r == Loaded then 1 else 0
      {
        if c == 0 {
          r := Failed(Invalid);
        } else {
          StringGoesOn(t, source.next - 1, bytes);
          var ok, utf := ReadChar(source, c);
          if !ok {
            r := Failed(IllegalSequence);
          } else {
            space := Append(idx, bytes, utf, space);
            bytes := bytes + utf;
            StringEnds(t, source.next);
            c := source.GetChar();
          }
        }
      }
      if r == Loaded {
        StringEnds(t, source.next - 1);
        assert bytes + [] == bytes;
      }
    }

    /** The tokens of a string with just enough room are those its length calls for. */
    lemma {:induction false} RoomIsWidth(idx: nat, bytes: Text, space: nat)
      requires Valid() && Holds(idx, bytes) && Room(idx, bytes, space)
      ensures jitsons[..count] == jitsons[..idx] + StringTokens(bytes, false)
    {
      assert count - idx == StringWidth(|bytes|);
    }

    /** Load a string; on failure nothing is left on the stack. */
    method LoadString(source: Source) returns (r: Outcome)
      requires Valid() && source.Valid()
      modifies this, source
      ensures Valid() && source.Valid()
      ensures match ParseQuoted(source.text, old(source.next))
              case Ok(s, q) => r == Loaded && source.next == q && Used() == old(Used()) + StringTokens(s, false)
              case Err(e) => r == Failed(e) && Used() == old(Used())
    {
      hide ParseString, StringTokens;
      ghost var base := Used();
      var c := source.GetNonspace();
      if c != 34 {
        r := Failed(Invalid);
      } else {
        ghost var start := source.next;
        var idx := Expand(1);
        jitsons := jitsons[idx := TStr([], 0, false)];
        assert jitsons[..idx] == base;
        ghost var bytes;
        r, bytes := LoadChars(source, idx);
        if r == Loaded {
          ghost var space :| Room(idx, bytes, space);
          RoomIsWidth(idx, bytes, space);
        } else {
          count := idx;
        }
      }
    }

    // -------------------------------------------------------------- values

    /** The tokens below idx are as they were, and those from idx on are these. */
    ghost predicate Grown(base: seq<Token>, added: seq<Token>)
      requires Valid()
      reads this
    {
      Used() == base + added
    }

    /** Load one member of an object; c is the character that it begins with. */
    method LoadMember(source: Source, c: byte) returns (r: Outcome)
      requires Valid() && source.Valid() && c == Char(source.text, source.next) && !IsSpace(c)
      modifies this, source
      ensures Valid() && source.Valid()
      ensures match ParseMember(source.text, old(source.next))
              case Ok(m, q) => r == Loaded && source.next == q && Grown(old(Used()), TokensMember(m))
              case Err(e) => r == Failed(e) && old(count) <= count && jitsons[..old(count)] == old(Used())
      decreases |source.text| - source.next, 1
    {
      hide ParseValue, ParseString, Tokens;
      ghost var base, t, p := Used(), source.text, source.next;
      if c != 34 {
        return Failed(Invalid);
      }
      var previous := count;
      SkipsNone(t, p);
      r := LoadString(source);
      if r == Loaded {
        ghost var name := ParseString(t, p + 1).v;
        assert Used() == base + StringTokens(name, false);
        var d := source.GetNonspace();
        if d != 58 {
          r := Failed(Invalid);
        } else {
          ghost var q := source.next;
          r := LoadJson(source);
          if r == Loaded {
            ghost var v := ParseValue(t, q).v;
            assert Used() == base + StringTokens(name, false) + Tokens(v);
            assert jitsons[previous] == Used()[previous] == StringTokens(name, false)[0];
            jitsons := jitsons[previous := jitsons[previous].(isKey := true)];
            KeyMarked(base, name, Tokens(v), Used());
          }
        }
      }
      if r.Failed? { assert jitsons[..|base|] == Used()[..|base|] == base; }
    }

    /** The tokens from idx on are an object under construction, with these members so far. */
    ghost predicate ObjectSoFar(base: seq<Token>, idx: nat, ms: seq<Member>)
      requires Valid()
      reads this
    {
      && |base| == idx < count && jitsons[..idx] == base
      && Used() == base + [TObj(|ms|, Size(0))] + TokensMembers(ms)
    }

    /** Load a member of the object at idx and count it. */
    method AddMember(source: Source, idx: nat, c: byte, ghost base: seq<Token>, ghost ms: seq<Member>)
      returns (r: Outcome)
      requires Valid() && source.Valid() && c == Char(source.text, source.next) && !IsSpace(c)
      requires ObjectSoFar(base, idx, ms)
      modifies this, source
      ensures Valid() && source.Valid() && idx < count && jitsons[..idx] == base
      ensures match ParseMember(source.text, old(source.next))
              case Ok(m, q) => r == Loaded && source.next == q && ObjectSoFar(base, idx, ms + [m])
              case Err(e) => r == Failed(e)
      decreases |source.text| - source.next, 2
    {
      hide ParseMember, TokensMember, TokensMembers;
      ghost var m := ParseMember(source.text, source.next);
      r := LoadMember(source, c);
      if r == Loaded {
        MemberPushed(base, ms, m.v, Used());
        Headed(base, TObj(|ms|, Size(0)), TokensMembers(ms + [m.v]), Used());
        jitsons := jitsons[idx := TObj(jitsons[idx].len + 1, jitsons[idx].extent)];
        Reheaded(base, TObj(|ms|, Size(0)), TObj(|ms| + 1, Size(0)), TokensMembers(ms + [m.v]));
        assert jitsons[..idx] == base;
      } else {
        assert jitsons[..idx] == jitsons[..old(count)][..idx] == old(Used())[..idx] == base;
      }
    }

    /** Store the size of the object at idx, whose members have all been loaded. */
    method CloseObject(idx: nat, ghost base: seq<Token>, ghost ms: seq<Member>)
      requires Valid() && ObjectSoFar(base, idx, ms)
      modifies this
      ensures Valid() && idx < count && jitsons[..idx] == base && Grown(base, Tokens(Obj(ms)))
    {
      hide TokensMembers, Tokens;
      Headed(base, TObj(|ms|, Size(0)), TokensMembers(ms), Used());
      jitsons := jitsons[idx := TObj(jitsons[idx].len, Size(count - idx))];
      Reheaded(base, TObj(|ms|, Size(0)), TObj(|ms|, Size(count - idx)), TokensMembers(ms));
      ObjectTokens(ms);
    }

    /** Load the members of the object at idx, the first of which begins with c. */
    method LoadMembers(source: Source, idx: nat, first: byte, ghost base: seq<Token>) returns (r: Outcome)
      requires Valid() && source.Valid() && first == Char(source.text, source.next) && !IsSpace(first)
      requires ObjectSoFar(base, idx, [])
      modifies this, source
      ensures Valid() && source.Valid() && idx < count && jitsons[..idx] == base
      ensures match ParseMembers(source.text, old(source.next))
              case Ok(ms, q) => r == Loaded && source.next == q && Grown(base, Tokens(Obj(ms)))
              case Err(e) => r == Failed(e)
      decreases |source.text| - source.next, 3
    {
      hide ParseMembers, ParseMember, TokensMembers, Tokens, ObjectSoFar;
      ghost var t, start, ms := source.text, source.next, [];
      var c := first;
      AfterNone(ParseMembers(t, start));
      SoFarKeeps(base, idx, ms);
      r := Loaded;
      var more := true;
      while r == Loaded && more
        invariant Valid() && source.Valid() && idx < count && (r == Loaded ==> source.next >= start)
        invariant jitsons[..idx] == base
        invariant r == Loaded ==> ObjectSoFar(base, idx, ms)
        invariant r == Loaded && more ==> c == Char(t, source.next) && !IsSpace(c)
        invariant r == Loaded && more ==> ParseMembers(t, start) == After(ms, ParseMembers(t, source.next))
        invariant r == Loaded && !more ==> ParseMembers(t, start) == if c == 125 then Ok(ms, source.next) else Err(Invalid)
        invariant r.Failed? ==> ParseMembers(t, start) == Err(r.e)
        decreases r == Loaded && more, |t| - source.next
      {
        MembersGoOn(t, source.next, ms);
        ghost var m := ParseMember(t, source.next);
        r := AddMember(source, idx, c, base, ms);
        if r == Loaded {
          ms := ms + [m.v];
          c := source.GetNonspace();
          more := c == 44;
          if more {
            c := source.PeekNonspace();
          }
        }
      }
      if r == Loaded {
        if c != 125 {
          r := Failed(Invalid);
        } else {
          CloseObject(idx, base, ms);
        }
      }
    }

    lemma {:induction false} SoFarKeeps(base: seq<Token>, idx: nat, ms: seq<Member>)
      requires Valid() && ObjectSoFar(base, idx, ms)
      ensures idx < count && jitsons[..idx] == base
    {
    }

    /** Load an object whose opening brace has been taken, into the token at idx. */
    method LoadObject(source: Source, idx: nat) returns (r: Outcome)
      requires Valid() && source.Valid() && count == idx + 1
      modifies this, source
      ensures Valid() && source.Valid() && idx <= count && jitsons[..idx] == old(jitsons)[..idx]
      ensures match ParseObject(source.text, old(source.next))
              case Ok(ms, q) => r == Loaded && source.next == q && Grown(old(jitsons)[..idx], Tokens(Obj(ms)))
              case Err(e) => r == Failed(e)
      decreases |source.text| - source.next, 4
    {
      hide ParseMembers, TokensMembers, Tokens;
      ghost var base := jitsons[..idx];
      jitsons := jitsons[idx := TObj(0, Size(0))];
      NoneSoFar();
      assert Used() == base + [TObj(0, Size(0))] + [];
      var c := source.PeekNonspace();
      if c == 125 {
        source.next := source.next + 1;
        jitsons := jitsons[idx := TObj(0, Size(1))];
        assert Used() == base + [TObj(0, Size(1))];
        r := Loaded;
      } else {
        r := LoadMembers(source, idx, c, base);
      }
    }

    /** The tokens from idx on are an array under construction, with these elements so far. */
    ghost predicate ArraySoFar(base: seq<Token>, idx: nat, es: seq<Value>)
      requires Valid()
      reads this
    {
      && |base| == idx < count && jitsons[..idx] == base
      && Used() == base + [TArr(|es|, Size(0))] + TokensAll(es)
    }

    /** Load an element of the array at idx and count it. */
    method AddElement(source: Source, idx: nat, ghost base: seq<Token>, ghost es: seq<Value>) returns (r: Outcome)
      requires Valid() && source.Valid() && ArraySoFar(base, idx, es)
      modifies this, source
      ensures Valid() && source.Valid() && idx < count && jitsons[..idx] == base
      ensures match ParseValue(source.text, old(source.next))
              case Ok(v, q) => r == Loaded && source.next == q && ArraySoFar(base, idx, es + [v])
              case Err(e) => r == Failed(e)
      decreases |source.text| - source.next, 1
    {
      hide ParseValue, Tokens, TokensAll;
      ghost var v := ParseValue(source.text, source.next);
      r := LoadJson(source);
      if r == Loaded {
        ElementPushed(base, es, v.v, Used());
        Headed(base, TArr(|es|, Size(0)), TokensAll(es + [v.v]), Used());
        jitsons := jitsons[idx := TArr(jitsons[idx].len + 1, jitsons[idx].extent)];
        Reheaded(base, TArr(|es|, Size(0)), TArr(|es| + 1, Size(0)), TokensAll(es + [v.v]));
        assert jitsons[..idx] == base;
      } else {
        assert jitsons[..idx] == Used()[..idx] == base;
      }
    }

    /** Store the size of the array at idx, whose elements have all been loaded. */
    method CloseArray(idx: nat, ghost base: seq<Token>, ghost es: seq<Value>)
      requires Valid() && ArraySoFar(base, idx, es)
      modifies this
      ensures Valid() && idx < count && jitsons[..idx] == base && Grown(base, Tokens(Arr(es)))
    {
      hide TokensAll, Tokens;
      Headed(base, TArr(|es|, Size(0)), TokensAll(es), Used());
      jitsons := jitsons[idx := TArr(jitsons[idx].len, Size(count - idx))];
      Reheaded(base, TArr(|es|, Size(0)), TArr(|es|, Size(count - idx)), TokensAll(es));
      ArrayTokens(es);
    }

    /** Load an array whose opening bracket has been taken, into the token at idx. */
    method LoadArray(source: Source, idx: nat) returns (r: Outcome)
      requires Valid() && source.Valid() && count == idx + 1
      modifies this, source
      ensures Valid() && source.Valid() && idx <= count && jitsons[..idx] == old(jitsons)[..idx]
      ensures match ParseArray(source.text, old(source.next))
              case Ok(es, q) => r == Loaded && source.next == q && Grown(old(jitsons)[..idx], Tokens(Arr(es)))
              case Err(e) => r == Failed(e)
      decreases |source.text| - source.next, 2
    {
      hide ParseElements, ParseValue, TokensAll, Tokens;
      ghost var base, t := jitsons[..idx], source.text;
      jitsons := jitsons[idx := TArr(0, Size(0))];
      NoneSoFar();
      var c := source.PeekNonspace();
      if c == 93 {
        source.next := source.next + 1;
        jitsons := jitsons[idx := TArr(0, Size(1))];
        assert Used() == base + [TArr(0, Size(1))];
        return Loaded;
      }
      ghost var start, es := source.next, [];
      AfterNone(ParseElements(t, start));
      assert Used() == base + [TArr(0, Size(0))] + [];
      r := Loaded;
      c := 44;
      while r == Loaded && c == 44
        invariant Valid() && source.Valid() && idx < count && (r == Loaded ==> source.next >= start)
        invariant jitsons[..idx] == base
        invariant r == Loaded ==> ArraySoFar(base, idx, es)
        invariant r == Loaded && c == 44 ==> ParseElements(t, start) == After(es, ParseElements(t, source.next))
        invariant r == Loaded && c != 44 ==> ParseElements(t, start) == if c == 93 then Ok(es, source.next) else Err(Invalid)
        invariant r.Failed? ==> ParseElements(t, start) == Err(r.e)
        decreases r == Loaded && c == 44, |t| - source.next
      {
        ElementsGoOn(t, source.next, es);
        ghost var v := ParseValue(t, source.next);
        r := AddElement(source, idx, base, es);
        if r == Loaded {
          es := es + [v.v];
          c := source.GetNonspace();
        }
      }
      if r == Loaded {
        if c != 93 {
          r := Failed(Invalid);
        } else {
          CloseArray(idx, base, es);
        }
      }
    }

    /** Load a number or an identifier that begins with c, into the token at idx. */
    method LoadScalar(source: Source, idx: nat, c: byte) returns (r: Outcome)
      requires Valid() && source.Valid() && count == idx + 1
      requires source.next < |source.text| && c == source.text[source.next]
      modifies this, source
      ensures Valid() && source.Valid() && count == idx + 1 && jitsons[..idx] == old(jitsons)[..idx]
      ensures match ParseScalar(source.text, old(source.next))
              case Ok(v, q) => r == Loaded && source.next == q && Used() == old(jitsons)[..idx] + Tokens(v)
              case Err(e) => r == Failed(e)
    {
      hide SkipDigits, SkipIdent;
      var t, token := source.text, source.next;
      if c == 45 || IsDigit(c) {
        var ok, isUint := source.GetNumber();
        if !ok {
          return Failed(Invalid);
        }
        NumberIs(t, token);
        jitsons := jitsons[idx := if isUint then TNum(Strtoul(t[token..source.next])) else TDbl(t[token..source.next])];
        r := Loaded;
      } else if IsAlpha(c) {
        var ident := source.GetIdentifier();
        if ident == TRUE_TEXT {
          jitsons := jitsons[idx := TBool(true)];
          r := Loaded;
        } else if ident == FALSE_TEXT {
          jitsons := jitsons[idx := TBool(false)];
          r := Loaded;
        } else if ident == NULL_TEXT {
          jitsons := jitsons[idx := TNull];
          r := Loaded;
        } else {
          r := Failed(Invalid);
        }
      } else {
        r := Failed(Invalid);
      }
      if r == Loaded { assert Used() == jitsons[..idx] + [jitsons[idx]]; }
    }

    /**
     * Load a value: on success its tokens, and nothing else, are pushed; on failure the
     * stack is as it was.
     */
    method LoadJson(source: Source) returns (r: Outcome)
      requires Valid() && source.Valid()
      modifies this, source
      ensures Valid() && source.Valid()
      ensures match ParseValue(source.text, old(source.next))
              case Ok(v, q) => r == Loaded && source.next == q && Grown(old(Used()), Tokens(v))
              case Err(e) => r == Failed(e) && Used() == old(Used())
      decreases |source.text| - source.next, 0
    {
      hide ParseValue, ParseString, ParseMembers, ParseElements, ParseNumber, ParseConstant, Tokens;
      ghost var base, t, p := Used(), source.text, source.next;
      ValueByCase(t, p);
      var c := source.PeekNonspace();
      if c == 0 {
        return Failed(NoData);
      }
      var idx := Expand(1);
      if c == 34 {
        count := count - 1;
        assert Used() == base;
        SkipsNone(t, source.next);
        r := LoadString(source);
        StringTokensAre();
      } else {
        if c == 123 {
          source.next := source.next + 1;
          r := LoadObject(source, idx);
        } else if c == 91 {
          source.next := source.next + 1;
          r := LoadArray(source, idx);
        } else {
          r := LoadScalar(source, idx, c);
        }
        if r.Failed? {
          count := idx;
        }
      }
    }

    /**
     * Parse a text onto the stack; tells how much of it was used up.  On failure nothing
     * is left on the stack.
     */
    method ParseJson(json: Text) returns (r: Outcome, consumed: nat)
      requires Valid()
      modifies this
      ensures Valid()
      ensures match ParseValue(json, 0)
              case Ok(v, q) => r == Loaded && consumed == q && Grown(old(Used()), Tokens(v))
              case Err(e) => r == Failed(e) && Used() == old(Used())
    {
      hide ParseValue, Tokens;
      var source := new Source(json);
      r := LoadJson(source);
      consumed := source.next;
    }
  }

  lemma {:induction false} StringTokensAre()
    ensures forall s :: Tokens(Str(s)) == StringTokens(s, false)
  {
  }

  function ParseObject(t: Text, p: nat): (r: Parsed<seq<Member>>)
    requires p <= |t|
    ensures r.Ok? ==> p < r.q <= |t|
  {
    var f := SkipSpace(t, p);
    if Char(t, f) == 125 then Ok([], f + 1) else ParseMembers(t, f)
  }

  function ParseArray(t: Text, p: nat): (r: Parsed<seq<Value>>)
    requires p <= |t|
    ensures r.Ok? ==> p < r.q <= |t|
  {
    var f := SkipSpace(t, p);
    if Char(t, f) == 93 then Ok([], f + 1) else ParseElements(t, f)
  }

  function ParseScalar(t: Text, p: nat): (r: Parsed<Value>)
    requires p < |t|
    ensures r.Ok? ==> p < r.q <= |t|
  {
    if t[p] == 45 || IsDigit(t[p]) then ParseNumber(t, p)
    else if IsAlpha(t[p]) then ParseConstant(t, p)
    else Err(Invalid)
  }

  function AsString(r: Parsed<Text>): Parsed<Value> {
    match r case Err(e) => Err(e) case Ok(x, q) => Ok(Str(x), q)
  }

  function AsObject(r: Parsed<seq<Member>>): Parsed<Value> {
    match r case Err(e) => Err(e) case Ok(ms, q) => Ok(Obj(ms), q)
  }

  function AsArray(r: Parsed<seq<Value>>): Parsed<Value> {
    match r case Err(e) => Err(e) case Ok(es, q) => Ok(Arr(es), q)
  }

  /** How a value is parsed, by the first character that is no space. */
  lemma {:induction false} ValueByCase(t: Text, p: nat)
    requires p <= |t|
    ensures var s := SkipSpace(t, p);
            var c := Char(t, s);
            && (c == 0 ==> ParseValue(t, p) == Err(NoData))
            && (c == 34 ==> ParseValue(t, p) == AsString(ParseString(t, s + 1)))
            && (c == 123 ==> ParseValue(t, p) == AsObject(ParseObject(t, s + 1)))
            && (c == 91 ==> ParseValue(t, p) == AsArray(ParseArray(t, s + 1)))
            && (c != 0 && c != 34 && c != 123 && c != 91 ==> ParseValue(t, p) == ParseScalar(t, s))
  {
    hide ParseNumber, ParseConstant, ParseString, ParseMembers, ParseElements;
  }

  /** The number that strtoul makes of a row of digits, when it is one. */
  function Strtoul(s: Text): nat {
    if forall i :: 0 <= i < |s| ==> IsDigit(s[i]) then Saturated(Decimal(s)) else 0
  }

  lemma {:induction false} NumberIs(t: Text, p: nat)
    requires p < |t| && ParseNumber(t, p).Ok?
    ensures var r := ParseNumber(t, p);
            r.v == if r.v.Num? then Num(Strtoul(t[p..r.q])) else Dbl(t[p..r.q])
  {
    hide Decimal, Saturated;
  }

  /** Marking a name as a key turns what was pushed into the tokens of a member. */
  lemma {:induction false} KeyMarked(base: seq<Token>, name: Text, value: seq<Token>, now: seq<Token>)
    requires |now| == |base| + StringWidth(|name|) + |value|
    requires var was := base + StringTokens(name, false) + value;
             now == was[|base| := was[|base|].(isKey := true)]
    ensures now == base + StringTokens(name, true) + value
  {
  }

  lemma {:induction false} NoneSoFar()
    ensures TokensMembers([]) == [] && Tokens(Obj([])) == [TObj(0, Size(1))]
    ensures TokensAll([]) == [] && Tokens(Arr([])) == [TArr(0, Size(1))]
  {
  }

  lemma {:induction false} ObjectTokens(ms: seq<Member>)
    ensures Tokens(Obj(ms)) == [TObj(|ms|, Size(1 + |TokensMembers(ms)|))] + TokensMembers(ms)
  {
  }

  lemma {:induction false} ArrayTokens(es: seq<Value>)
    ensures Tokens(Arr(es)) == [TArr(|es|, Size(1 + |TokensAll(es)|))] + TokensAll(es)
  {
  }

  lemma {:induction false} Headed(base: seq<Token>, x: Token, rest: seq<Token>, now: seq<Token>)
    requires now == base + [x] + rest
    ensures now[|base|] == x && now[..|base|] == base && |now| == |base| + 1 + |rest|
  {
  }

  /** Replacing the token at the head of a collection. */
  lemma {:induction false} Reheaded(base: seq<Token>, x: Token, y: Token, rest: seq<Token>)
    ensures (base + [x] + rest)[|base| := y] == base + ([y] + rest) == base + [y] + rest
  {
  }

  lemma {:induction false} MemberPushed(base: seq<Token>, ms: seq<Member>, m: Member, now: seq<Token>)
    requires now == base + [TObj(|ms|, Size(0))] + TokensMembers(ms) + TokensMember(m)
    ensures now == base + [TObj(|ms|, Size(0))] + TokensMembers(ms + [m])
  {
    TokensMembersSplit(ms, [m]);
    OneMember(m);
    hide TokensMembers, TokensMember;
  }

  lemma {:induction false} OneMember(m: Member)
    ensures TokensMembers([m]) == TokensMember(m)
  {
    assert TokensMembers([m]) == TokensMember(m) + TokensMembers([]);
  }

  lemma {:induction false} ElementPushed(base: seq<Token>, es: seq<Value>, v: Value, now: seq<Token>)
    requires now == base + [TArr(|es|, Size(0))] + TokensAll(es) + Tokens(v)
    ensures now == base + [TArr(|es|, Size(0))] + TokensAll(es + [v])
  {
    hide Tokens;
    TokensAllSplit(es, [v]);
    assert TokensAll([v]) == Tokens(v) by { assert [v][1..] == [] && Tokens(v) + [] == Tokens(v); }
    Sequences.Regroup(base + [TArr(|es|, Size(0))], TokensAll(es), Tokens(v));
  }
}
