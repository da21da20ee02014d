// Printing values from their tokens.
module JitsonPrinting {
  import opened Bytes
  import opened SxeUnicode
  import opened JsonText
  import opened JsonPrint
  import opened JsonMeaning
  import opened CStrings
  import opened JitsonTokens
  import opened JitsonRows
  import opened Jitson
  import opened JitsonStack

  // ---------------------------------------------------------------- text built from the front

  /** The text of elements with a comma after each. */
  function Commas(es: seq<Value>): Text {
    if es == [] then [] else Build(es[0]) + [44] + Commas(es[1..])
  }

  lemma {:induction false} CommasMore(es: seq<Value>, v: Value)
    ensures Commas(es + [v]) == Commas(es) + Build(v) + [44]
  {
    if es == [] {
      assert es + [v] == [v] && [v][1..] == [];
    } else {
      assert (es + [v])[1..] == es[1..] + [v];
      CommasMore(es[1..], v);
    }
  }

  lemma {:induction false} CommasThenLast(es: seq<Value>)
    requires es != []
    ensures BuildElements(es) == Commas(es[..|es| - 1]) + Build(es[|es| - 1])
  {
    if |es| == 1 {
      assert es[..0] == [];
    } else {
      CommasThenLast(es[1..]);
      assert es[..|es| - 1][1..] == es[1..][..|es[1..]| - 1];
    }
  }

  /** The text of members with commas between them. */
  function Between(ms: seq<Member>): Text {
    if ms == [] then [] else BuildMembers(ms)
  }

  lemma {:induction false} BetweenMore(ms: seq<Member>, m: Member)
    ensures Between(ms + [m]) == Between(ms) + (if ms == [] then [] else [44]) + BuildMember(m)
  {
    if ms == [] {
      assert ms + [m] == [m];
    } else {
      assert (ms + [m])[1..] == ms[1..] + [m];
      BetweenMore(ms[1..], m);
      if |ms| == 1 { assert ms[1..] == []; }
    }
  }

  lemma {:induction false} InBucketMore(h: Hasher, ms: seq<Member>, m: Member, n: nat, b: nat)
    requires n > 0
    ensures InBucket(h, ms + [m], n, b) == (if h(m.name) % n == b then [m] else []) + InBucket(h, ms, n, b)
  {
    if ms == [] {
      assert ms + [m] == [m] && [m][1..] == [];
    } else {
      assert (ms + [m])[1..] == ms[1..] + [m];
      InBucketMore(h, ms[1..], m, n, b);
    }
  }

  /** The bucket of the first m members begins with the last of them that is in it. */
  lemma {:induction false} BucketBegins(h: Hasher, ms: seq<Member>, sm: seq<Member>, b: nat, m: nat)
    requires m <= |ms| == |sm| && |ms| > 0 && forall i :: 0 <= i < |ms| ==> sm[i].name == ms[i].name
    ensures var k := LastIn(h, ms, b, m);
            InBucket(h, sm[..m], |ms|, b) == if k < 0 then [] else [sm[k]] + InBucket(h, sm[..k], |ms|, b)
  {
    if m > 0 {
      assert sm[..m] == sm[..m - 1] + [sm[m - 1]];
      InBucketMore(h, sm[..m - 1], sm[m - 1], |ms|, b);
      assert h(sm[m - 1].name) % |ms| == Bucket(h, ms, m - 1);
      BucketBegins(h, ms, sm, b, m - 1);
    }
  }

  lemma {:induction false} FromBucketIs(h: Hasher, ms: seq<Member>, n: nat, b: nat)
    requires b < n
    ensures FromBucket(h, ms, n, b) == InBucket(h, ms, n, b) + FromBucket(h, ms, n, b + 1)
  {
  }

  lemma {:induction false} EscapeAllMore(s: Text, c: byte)
    ensures EscapeAll(s + [c]) == EscapeAll(s) + Escape(c)
  {
    if s == [] {
      assert s + [c] == [c] && [c][1..] == [];
    } else {
      assert (s + [c])[1..] == s[1..] + [c];
      EscapeAllMore(s[1..], c);
    }
  }

  /** Print a string: stretches of plain characters are copied, others are escaped. */
  method BuildString(s: Text) returns (out: Text)
    ensures out == Quote(s)
  {
    hide EscapeAll, Escape;
    out := [34];
    var first, i := 0, 0;
    assert s[..0] == [];
    NothingEscaped();
    while i < |s|
      invariant first <= i <= |s|
      invariant out + s[first..i] == [34] + EscapeAll(s[..i])
    {
      EscapeAllMore(s[..i], s[i]);
      EscapeIs(s[i]);
      assert s[..i + 1] == s[..i] + [s[i]];
      CopyOrEscape(out, s, first, i);
      if s[i] <= 0x1f || s[i] == 34 || s[i] == 92 {
        if first < i {
          out := out + s[first..i];
        } else {
          assert out == out + s[first..i];
        }
        out := out + [92, 117, 48, 48, HexLetter(s[i] / 16), HexLetter(s[i] % 16)];
        first := i + 1;
      }
      i := i + 1;
    }
    assert s[..i] == s;
    if first < |s| {
      out := out + s[first..];
    } else {
      assert out == out + s[first..i];
    }
    out := out + [34];
  }

  /** One character more: it is added to the stretch, or the stretch and its escape are added to the text. */
  lemma {:induction false} CopyOrEscape(out: Text, s: Text, first: nat, i: nat)
    requires first <= i < |s| && out + s[first..i] == [34] + EscapeAll(s[..i])
    ensures out + s[first..i + 1] == [34] + (EscapeAll(s[..i]) + [s[i]])
    ensures out + s[first..i] + Escape(s[i]) + s[i + 1..i + 1] == [34] + (EscapeAll(s[..i]) + Escape(s[i]))
  {
    hide EscapeAll, Escape;
    assert s[first..i + 1] == s[first..i] + [s[i]];
    assert out + s[first..i + 1] == (out + s[first..i]) + [s[i]];
  }

  lemma {:induction false} NothingEscaped()
    ensures EscapeAll([]) == []
  {
  }

  lemma {:induction false} EscapeIs(c: byte)
    ensures Escape(c) == if c <= 0x1f || c == 34 || c == 92 then [92, 117, 48, 48, HexLetter(c / 16), HexLetter(c % 16)] else [c]
  {
  }

  // ---------------------------------------------------------------- values

  lemma {:induction false} TokenIs(mem: Memory, i: nat, v: Value)
    requires mem.Row(i, v)
    ensures i < |mem.tokens|
    ensures match v
            case Null => mem.tokens[i] == TNull
            case Bool(b) => mem.tokens[i] == TBool(b)
            case Num(n) => mem.tokens[i] == TNum(n)
            case Dbl(text) => mem.tokens[i] == TDbl(text)
            case Str(x) => mem.tokens[i] == TStr(x, |x|, false)
            case Arr(es) => mem.tokens[i].TArr? && mem.tokens[i].len == |es|
            case Obj(ms) => mem.tokens[i].TObj? && mem.tokens[i].len == |ms|
  {
  }

  /** Print a value from its tokens; objects that have no index get one. */
  method BuildJson(mem: Memory, i: nat, ghost v: Value) returns (out: Text)
    requires mem.Row(i, v) && Exact(v)
    modifies mem
    ensures mem.Row(i, v) && OnlyWithin(old(mem.tokens), mem.tokens, i, Width(v))
    ensures out == Printed(mem.hash, v)
    decreases v, 2
  {
    TokenIs(mem, i, v);
    ExactIsNoDouble(v);
    hide Memory.Row, Exact, Width, BuildElements, BuildMembers;
    match mem.tokens[i] {
      case TNull =>
        out := NULL_TEXT;
        NothingChanged(mem.tokens, i, Width(v));
      case TBool(b) =>
        out := if b then TRUE_TEXT else FALSE_TEXT;
        NothingChanged(mem.tokens, i, Width(v));
      case TNum(n) =>
        out := Digits(n);
        NothingChanged(mem.tokens, i, Width(v));
      case TStr(x, len, isKey) =>
        out := BuildString(x);
        NothingChanged(mem.tokens, i, Width(v));
      case TArr(len, extent) =>
        out := BuildArray(mem, i, v.es);
      case TObj(len, extent) =>
        out := BuildObject(mem, i, v.ms);
      case _ =>
        out := [];
        assert false;
    }
  }

  lemma {:induction false} ExactIsNoDouble(v: Value)
    requires Exact(v)
    ensures !v.Dbl?
  {
  }

  /** Print an element of an array; the array stays one. */
  method BuildElement(mem: Memory, i: nat, k: nat, ghost es: seq<Value>) returns (out: Text)
    requires mem.Row(i, Arr(es)) && k < |es| && Exact(es[k])
    modifies mem
    ensures mem.Row(i, Arr(es)) && OnlyWithin(old(mem.tokens), mem.tokens, i, Width(Arr(es)))
    ensures out == Printed(mem.hash, es[k])
    decreases es, 0
  {
    hide Rep, ElementAt, Printed, Exact;
    var p := mem.GetElement(i, k, es);
    ghost var s, w := mem.tokens, Width(Arr(es));
    out := BuildJson(mem, p, es[k]);
    ElementRow(mem.hash, Part(s, i, w), es, k);
    WithinPart(s, mem.tokens, i, w, ElementAt(es, k), Width(es[k]));
    PartOfPart(mem.tokens, i, w, ElementAt(es, k), Width(es[k]));
    ReplaceElement(mem.hash, Part(s, i, w), Part(mem.tokens, i, w), es, k);
    WithinTrans(old(mem.tokens), s, mem.tokens, i, w);
  }

  method BuildArray(mem: Memory, i: nat, ghost es: seq<Value>) returns (out: Text)
    requires mem.Row(i, Arr(es)) && Exact(Arr(es))
    modifies mem
    ensures mem.Row(i, Arr(es)) && OnlyWithin(old(mem.tokens), mem.tokens, i, Width(Arr(es)))
    ensures out == Printed(mem.hash, Arr(es))
    decreases es, 1
  {
    hide Memory.Row, Width, Build, BuildElements, Commas, OnlyWithin, Printed, Shuffled, ShuffledAll;
    TokenIs(mem, i, Arr(es));
    ghost var r := ShuffledAll(mem.hash, es);
    ghost var w := Width(Arr(es));
    NothingChanged(mem.tokens, i, w);
    PrintedArray(mem.hash, es);
    ArrayText(r);
    NothingBetween();
    out := [91];
    var len := mem.tokens[i].len;
    if len > 0 {
      var k := 0;
      assert r[..0] == [];
      while k < len - 1
        invariant k <= len - 1 && len == |es| == |r|
        invariant mem.Row(i, Arr(es)) && OnlyWithin(old(mem.tokens), mem.tokens, i, w)
        invariant out == [91] + Commas(r[..k])
      {
        ghost var was := mem.tokens;
        var one := BuildElement(mem, i, k, es);
        WithinTrans(old(mem.tokens), was, mem.tokens, i, w);
        out := out + one + [44];
        PrintedElement(mem.hash, es, k);
        CommasMore(r[..k], r[k]);
        assert r[..k + 1] == r[..k] + [r[k]];
        k := k + 1;
      }
      ghost var was := mem.tokens;
      var one := BuildElement(mem, i, len - 1, es);
      WithinTrans(old(mem.tokens), was, mem.tokens, i, w);
      out := out + one;
      PrintedElement(mem.hash, es, len - 1);
    }
    out := out + [93];
  }

  lemma {:induction false} PrintedArray(h: Hasher, es: seq<Value>)
    ensures Printed(h, Arr(es)) == Build(Arr(ShuffledAll(h, es)))
  {
  }

  lemma {:induction false} PrintedElement(h: Hasher, es: seq<Value>, k: nat)
    requires k < |es|
    ensures Printed(h, es[k]) == Build(ShuffledAll(h, es)[k])
  {
    ShuffledAt(h, es, k);
  }

  lemma {:induction false} EmptyArrayText()
    ensures Build(Arr([])) == [91] + [93]
  {
  }

  /** The text of an array. */
  lemma {:induction false} ArrayText(r: seq<Value>)
    ensures Build(Arr(r)) == if r == [] then [91] + [93] else [91] + Commas(r[..|r| - 1]) + Build(r[|r| - 1]) + [93]
  {
    assert r != [] ==> Build(Arr(r)) == [91] + BuildElements(r) + [93];
    hide Build, BuildElements, Commas;
    if r != [] {
      CommasThenLast(r);
      assert Build(Arr(r)) == [91] + (Commas(r[..|r| - 1]) + Build(r[|r| - 1])) + [93];
    } else {
      EmptyArrayText();
    }
  }

  lemma {:induction false} ObjectText(r: seq<Member>)
    ensures Build(Obj(r)) == [123] + Between(r) + [125]
  {
  }

  lemma {:induction false} MemberText(h: Hasher, m: Member)
    ensures BuildMember(Member(Cut(m.name), Shuffled(h, m.value))) == Quote(Cut(m.name)) + [58] + Printed(h, m.value)
  {
  }

  /** Print the member of an object whose key is at a place; the object stays one. */
  method BuildMemberAt(mem: Memory, i: nat, at: nat, ghost k: nat, ghost ms: seq<Member>) returns (out: Text, link: nat)
    requires mem.Row(i, Obj(ms)) && k < |ms| && Exact(ms[k].value) && at == KeyAt(ms, k)
    requires i < |mem.tokens| && mem.tokens[i].TObj? && mem.tokens[i].extent.Index?
    modifies mem
    ensures mem.Row(i, Obj(ms)) && OnlyWithin(old(mem.tokens), mem.tokens, i, Width(Obj(ms)))
    ensures i < |mem.tokens| && mem.tokens[i] == old(mem.tokens)[i]
    ensures out == BuildMember(Member(Cut(ms[k].name), Shuffled(mem.hash, ms[k].value)))
    ensures link == LinkTo(mem.hash, ms, Bucket(mem.hash, ms, k), k)
    decreases ms, 0
  {
    hide Rep, KeyAt, ValueAt, Printed, Exact, LinkTo, Memory.Linking, BuildMember;
    ghost var s, w := mem.tokens, Width(Obj(ms));
    mem.IndexedIsLinked(i, ms);
    mem.KeyIs(i, ms, |ms|, k);
    mem.ValueIs(i, ms, |ms|, k);
    ValueInside(mem, i, ms, k);
    ValuePlace(ms, k);
    var t := mem.tokens[i + at];
    out := BuildString(t.bytes[..StringLen(t)]);
    link := t.len;
    var value := BuildJson(mem, i + at + TokenSize(t), ms[k].value);
    out := out + [58] + value;
    MemberText(mem.hash, ms[k]);
    WithinPart(s, mem.tokens, i, w, ValueAt(ms, k), Width(ms[k].value));
    PartOfPart(mem.tokens, i, w, ValueAt(ms, k), Width(ms[k].value));
    ReplaceValue(mem.hash, Part(s, i, w), Part(mem.tokens, i, w), ms, k);
  }

  lemma {:induction false} ValueInside(mem: Memory, i: nat, ms: seq<Member>, k: nat)
    requires mem.Row(i, Obj(ms)) && k < |ms|
    ensures 0 < ValueAt(ms, k) && ValueAt(ms, k) + Width(ms[k].value) <= Width(Obj(ms))
  {
    MembersRow(mem.hash, Part(mem.tokens, i, Width(Obj(ms))), ms, k);
  }

  method BuildObject(mem: Memory, i: nat, ghost ms: seq<Member>) returns (out: Text)
    requires mem.Row(i, Obj(ms)) && Exact(Obj(ms))
    modifies mem
    ensures mem.Row(i, Obj(ms)) && OnlyWithin(old(mem.tokens), mem.tokens, i, Width(Obj(ms)))
    ensures out == Printed(mem.hash, Obj(ms))
    decreases ms, 2
  {
    hide Memory.Row, Width, Build, BuildMembers, Between, OnlyWithin, FromBucket, LastSeen;
    TokenIs(mem, i, Obj(ms));
    ghost var r, w := ShuffledMembers(mem.hash, ms), Width(Obj(ms));
    NothingChanged(mem.tokens, i, w);
    ObjectText(CutAll(Ordered(mem.hash, r)));
    if mem.tokens[i].len == 0 {
      NoMembersText();
      return [123, 125];
    }
    if mem.tokens[i].extent.Size? {
      var none := mem.GetMember(i, [], ms);
    }
    TokenIs(mem, i, Obj(ms));
    ghost var was := mem.tokens;
    out := BuildBuckets(mem, i, ms);
    WithinTrans(old(mem.tokens), was, mem.tokens, i, w);
    out := [123] + out + [125];
  }

  lemma {:induction false} NoMembersText()
    ensures [123] + Between([]) + [125] == [123, 125]
  {
  }

  /** Print the members of an indexed object, bucket by bucket. */
  method BuildBuckets(mem: Memory, i: nat, ghost ms: seq<Member>) returns (out: Text)
    requires mem.Row(i, Obj(ms)) && Exact(Obj(ms)) && ms != []
    requires i < |mem.tokens| && mem.tokens[i].TObj? && mem.tokens[i].len == |ms| && mem.tokens[i].extent.Index?
    modifies mem
    ensures mem.Row(i, Obj(ms)) && OnlyWithin(old(mem.tokens), mem.tokens, i, Width(Obj(ms)))
    ensures out == Between(CutAll(Ordered(mem.hash, ShuffledMembers(mem.hash, ms))))
    decreases ms, 1
  {
    hide Memory.Row, Width, BuildMember, Between, OnlyWithin, FromBucket, InBucket, Printed, LinkTo;
    ghost var h := mem.hash;
    ghost var n, r, w := |ms|, ShuffledMembers(h, ms), Width(Obj(ms));
    NothingChanged(mem.tokens, i, w);
    mem.ObjectToken(i, ms);
    var root := mem.tokens[i];
    ghost var done: seq<Member> := [];
    NothingBetween();
    out := [];
    var b, first := 0, true;
    while b < root.len
      invariant b <= root.len == n && i < |mem.tokens| && mem.tokens[i] == root && first == (done == [])
      invariant mem.Row(i, Obj(ms)) && OnlyWithin(old(mem.tokens), mem.tokens, i, w)
      invariant out == Between(CutAll(done))
      invariant done + FromBucket(h, r, n, b) == FromBucket(h, r, n, 0)
    {
      var at := root.extent.ix[b];
      ghost var m: nat := n;
      FromBucketIs(h, r, n, b);
      assert r[..m] == r;
      while at != 0
        invariant m <= n && i < |mem.tokens| && mem.tokens[i] == root && first == (done == [])
        invariant mem.Row(i, Obj(ms)) && OnlyWithin(old(mem.tokens), mem.tokens, i, w)
        invariant out == Between(CutAll(done)) && at == LinkTo(h, ms, b, m)
        invariant done + (InBucket(h, r[..m], n, b) + FromBucket(h, r, n, b + 1)) == FromBucket(h, r, n, 0)
        decreases m
      {
        LinkedKey(h, ms, b, m);
        ghost var k: nat := LastIn(h, ms, b, m);
        BucketBegins(h, ms, r, b, m);
        ShuffledMemberAt(h, ms, k);
        CutMore(done, r[k]);
        BetweenMore(CutAll(done), Member(Cut(r[k].name), r[k].value));
        if !first {
          out := out + [44];
        }
        ghost var was := mem.tokens;
        var one;
        one, at := BuildMemberAt(mem, i, at, k, ms);
        WithinTrans(old(mem.tokens), was, mem.tokens, i, w);
        out := out + one;
        Shift(done, r[k], InBucket(h, r[..k], n, b), FromBucket(h, r, n, b + 1));
        done := done + [r[k]];
        first := false;
        m := k;
      }
      LinkedKey(h, ms, b, m);
      BucketBegins(h, ms, r, b, m);
      assert done + ([] + FromBucket(h, r, n, b + 1)) == done + FromBucket(h, r, n, b + 1);
      b := b + 1;
    }
    BucketsEnd(h, r, n);
    assert done + [] == done;
  }

  lemma {:induction false} CutMore(done: seq<Member>, m: Member)
    ensures CutAll(done + [m]) == CutAll(done) + [Member(Cut(m.name), m.value)]
    ensures CutAll(done) == [] <==> done == []
  {
    var a, b := CutAll(done + [m]), CutAll(done) + [Member(Cut(m.name), m.value)];
    forall i | 0 <= i < |a| ensures a[i] == b[i] { if i < |done| { assert (done + [m])[i] == done[i]; } }
  }

  lemma {:induction false} NothingBetween()
    ensures CutAll([]) == [] && Between([]) == [] && Commas([]) == []
  {
  }

  lemma {:induction false} BucketsEnd(h: Hasher, r: seq<Member>, n: nat)
    requires n > 0
    ensures FromBucket(h, r, n, n) == []
  {
  }

  lemma {:induction false} Shift(done: seq<Member>, m: Member, a: seq<Member>, b: seq<Member>)
    ensures done + (([m] + a) + b) == (done + [m]) + (a + b)
  {
  }

  /**
   * Without zero bytes in names, the member that is found by name is the one that counts when
   * the object is read as a map.
   */
  lemma {:induction false} FoundMemberCounts(h: Hasher, ms: seq<Member>, name: Text)
    requires NulFreeMembers(ms)
    ensures name in MeanMembers(ms) <==> LastSeen(h, ms, name, |ms|) >= 0
    ensures var k := LastSeen(h, ms, name, |ms|); k >= 0 ==> MeanMembers(ms)[name] == Mean(ms[k].value)
  {
    LastSeenIsNamed(h, ms, name, |ms|);
    hide MeanMembers, Mean, LastSeen;
    var j := LastCounts(ms, name);
    var k := LastNamed(ms, name, |ms|);
  }

  /**
   * Print a value and parse what was printed: the tokens pushed are those of an equal value if
   * and only if first and last members match.
   */
  method Reparse(mem: Memory, i: nat, ghost v: Value) returns (text: Text, stack: Stack)
    requires mem.Row(i, v) && Exact(v)
    modifies mem
    ensures mem.Row(i, v) && OnlyWithin(old(mem.tokens), mem.tokens, i, Width(v))
    ensures text == Printed(mem.hash, v) && ParseValue(text, 0).Ok?
    ensures stack.Valid() && stack.Used() == Tokens(ParseValue(text, 0).v)
    ensures Mean(ParseValue(text, 0).v) == Mean(v) <==> FirstsMatch(mem.hash, v)
    ensures NulFreeNames(v) ==> Mean(ParseValue(text, 0).v) == MeanFirst(v)
  {
    hide ParseValue, Tokens, Mean, MeanFirst, FirstsMatch, Printed, Exact, Shuffled, Memory.Row;
    text := BuildJson(mem, i, v);
    RoundTrip(mem.hash, v);
    stack := new Stack(1);
    var r, consumed := stack.ParseJson(text);
    assert [] + Tokens(ParseValue(text, 0).v) == Tokens(ParseValue(text, 0).v);
  }

  /** Values without doubles, repeated names and zero bytes in names come back from their tokens, for any hash function. */
  lemma {:induction false} PlainNamesComeBack(h: Hasher, v: Value)
    requires Exact(v) && DistinctNames(v) && NulFreeNames(v)
    ensures KeySizesOk(v) && FirstsMatch(h, v)
    ensures Rep(h, Tokens(v), v)
    ensures ParseValue(Printed(h, v), 0).Ok? && Mean(ParseValue(Printed(h, v), 0).v) == Mean(v)
  {
    NulFreeSizesOk(v);
    DistinctNamesMatch(h, v);
    hide Exact, DistinctNames, NulFreeNames, KeySizesOk, FirstsMatch, Rep, Mean, MeanFirst, ParseValue;
    TokensRep(h, v);
    RoundTrip(h, v);
  }

  /**
   * Parse a text, print what was parsed, and parse that: the tokens pushed in the end are those of
   * an equal value if and only if first and last members match, as they do without repeated names
   * and zero bytes in names.
   */
  method ParsePrintParse(json: Text, hash: Hasher) returns (r: Outcome, text: Text, stack: Stack)
    requires var p := ParseValue(json, 0); p.Ok? ==> Exact(p.v) && KeySizesOk(p.v)
    ensures match ParseValue(json, 0)
            case Err(e) => r == Failed(e)
            case Ok(v, q) =>
              && r == Loaded && text == Printed(hash, v) && ParseValue(text, 0).Ok?
              && stack.Valid() && stack.Used() == Tokens(ParseValue(text, 0).v)
              && (Mean(ParseValue(text, 0).v) == Mean(v) <==> FirstsMatch(hash, v))
              && (DistinctNames(v) && NulFreeNames(v) ==> Mean(ParseValue(text, 0).v) == Mean(v))
  {
    hide ParseValue, Tokens, Mean, MeanFirst, FirstsMatch, Printed, Exact, Rep, KeySizesOk, NulFreeNames, DistinctNames;
    text := [];
    stack := new Stack(1);
    var consumed;
    r, consumed := stack.ParseJson(json);
    if r == Loaded {
      ghost var v := ParseValue(json, 0).v;
      assert [] + Tokens(v) == Tokens(v);
      TokensRep(hash, v);
      if DistinctNames(v) && NulFreeNames(v) { PlainNamesComeBack(hash, v); }
      var mem := new Memory(hash, stack.jitsons[..stack.count]);
      assert Part(mem.tokens, 0, Width(v)) == mem.tokens;
      text, stack := Reparse(mem, 0, v);
    }
  }
}
