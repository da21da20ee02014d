module JsonGrammar {
  // JSON text after section 2 of RFC 8259, written down without the parser: strings,
  // numbers and words, put together to arrays and objects with whitespace between all
  // tokens.  The parser takes exactly these texts and gives what they mean.

  import opened Bytes
  import opened JsonText
  import opened JsonPrint
  import opened JsonLexemes

  datatype Form = Lex(x: Lexeme) | Array(gap: Text, items: seq<Item>) | Object(gap: Text, entries: seq<Entry>)

  /** A value with whitespace around it. */
  datatype Item = Item(before: Text, form: Form, after: Text)

  /** A member of an object: a name with whitespace around it, and a value. */
  datatype Entry = Entry(start: Text, name: seq<Piece>, stop: Text, item: Item)

  /** Space, tab, line feed, vertical tab, form feed and carriage return are whitespace. */
  predicate IsGap(g: Text) {
    forall i :: 0 <= i < |g| ==> g[i] in {32, 9, 10, 11, 12, 13}
  }

  predicate FormOk(f: Form)
    decreases f
  {
    match f
    case Lex(x) => LexemeOk(x)
    case Array(gap, items) => IsGap(gap) && forall i :: 0 <= i < |items| ==> ItemOk(items[i])
    case Object(gap, entries) => IsGap(gap) && forall i :: 0 <= i < |entries| ==> EntryOk(entries[i])
  }

  predicate ItemOk(m: Item)
    decreases m
  {
    IsGap(m.before) && FormOk(m.form) && IsGap(m.after)
  }

  predicate EntryOk(e: Entry)
    decreases e
  {
    IsGap(e.start) && PiecesOk(e.name) && IsGap(e.stop) && ItemOk(e.item)
  }

  /** What a form looks like; without elements or members there may be whitespace between the brackets. */
  function FormText(f: Form): Text
    requires FormOk(f)
    decreases f
  {
    match f
    case Lex(x) => LexemeText(x)
    case Array(gap, items) => if items == [] then ['[' as int] + gap + [']' as int] else ['[' as int] + (ItemsText(items) + [']' as int])
    case Object(gap, entries) =>
      if entries == [] then ['{' as int] + gap + ['}' as int] else ['{' as int] + (EntriesText(entries) + ['}' as int])
  }

  function ItemText(m: Item): Text
    requires ItemOk(m)
    decreases m
  {
    m.before + FormText(m.form) + m.after
  }

  function ItemsText(items: seq<Item>): Text
    requires items != [] && forall i :: 0 <= i < |items| ==> ItemOk(items[i])
    decreases items
  {
    if |items| == 1 then ItemText(items[0]) else ItemText(items[0]) + [',' as int] + ItemsText(items[1..])
  }

  function NameText(e: Entry): Text
    requires EntryOk(e)
  {
    e.start + LexemeText(Quoted(e.name)) + e.stop
  }

  function EntryText(e: Entry): Text
    requires EntryOk(e)
    decreases e
  {
    NameText(e) + [':' as int] + ItemText(e.item)
  }

  function EntriesText(entries: seq<Entry>): Text
    requires entries != [] && forall i :: 0 <= i < |entries| ==> EntryOk(entries[i])
    decreases entries
  {
    if |entries| == 1 then EntryText(entries[0]) else EntryText(entries[0]) + [',' as int] + EntriesText(entries[1..])
  }

  /** What a form means, which is the same whatever whitespace it holds. */
  function FormMeans(f: Form): Value
    requires FormOk(f)
    decreases f
  {
    match f
    case Lex(x) => LexemeMeans(x)
    case Array(_, items) => Arr(ItemsMean(items))
    case Object(_, entries) => Obj(EntriesMean(entries))
  }

  function ItemMeans(m: Item): Value
    requires ItemOk(m)
    decreases m
  {
    FormMeans(m.form)
  }

  function ItemsMean(items: seq<Item>): seq<Value>
    requires forall i :: 0 <= i < |items| ==> ItemOk(items[i])
    decreases items
  {
    if items == [] then [] else [ItemMeans(items[0])] + ItemsMean(items[1..])
  }

  function EntryMeans(e: Entry): Member
    requires EntryOk(e)
    decreases e
  {
    Member(PiecesMean(e.name), ItemMeans(e.item))
  }

  function EntriesMean(entries: seq<Entry>): seq<Member>
    requires forall i :: 0 <= i < |entries| ==> EntryOk(entries[i])
    decreases entries
  {
    if entries == [] then [] else [EntryMeans(entries[0])] + EntriesMean(entries[1..])
  }

  // ---------------------------------------------------------------- whitespace

  lemma {:induction false} SkipsAll(t: Text, p: nat, q: nat)
    requires p <= q <= |t| && (forall i :: p <= i < q ==> IsSpace(t[i])) && !IsSpace(Char(t, q))
    ensures SkipSpace(t, p) == q
    decreases q - p
  {
    if p < q { SkipsAll(t, p + 1, q); }
  }

  lemma {:induction false} GapSkips(t: Text, p: nat, g: Text)
    requires p <= |t| && IsGap(g) && Found(t, p, g) && !IsSpace(Char(t, p + |g|))
    ensures SkipSpace(t, p) == p + |g|
  {
    FoundChars(t, p, g);
    forall i | p <= i < p + |g| ensures IsSpace(t[i]) { assert Char(t, p + (i - p)) == g[i - p]; }
    SkipsAll(t, p, p + |g|);
  }

  lemma {:induction false} GapIs(t: Text, p: nat)
    requires p <= |t|
    ensures var q := SkipSpace(t, p); IsGap(t[p..q]) && Found(t, p, t[p..q]) && q == p + |t[p..q]|
  {
  }

  /** Whitespace before a value, and before elements, changes nothing. */
  lemma {:induction false} ValueBehind(t: Text, p: nat)
    requires p <= |t|
    ensures ParseValue(t, p) == ParseValue(t, SkipSpace(t, p))
    ensures ParseElements(t, p) == ParseElements(t, SkipSpace(t, p))
  {
    hide ParseNumber, ParseString, ParseConstant, ParseMembers;
    SkipsNone(t, SkipSpace(t, p));
  }

  /** A gap with something that ends a value behind it ends one too. */
  lemma {:induction false} GapEnds(t: Text, p: nat, g: Text)
    requires IsGap(g) && Found(t, p, g) && EndsAt(t, p + |g|)
    ensures EndsAt(t, p)
  {
    if g != [] {
      FoundChars(t, p, g);
      assert Char(t, p + 0) == g[0];
    }
  }

  // ---------------------------------------------------------------- the parser takes these texts

  /** What a value starts with. */
  predicate Starts(c: byte) { !IsSpace(c) && c != 0 && c as char !in "]},:" }

  lemma {:induction false} LexemeStarts(x: Lexeme)
    requires LexemeOk(x)
    ensures |LexemeText(x)| > 0 && Starts(LexemeText(x)[0])
  {
  }

  lemma {:induction false} FormStarts(f: Form)
    requires FormOk(f)
    ensures |FormText(f)| > 0 && Starts(FormText(f)[0])
  {
    hide LexemeText, LexemeOk;
    if f.Lex? { LexemeStarts(f.x); }
  }

  /** A comma or a closing bracket. */
  predicate Closes(c: byte) { c as char in ",]}" }

  lemma {:induction false} ClosesEnds(t: Text, q: nat)
    requires Closes(Char(t, q))
    ensures EndsAt(t, q) && !IsSpace(Char(t, q))
  {
  }

  lemma {:induction false} StartFound(t: Text, p: nat, f: Form)
    requires FormOk(f) && Found(t, p, FormText(f))
    ensures p < |t| && Starts(Char(t, p))
  {
    hide FormText;
    FormStarts(f);
    FoundChars(t, p, FormText(f));
    assert Char(t, p + 0) == FormText(f)[0];
  }

  lemma {:induction false} ItemParses(t: Text, p: nat, m: Item)
    requires p <= |t| && ItemOk(m) && Found(t, p, ItemText(m)) && Closes(Char(t, p + |ItemText(m)|))
    ensures ParseValue(t, p).Ok? && ParseValue(t, p).v == ItemMeans(m)
    ensures SkipSpace(t, ParseValue(t, p).q) == p + |ItemText(m)|
    ensures SkipSpace(t, p) < |t| && Starts(Char(t, SkipSpace(t, p)))
    decreases m
  {
    hide ParseValue, FormText, Found, IsGap, Starts, Closes, EndsAt, IsSpace;
    var a := p + |m.before|;
    var b := a + |FormText(m.form)|;
    FoundThree(t, p, m.before, FormText(m.form), m.after);
    StartFound(t, a, m.form);
    StartNoSpace(Char(t, a));
    GapSkips(t, p, m.before);
    ClosesEnds(t, b + |m.after|);
    GapEnds(t, b, m.after);
    FormParses(t, a, m.form);
    ValueBehind(t, p);
    GapSkips(t, b, m.after);
  }

  lemma {:induction false} StartNoSpace(c: byte)
    requires Starts(c)
    ensures !IsSpace(c) && c != 93 && c != 125
  {
  }

  lemma {:induction false} Closing()
    ensures Closes(44) && Closes(93) && Closes(125)
  {
  }

  lemma {:induction false} ItemsSplit(items: seq<Item>)
    requires items != [] && forall i :: 0 <= i < |items| ==> ItemOk(items[i])
    ensures ItemsMean(items) == [ItemMeans(items[0])] + ItemsMean(items[1..])
    ensures |items| == 1 ==> ItemsText(items) == ItemText(items[0]) && ItemsMean(items) == [ItemMeans(items[0])]
    ensures |items| > 1 ==> ItemsText(items) == ItemText(items[0]) + [44] + ItemsText(items[1..])
  {
    hide ItemOk, ItemMeans, ItemText;
    if |items| == 1 { assert ItemsMean(items[1..]) == []; }
  }

  lemma {:induction false} ItemsParse(t: Text, p: nat, items: seq<Item>)
    requires items != [] && forall i :: 0 <= i < |items| ==> ItemOk(items[i])
    requires p <= |t| && Found(t, p, ItemsText(items) + [93])
    ensures ParseElements(t, p) == Ok(ItemsMean(items), p + |ItemsText(items)| + 1)
    ensures SkipSpace(t, p) < |t| && Starts(Char(t, SkipSpace(t, p)))
    decreases items
  {
    hide ParseValue, ParseElements, ItemText, ItemsText, ItemsMean, Found, ItemMeans, Starts, ItemOk, Closes;
    Closing();
    ItemsSplit(items);
    var a := ItemText(items[0]);
    var q := p + |a|;
    if |items| == 1 {
      FoundParts(t, p, a, [93]);
      FoundOne(t, q, 93);
      ItemParses(t, p, items[0]);
      ElementsLast(t, p);
    } else {
      var b := ItemsText(items[1..]) + [93];
      assert ItemsText(items) + [93] == a + [44] + b;
      FoundThree(t, p, a, [44], b);
      FoundOne(t, q, 44);
      ItemParses(t, p, items[0]);
      ItemsParse(t, q + 1, items[1..]);
      ElementsMore(t, p);
    }
  }

  lemma {:induction false} ElementsLast(t: Text, p: nat)
    requires p <= |t| && ParseValue(t, p).Ok? && Char(t, SkipSpace(t, ParseValue(t, p).q)) == 93
    ensures ParseElements(t, p) == Ok([ParseValue(t, p).v], SkipSpace(t, ParseValue(t, p).q) + 1)
  {
    hide ParseValue;
  }

  lemma {:induction false} ElementsMore(t: Text, p: nat)
    requires p <= |t| && ParseValue(t, p).Ok? && Char(t, SkipSpace(t, ParseValue(t, p).q)) == 44
    ensures var s := SkipSpace(t, ParseValue(t, p).q) + 1;
            s <= |t| && ParseElements(t, p) == match ParseElements(t, s) {
              case Err(e) => Err(e)
              case Ok(vs, r) => Ok([ParseValue(t, p).v] + vs, r)
            }
  {
    hide ParseValue;
  }

  lemma {:induction false} ArrayParsed(t: Text, p: nat, f: Form)
    requires f.Array? && FormOk(f) && p <= |t| && Found(t, p, FormText(f))
    ensures ParseValue(t, p) == Ok(FormMeans(f), p + |FormText(f)|)
    decreases f, 0
  {
    hide ParseValue, ParseElements, Found, ItemsText, IsSpace, IsGap, Starts, ItemOk;
    if f.items == [] {
      FoundThree(t, p, [91], f.gap, [93]);
      FoundOne(t, p, 91);
      FoundOne(t, p + 1 + |f.gap|, 93);
      NoSpaces();
      GapSkips(t, p + 1, f.gap);
      EmptyArray(t, p);
      assert ItemsMean([]) == [];
    } else {
      FoundParts(t, p, [91], ItemsText(f.items) + [93]);
      FoundOne(t, p, 91);
      ItemsParse(t, p + 1, f.items);
      StartNoSpace(Char(t, SkipSpace(t, p + 1)));
      ValueBehind(t, p + 1);
      FullArray(t, p);
    }
  }

  lemma {:induction false} NoSpaces()
    ensures !IsSpace(91) && !IsSpace(93) && !IsSpace(123) && !IsSpace(125) && !IsSpace(34) && !IsSpace(58)
  {
  }

  lemma {:induction false} EmptyArray(t: Text, p: nat)
    requires p + 1 <= |t| && Char(t, p) == 91 && Char(t, SkipSpace(t, p + 1)) == 93
    ensures ParseValue(t, p) == Ok(Arr([]), SkipSpace(t, p + 1) + 1)
  {
    hide ParseElements, ParseMembers, ParseString, ParseNumber, ParseConstant;
    SkipsNone(t, p);
  }

  lemma {:induction false} FullArray(t: Text, p: nat)
    requires p + 1 <= |t| && Char(t, p) == 91 && Char(t, SkipSpace(t, p + 1)) != 93
    ensures ParseValue(t, p) == match ParseElements(t, SkipSpace(t, p + 1)) {
              case Err(e) => Err(e)
              case Ok(es, q) => Ok(Arr(es), q)
            }
  {
    hide ParseElements, ParseMembers, ParseString, ParseNumber, ParseConstant;
    SkipsNone(t, p);
  }

  lemma {:induction false} EntryParses(t: Text, p: nat, e: Entry)
    requires p <= |t| && EntryOk(e) && Found(t, p, EntryText(e)) && Closes(Char(t, p + |EntryText(e)|))
    ensures var s := SkipSpace(t, p);
            && s < |t| && Char(t, s) == 34
            && ParseMember(t, s).Ok? && ParseMember(t, s).v == EntryMeans(e)
            && SkipSpace(t, ParseMember(t, s).q) == p + |EntryText(e)|
    decreases e
  {
    hide ParseValue, ParseString, ItemText, NameText, Found, Closes, IsSpace, ItemOk, PiecesOk, PiecesMean, ItemMeans;
    var b := p + |NameText(e)|;
    FoundThree(t, p, NameText(e), [58], ItemText(e.item));
    FoundOne(t, b, 58);
    NameParses(t, p, e);
    assert |EntryText(e)| == |NameText(e)| + 1 + |ItemText(e.item)|;
    ItemParses(t, b + 1, e.item);
    MemberParsed(t, SkipSpace(t, p));
  }

  /** A name, with a colon behind it. */
  lemma {:induction false} NameParses(t: Text, p: nat, e: Entry)
    requires p <= |t| && EntryOk(e) && Found(t, p, NameText(e)) && Char(t, p + |NameText(e)|) == 58
    ensures var s := SkipSpace(t, p);
            && s < |t| && Char(t, s) == 34
            && ParseString(t, s + 1).Ok? && ParseString(t, s + 1).v == PiecesMean(e.name)
            && SkipSpace(t, ParseString(t, s + 1).q) == p + |NameText(e)|
  {
    hide ParseString, LexemeText, Found, IsGap, IsSpace, ItemOk, PiecesOk, PiecesMean;
    var name := LexemeText(Quoted(e.name));
    FoundThree(t, p, e.start, name, e.stop);
    var a := p + |e.start|;
    NoSpaces();
    QuotedParsed(t, a, e.name);
    GapSkips(t, p, e.start);
    GapSkips(t, a + |name|, e.stop);
  }

  lemma {:induction false} MemberParsed(t: Text, p: nat)
    requires p < |t| && Char(t, p) == 34 && ParseString(t, p + 1).Ok?
    requires var s := SkipSpace(t, ParseString(t, p + 1).q);
             s < |t| && Char(t, s) == 58 && ParseValue(t, s + 1).Ok?
    ensures var name := ParseString(t, p + 1);
            var v := ParseValue(t, SkipSpace(t, name.q) + 1);
            ParseMember(t, p) == Ok(Member(name.v, v.v), v.q)
  {
    hide ParseValue, ParseString;
  }

  lemma {:induction false} EntriesSplit(entries: seq<Entry>)
    requires entries != [] && forall i :: 0 <= i < |entries| ==> EntryOk(entries[i])
    ensures EntriesMean(entries) == [EntryMeans(entries[0])] + EntriesMean(entries[1..])
    ensures |entries| == 1 ==> EntriesText(entries) == EntryText(entries[0]) && EntriesMean(entries) == [EntryMeans(entries[0])]
    ensures |entries| > 1 ==> EntriesText(entries) == EntryText(entries[0]) + [44] + EntriesText(entries[1..])
  {
    hide EntryOk, EntryMeans, EntryText;
    if |entries| == 1 { assert EntriesMean(entries[1..]) == []; }
  }

  lemma {:induction false} EntriesParse(t: Text, p: nat, entries: seq<Entry>)
    requires entries != [] && forall i :: 0 <= i < |entries| ==> EntryOk(entries[i])
    requires p <= |t| && Found(t, p, EntriesText(entries) + [125])
    ensures Char(t, SkipSpace(t, p)) == 34
    ensures ParseMembers(t, SkipSpace(t, p)) == Ok(EntriesMean(entries), p + |EntriesText(entries)| + 1)
    decreases entries
  {
    hide ParseMember, ParseMembers, EntryText, EntriesText, EntriesMean, Found, EntryMeans, EntryOk, Closes, SkipSpace, IsSpace;
    Closing();
    EntriesSplit(entries);
    var a := EntryText(entries[0]);
    var q := p + |a|;
    if |entries| == 1 {
      FoundParts(t, p, a, [125]);
      FoundOne(t, q, 125);
      EntryParses(t, p, entries[0]);
      MembersLast(t, SkipSpace(t, p));
    } else {
      var b := EntriesText(entries[1..]) + [125];
      assert EntriesText(entries) + [125] == a + [44] + b;
      FoundThree(t, p, a, [44], b);
      FoundOne(t, q, 44);
      EntryParses(t, p, entries[0]);
      EntriesParse(t, q + 1, entries[1..]);
      MembersMore(t, SkipSpace(t, p));
    }
  }

  lemma {:induction false} MembersLast(t: Text, p: nat)
    requires p <= |t| && ParseMember(t, p).Ok? && Char(t, SkipSpace(t, ParseMember(t, p).q)) == 125
    ensures ParseMembers(t, p) == Ok([ParseMember(t, p).v], SkipSpace(t, ParseMember(t, p).q) + 1)
  {
    hide ParseMember;
  }

  lemma {:induction false} MembersMore(t: Text, p: nat)
    requires p <= |t| && ParseMember(t, p).Ok? && Char(t, SkipSpace(t, ParseMember(t, p).q)) == 44
    ensures var s := SkipSpace(t, ParseMember(t, p).q) + 1;
            s <= |t| && ParseMembers(t, p) == match ParseMembers(t, SkipSpace(t, s)) {
              case Err(e) => Err(e)
              case Ok(ms, r) => Ok([ParseMember(t, p).v] + ms, r)
            }
  {
    hide ParseMember;
  }

  lemma {:induction false} ObjectParsed(t: Text, p: nat, f: Form)
    requires f.Object? && FormOk(f) && p <= |t| && Found(t, p, FormText(f))
    ensures ParseValue(t, p) == Ok(FormMeans(f), p + |FormText(f)|)
    decreases f, 0
  {
    hide ParseValue, ParseMembers, Found, EntriesText, IsSpace, IsGap, EntryOk;
    if f.entries == [] {
      FoundThree(t, p, [123], f.gap, [125]);
      FoundOne(t, p, 123);
      FoundOne(t, p + 1 + |f.gap|, 125);
      NoSpaces();
      GapSkips(t, p + 1, f.gap);
      EmptyObject(t, p);
      assert EntriesMean([]) == [];
    } else {
      FoundParts(t, p, [123], EntriesText(f.entries) + [125]);
      FoundOne(t, p, 123);
      EntriesParse(t, p + 1, f.entries);
      FullObject(t, p);
    }
  }

  lemma {:induction false} EmptyObject(t: Text, p: nat)
    requires p + 1 <= |t| && Char(t, p) == 123 && Char(t, SkipSpace(t, p + 1)) == 125
    ensures ParseValue(t, p) == Ok(Obj([]), SkipSpace(t, p + 1) + 1)
  {
    hide ParseElements, ParseMembers, ParseString, ParseNumber, ParseConstant;
    SkipsNone(t, p);
  }

  lemma {:induction false} FullObject(t: Text, p: nat)
    requires p + 1 <= |t| && Char(t, p) == 123 && Char(t, SkipSpace(t, p + 1)) != 125
    ensures ParseValue(t, p) == match ParseMembers(t, SkipSpace(t, p + 1)) {
              case Err(e) => Err(e)
              case Ok(ms, q) => Ok(Obj(ms), q)
            }
  {
    hide ParseElements, ParseMembers, ParseString, ParseNumber, ParseConstant;
    SkipsNone(t, p);
  }

  /** A text of any form, wherever it stands, is parsed to what it means, and nothing behind it is used. */
  lemma {:induction false} FormParses(t: Text, p: nat, f: Form)
    requires FormOk(f) && p <= |t| && Found(t, p, FormText(f)) && EndsAt(t, p + |FormText(f)|)
    ensures ParseValue(t, p) == Ok(FormMeans(f), p + |FormText(f)|)
    decreases f
  {
    match f {
      case Lex(x) => LexemeParses(t, p, x);
      case Array(_, _) => ArrayParsed(t, p, f);
      case Object(_, _) => ObjectParsed(t, p, f);
    }
  }

  // ---------------------------------------------------------------- and no others

  lemma {:induction false} FoundAll(t: Text, p: nat, a: Text, b: Text, c: Text)
    requires Found(t, p, a) && Found(t, p + |a|, b) && Found(t, p + |a| + |b|, c)
    ensures Found(t, p, a + b + c)
  {
    FoundBoth(t, p, a, b);
    FoundBoth(t, p, a + b, c);
  }

  lemma {:induction false} CharFound(t: Text, p: nat, c: byte)
    requires Char(t, p) == c && c != 0
    ensures Found(t, p, [c]) && p < |t|
  {
  }

  /** What is taken for a value is one, with whitespace before and behind it. */
  lemma {:induction false} ItemIs(t: Text, p: nat) returns (m: Item)
    requires p <= |t| && ParseValue(t, p).Ok?
    ensures ItemOk(m) && Found(t, p, ItemText(m)) && ParseValue(t, p).v == ItemMeans(m)
    ensures SkipSpace(t, ParseValue(t, p).q) == p + |ItemText(m)|
    decreases |t| - p, 3
  {
    hide ParseValue, Found, FormText, FormMeans, FormOk, IsGap;
    ValueBehind(t, p);
    var s := SkipSpace(t, p);
    var f := FormIs(t, s);
    var q := ParseValue(t, p).q;
    GapIs(t, p);
    GapIs(t, q);
    m := Item(t[p..s], f, t[q..SkipSpace(t, q)]);
    FoundAll(t, p, m.before, FormText(f), m.after);
  }

  lemma {:induction false} ItemsAre(t: Text, p: nat) returns (items: seq<Item>)
    requires p <= |t| && ParseElements(t, p).Ok?
    ensures items != [] && forall i :: 0 <= i < |items| ==> ItemOk(items[i])
    ensures Found(t, p, ItemsText(items) + [93])
    ensures ParseElements(t, p) == Ok(ItemsMean(items), p + |ItemsText(items)| + 1)
    decreases |t| - p, 4
  {
    hide ParseValue, ParseElements, Found, ItemText, ItemsText, ItemsMean, ItemMeans, ItemOk;
    ElementsTake(t, p);
    var m := ItemIs(t, p);
    var s := p + |ItemText(m)|;
    if Char(t, s) == 93 {
      items := [m];
      ElementsLast(t, p);
      CharFound(t, s, 93);
      ItemsSplit(items);
      FoundBoth(t, p, ItemText(m), [93]);
    } else {
      ElementsMore(t, p);
      CharFound(t, s, 44);
      ValueLonger(t, p);
      var rest := ItemsAre(t, s + 1);
      items := [m] + rest;
      assert items[1..] == rest;
      ItemsSplit(items);
      FoundAll(t, p, ItemText(m), [44], ItemsText(rest) + [93]);
      assert ItemsText(items) + [93] == ItemText(m) + [44] + (ItemsText(rest) + [93]);
    }
  }

  lemma {:induction false} ValueLonger(t: Text, p: nat)
    requires p <= |t| && ParseValue(t, p).Ok?
    ensures SkipSpace(t, ParseValue(t, p).q) > p
  {
    hide ParseValue;
  }

  /** Elements begin with a value, and a comma or a closing bracket follows. */
  lemma {:induction false} ElementsTake(t: Text, p: nat)
    requires p <= |t| && ParseElements(t, p).Ok?
    ensures ParseValue(t, p).Ok?
    ensures var s := SkipSpace(t, ParseValue(t, p).q);
            Char(t, s) == 93 || (Char(t, s) == 44 && s + 1 <= |t| && ParseElements(t, s + 1).Ok?)
  {
    hide ParseValue;
  }

  lemma {:induction false} EntryIs(t: Text, p: nat) returns (e: Entry)
    requires p <= |t| && ParseMember(t, SkipSpace(t, p)).Ok?
    ensures EntryOk(e) && Found(t, p, EntryText(e)) && ParseMember(t, SkipSpace(t, p)).v == EntryMeans(e)
    ensures SkipSpace(t, ParseMember(t, SkipSpace(t, p)).q) == p + |EntryText(e)|
    decreases |t| - p, 3
  {
    hide ParseValue, ParseMember, ParseString, Found, ItemText, ItemMeans, ItemOk, IsGap, PiecesOk, PiecesMean, LexemeText;
    var a := SkipSpace(t, p);
    MemberTakes(t, a);
    CharFound(t, a, 34);
    var name := QuotedIs(t, a);
    var b := a + |LexemeText(Quoted(name))|;
    var c := SkipSpace(t, b);
    CharFound(t, c, 58);
    var m := ItemIs(t, c + 1);
    GapIs(t, p);
    GapIs(t, b);
    e := Entry(t[p..a], name, t[b..c], m);
    MemberParsed(t, a);
    FoundAll(t, p, e.start, LexemeText(Quoted(name)), e.stop);
    FoundAll(t, p, NameText(e), [58], ItemText(m));
  }

  lemma {:induction false} MemberTakes(t: Text, p: nat)
    requires p <= |t| && ParseMember(t, p).Ok?
    ensures Char(t, p) == 34 && ParseString(t, p + 1).Ok?
    ensures var s := SkipSpace(t, ParseString(t, p + 1).q);
            Char(t, s) == 58 && s < |t| && s >= p && ParseValue(t, s + 1).Ok?
  {
    hide ParseValue, ParseString;
  }

  lemma {:induction false} EntriesAre(t: Text, p: nat) returns (entries: seq<Entry>)
    requires p <= |t| && ParseMembers(t, SkipSpace(t, p)).Ok?
    ensures entries != [] && forall i :: 0 <= i < |entries| ==> EntryOk(entries[i])
    ensures Found(t, p, EntriesText(entries) + [125])
    ensures ParseMembers(t, SkipSpace(t, p)) == Ok(EntriesMean(entries), p + |EntriesText(entries)| + 1)
    decreases |t| - p, 4
  {
    hide ParseMember, ParseMembers, Found, EntryText, EntriesText, EntriesMean, EntryMeans, EntryOk;
    var a := SkipSpace(t, p);
    MembersTake(t, a);
    var e := EntryIs(t, p);
    var s := p + |EntryText(e)|;
    if Char(t, s) == 125 {
      entries := [e];
      MembersLast(t, a);
      CharFound(t, s, 125);
      EntriesSplit(entries);
      FoundBoth(t, p, EntryText(e), [125]);
    } else {
      MembersMore(t, a);
      CharFound(t, s, 44);
      var rest := EntriesAre(t, s + 1);
      entries := [e] + rest;
      assert entries[1..] == rest;
      EntriesSplit(entries);
      FoundAll(t, p, EntryText(e), [44], EntriesText(rest) + [125]);
      assert EntriesText(entries) + [125] == EntryText(e) + [44] + (EntriesText(rest) + [125]);
    }
  }

  lemma {:induction false} MembersTake(t: Text, p: nat)
    requires p <= |t| && ParseMembers(t, p).Ok?
    ensures ParseMember(t, p).Ok?
    ensures var s := SkipSpace(t, ParseMember(t, p).q);
            s > p && (Char(t, s) == 125 || (Char(t, s) == 44 && s + 1 <= |t| && ParseMembers(t, SkipSpace(t, s + 1)).Ok?))
  {
    hide ParseMember;
  }

  lemma {:induction false} ArrayIs(t: Text, p: nat) returns (f: Form)
    requires p < |t| && Char(t, p) == 91 && ParseValue(t, p).Ok?
    ensures FormOk(f) && Found(t, p, FormText(f)) && ParseValue(t, p) == Ok(FormMeans(f), p + |FormText(f)|)
    decreases |t| - p, 1
  {
    hide ParseValue, ParseElements, Found, ItemsText, IsGap, ItemOk;
    CharFound(t, p, 91);
    var s := SkipSpace(t, p + 1);
    if Char(t, s) == 93 {
      EmptyArray(t, p);
      CharFound(t, s, 93);
      GapIs(t, p + 1);
      f := Array(t[p + 1..s], []);
      assert ItemsMean([]) == [];
      FoundAll(t, p, [91], f.gap, [93]);
    } else {
      FullArray(t, p);
      ValueBehind(t, p + 1);
      var items := ItemsAre(t, p + 1);
      f := Array([], items);
      NoGap();
      FoundBoth(t, p, [91], ItemsText(items) + [93]);
    }
  }

  lemma {:induction false} NoGap()
    ensures IsGap([])
  {
  }

  lemma {:induction false} ObjectIs(t: Text, p: nat) returns (f: Form)
    requires p < |t| && Char(t, p) == 123 && ParseValue(t, p).Ok?
    ensures FormOk(f) && Found(t, p, FormText(f)) && ParseValue(t, p) == Ok(FormMeans(f), p + |FormText(f)|)
    decreases |t| - p, 1
  {
    hide ParseValue, ParseMembers, Found, EntriesText, IsGap, EntryOk;
    CharFound(t, p, 123);
    var s := SkipSpace(t, p + 1);
    if Char(t, s) == 125 {
      EmptyObject(t, p);
      CharFound(t, s, 125);
      GapIs(t, p + 1);
      f := Object(t[p + 1..s], []);
      assert EntriesMean([]) == [];
      FoundAll(t, p, [123], f.gap, [125]);
    } else {
      FullObject(t, p);
      var entries := EntriesAre(t, p + 1);
      f := Object([], entries);
      NoGap();
      FoundBoth(t, p, [123], EntriesText(entries) + [125]);
    }
  }

  lemma {:induction false} Brackets(t: Text, p: nat)
    requires p <= |t| && !IsSpace(Char(t, p)) && ParseValue(t, p).Ok?
    ensures p < |t|
    ensures ParseValue(t, p).v.Arr? ==> Char(t, p) == 91
    ensures ParseValue(t, p).v.Obj? ==> Char(t, p) == 123
  {
    hide ParseElements, ParseMembers, ParseString, Decimal, SkipFraction, SkipExponent, SkipDigits, SkipIdent;
    SkipsNone(t, p);
  }

  /** What is taken for a value at a place where there is no whitespace has one of the forms. */
  lemma {:induction false} FormIs(t: Text, p: nat) returns (f: Form)
    requires p <= |t| && !IsSpace(Char(t, p)) && ParseValue(t, p).Ok?
    ensures FormOk(f) && Found(t, p, FormText(f)) && ParseValue(t, p) == Ok(FormMeans(f), p + |FormText(f)|)
    decreases |t| - p, 2
  {
    hide ParseValue;
    Brackets(t, p);
    if ParseValue(t, p).v.Arr? {
      f := ArrayIs(t, p);
    } else if ParseValue(t, p).v.Obj? {
      f := ObjectIs(t, p);
    } else {
      var x := LexemeIs(t, p);
      f := Lex(x);
    }
  }

  /** A text is whitespace and then a value with this meaning, and nothing else. */
  ghost predicate Denotes(t: Text, v: Value) {
    exists g, f {:trigger g + FormText(f)} :: IsGap(g) && FormOk(f) && FormMeans(f) == v && t == g + FormText(f)
  }

  lemma {:induction false} DenotedParses(t: Text, g: Text, f: Form)
    requires IsGap(g) && FormOk(f) && t == g + FormText(f)
    ensures ParseValue(t, 0) == Ok(FormMeans(f), |t|)
  {
    hide ParseValue, ParseElements, FormText, FormMeans, FormOk, IsGap, Starts, IsSpace, EndsAt;
    assert t[0..|g|] == g && t[|g|..|t|] == FormText(f);
    FoundSlice(t, 0, |g|, g);
    FoundSlice(t, |g|, |t|, FormText(f));
    StartFound(t, |g|, f);
    StartNoSpace(Char(t, |g|));
    GapSkips(t, 0, g);
    TextEnds(t);
    ValueBehind(t, 0);
    FormParses(t, |g|, f);
  }

  lemma {:induction false} ParsedDenotes(t: Text)
    requires ParseValue(t, 0).Ok? && ParseValue(t, 0).q == |t|
    ensures Denotes(t, ParseValue(t, 0).v)
  {
    hide ParseValue, ParseElements, FormText, FormMeans, FormOk, IsGap, IsSpace;
    ValueBehind(t, 0);
    var s := SkipSpace(t, 0);
    var f := FormIs(t, s);
    GapIs(t, 0);
    assert t[s..|t|] == FormText(f);
    assert t == t[0..s] + FormText(f);
  }

  /**
   * Parsing a text uses all of it up and gives a value if and only if the text has a form
   * that means the value.
   */
  lemma {:induction false} ParsesIffDenotes(t: Text, v: Value)
    ensures ParseValue(t, 0) == Ok(v, |t|) <==> Denotes(t, v)
  {
    hide ParseValue, FormText, FormMeans, FormOk, IsGap;
    if ParseValue(t, 0) == Ok(v, |t|) { ParsedDenotes(t); }
    if Denotes(t, v) {
      var g, f :| IsGap(g) && FormOk(f) && FormMeans(f) == v && t == g + FormText(f);
      DenotedParses(t, g, f);
    }
  }

  lemma {:induction false} TextEnds(t: Text)
    ensures EndsAt(t, |t|)
  {
  }

  /** Quotes, brackets, the minus sign, digits, letters and the underscore start a value. */
  predicate MayStart(c: char) {
    c in "\"[{-_" || '0' <= c <= '9' || 'a' <= c <= 'z' || 'A' <= c <= 'Z'
  }

  /** Where there is only whitespace there is no data, and a character that starts no value is an error. */
  lemma {:induction false} NothingParsed(t: Text, p: nat, g: Text)
    requires p <= |t| && IsGap(g) && Found(t, p, g) && !IsGap([Char(t, p + |g|)])
    ensures var c := Char(t, p + |g|);
            && (c == 0 ==> ParseValue(t, p) == Err(NoData))
            && (c != 0 && !MayStart(c as char) ==> ParseValue(t, p) == Err(Invalid))
  {
    hide ParseElements, ParseMembers, ParseString, ParseNumber, ParseConstant;
    assert !IsSpace(Char(t, p + |g|)) by {
      assert [Char(t, p + |g|)][0] == Char(t, p + |g|);
    }
    GapSkips(t, p, g);
  }
}
