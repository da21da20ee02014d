module JsonTight {
  // The text that is printed for a value, by the grammar: no whitespace, no leading zeros,
  // and in strings only codes, in small letters, of the characters that must be escaped.

  import opened Bytes
  import opened SxeUnicode
  import opened JsonText
  import opened JsonPrint
  import opened JsonLexemes
  import opened JsonGrammar

  predicate PieceTight(x: Piece) {
    match x
    case Plain(b) => b as char >= ' '
    case Short(_) => false
    case Code(h) =>
      && |h| == 4 && h[0] == Hex(0, false) && h[1] == Hex(0, false) && !h[2].capital && !h[3].capital
      && var c := 0x10 * h[2].v + h[3].v; c < 0x20 || c == '\"' as int || c == '\\' as int
  }

  predicate LexemeTight(x: Lexeme) {
    match x
    case Word(_) => true
    case Number(minus, whole, fraction, power) =>
      !minus && fraction == [] && power == NoPower && whole != [] && (whole[0] == '0' as int ==> |whole| == 1)
    case Quoted(ps) => forall i :: 0 <= i < |ps| ==> PieceTight(ps[i])
  }

  predicate Tight(f: Form)
    decreases f
  {
    match f
    case Lex(x) => LexemeTight(x)
    case Array(gap, items) => gap == [] && forall i :: 0 <= i < |items| ==> ItemTight(items[i])
    case Object(gap, entries) => gap == [] && forall i :: 0 <= i < |entries| ==> EntryTight(entries[i])
  }

  predicate ItemTight(m: Item)
    decreases m
  {
    m.before == [] && Tight(m.form) && m.after == []
  }

  predicate EntryTight(e: Entry)
    decreases e
  {
    e.start == [] && LexemeTight(Quoted(e.name)) && e.stop == [] && ItemTight(e.item)
  }

  // ---------------------------------------------------------------- strings and numbers

  lemma {:induction false} PieceOf(c: byte) returns (x: Piece)
    ensures PieceOk(x) && PieceTight(x) && PieceText(x) == Escape(c) && PieceMeans(x) == [c]
  {
    if c <= 0x1f || c == 34 || c == 92 {
      x := Code([Hex(0, false), Hex(0, false), Hex(c / 16, false), Hex(c % 16, false)]);
      SmallHex(0);
      SmallHex(c / 16);
      SmallHex(c % 16);
      hide HexChar, HexLetter;
      assert c == 0x10 * (c / 16) + c % 16;
    } else {
      x := Plain(c);
    }
  }

  lemma {:induction false} SmallHex(n: nat)
    requires n < 16
    ensures HexChar(Hex(n, false)) == HexLetter(n) && HexLetter(0) == 48
  {
  }

  lemma {:induction false} PiecesOf(s: Text) returns (ps: seq<Piece>)
    ensures PiecesOk(ps) && PiecesText(ps) == EscapeAll(s) && PiecesMean(ps) == s && LexemeTight(Quoted(ps))
  {
    hide PieceOk, PieceText, PieceMeans, PieceTight, Escape;
    if s == [] {
      ps := [];
    } else {
      var x := PieceOf(s[0]);
      var rest := PiecesOf(s[1..]);
      ps := [x] + rest;
      assert ps[1..] == rest && s == [s[0]] + s[1..];
    }
  }

  lemma {:induction false} NoLeadingZero(n: nat)
    ensures Digits(n)[0] == 48 ==> n == 0 && |Digits(n)| == 1
  {
    if n >= 10 { NoLeadingZero(n / 10); }
  }

  lemma {:induction false} NumberOf(n: nat) returns (x: Lexeme)
    requires n < UINT64
    ensures LexemeOk(x) && LexemeTight(x) && LexemeText(x) == Digits(n) && LexemeMeans(x) == Num(n)
  {
    hide Digits, DecimalValue, Decimal;
    NoLeadingZero(n);
    DigitsAre(n);
    x := Number(false, Digits(n), [], NoPower);
    DecimalIs(Digits(n));
    NoParts(x);
  }

  // ---------------------------------------------------------------- values

  lemma {:induction false} LexemeOf(v: Value) returns (x: Lexeme)
    requires Exact(v) && !v.Arr? && !v.Obj?
    ensures LexemeOk(x) && LexemeTight(x) && LexemeText(x) == Build(v) && LexemeMeans(x) == v
  {
    hide Digits, Ascii, PiecesOk, PiecesText, PiecesMean, EscapeAll, NumberText;
    Words();
    match v {
      case Null => x := Word("null");
      case Bool(b) => x := if b then Word("true") else Word("false");
      case Num(n) => x := NumberOf(n);
      case Str(s) =>
        var ps := PiecesOf(s);
        x := Quoted(ps);
        assert [34] + EscapeAll(s) + [34] == [34] + (EscapeAll(s) + [34]);
    }
  }

  lemma {:induction false} ItemOf(v: Value) returns (m: Item)
    requires Exact(v)
    ensures ItemOk(m) && ItemTight(m) && ItemText(m) == Build(v) && ItemMeans(m) == v
    decreases v, 1
  {
    hide FormText, FormMeans, Build, Exact;
    var f := TightForm(v);
    m := Item([], f, []);
    NoGap();
  }

  lemma {:induction false} ItemsOf(es: seq<Value>) returns (items: seq<Item>)
    requires es != [] && forall i :: 0 <= i < |es| ==> Exact(es[i])
    ensures items != [] && forall i :: 0 <= i < |items| ==> ItemOk(items[i]) && ItemTight(items[i])
    ensures ItemsText(items) == BuildElements(es) && ItemsMean(items) == es
    decreases es
  {
    hide ItemOk, ItemTight, ItemText, ItemMeans, ItemsMean, ItemsText, Build, Exact;
    var m := ItemOf(es[0]);
    if |es| == 1 {
      items := [m];
      assert es == [es[0]];
    } else {
      var rest := ItemsOf(es[1..]);
      items := [m] + rest;
      assert items[1..] == rest && es == [es[0]] + es[1..];
    }
    ItemsSplit(items);
  }

  lemma {:induction false} EntryOf(m: Member) returns (e: Entry)
    requires Exact(m.value)
    ensures EntryOk(e) && EntryTight(e) && EntryText(e) == BuildMember(m) && EntryMeans(e) == m
    decreases m
  {
    hide ItemOk, ItemTight, ItemText, ItemMeans, Build, Exact, PiecesOk, PiecesText, PiecesMean, EscapeAll, LexemeTight;
    var ps := PiecesOf(m.name);
    var item := ItemOf(m.value);
    e := Entry([], ps, [], item);
    NoGap();
    assert NameText(e) == Quote(m.name);
  }

  lemma {:induction false} EntriesOf(ms: seq<Member>) returns (entries: seq<Entry>)
    requires ms != [] && forall i :: 0 <= i < |ms| ==> Exact(ms[i].value)
    ensures entries != [] && forall i :: 0 <= i < |entries| ==> EntryOk(entries[i]) && EntryTight(entries[i])
    ensures EntriesText(entries) == BuildMembers(ms) && EntriesMean(entries) == ms
    decreases ms
  {
    hide EntryOk, EntryTight, EntryText, EntryMeans, EntriesMean, EntriesText, BuildMember, Exact;
    var e := EntryOf(ms[0]);
    if |ms| == 1 {
      entries := [e];
      assert ms == [ms[0]];
    } else {
      var rest := EntriesOf(ms[1..]);
      entries := [e] + rest;
      assert entries[1..] == rest && ms == [ms[0]] + ms[1..];
    }
    EntriesSplit(entries);
  }

  /** What is printed for a value is the text of a tight form that means it. */
  lemma {:induction false} TightForm(v: Value) returns (f: Form)
    requires Exact(v)
    ensures FormOk(f) && Tight(f) && FormText(f) == Build(v) && FormMeans(f) == v
    decreases v, 0
  {
    hide ItemOk, ItemTight, ItemsText, ItemsMean, EntryOk, EntryTight, EntriesText, EntriesMean, LexemeText, LexemeMeans, BuildElements, BuildMembers;
    NoGap();
    match v {
      case Arr(es) =>
        var items: seq<Item> := [];
        if es == [] { EmptyMeans(); } else { items := ItemsOf(es); }
        f := Array([], items);
      case Obj(ms) =>
        var entries: seq<Entry> := [];
        if ms == [] { EmptyMeans(); } else { entries := EntriesOf(ms); }
        f := Object([], entries);
      case _ =>
        var x := LexemeOf(v);
        f := Lex(x);
    }
  }

  lemma {:induction false} EmptyMeans()
    ensures ItemsMean([]) == [] && EntriesMean([]) == []
  {
  }
}
