// Values as flat rows of 16-byte tokens: how wide they are, and when a row of tokens
// stands for a value, with or without the indexes that are added to it on first use.
module JitsonTokens {
  import opened Bytes
  import opened JsonText
  import opened JsonMeaning
  import opened CStrings

  const TOKEN_SIZE: nat := 16
  const STRING_SIZE: nat := 8

  /** Of a collection: how many tokens it takes up, or its index, which ends with that number. */
  datatype Extent = Size(n: nat) | Index(ix: seq<nat>)

  /**
   * A string's bytes continue in the tokens after its first, which are More.  The len of
   * a string that is a key becomes a link to another key once its object is indexed.
   */
  datatype Token =
    | TFree
    | TNull
    | TBool(b: bool)
    | TNum(n: nat)
    | TDbl(text: Text)
    | TStr(bytes: Text, len: nat, isKey: bool)
    | TMore
    | TArr(len: nat, extent: Extent)
    | TObj(len: nat, extent: Extent)

  // ---------------------------------------------------------------- widths

  /** The tokens of a string of so many bytes, which has a terminator too. */
  function StringWidth(len: nat): nat {
    1 + (len + TOKEN_SIZE - STRING_SIZE) / TOKEN_SIZE
  }

  /** As few tokens as hold the bytes and the terminator, 8 in the first and 16 in every other. */
  lemma {:induction false} StringWidthIsLeast(len: nat)
    ensures var w := StringWidth(len);
            w > 0 && len + 1 <= 8 + 16 * (w - 1) && (w > 1 ==> 8 + 16 * (w - 2) < len + 1)
  {
  }

  function Width(v: Value): (w: nat)
    ensures w > 0
    decreases v
  {
    match v
    case Str(s) => StringWidth(|s|)
    case Arr(es) => 1 + WidthAll(es)
    case Obj(ms) => 1 + WidthMembers(ms)
    case _ => 1
  }

  function WidthAll(es: seq<Value>): nat
    decreases es
  {
    if es == [] then 0 else Width(es[0]) + WidthAll(es[1..])
  }

  function WidthMember(m: Member): (w: nat)
    ensures w > StringWidth(|m.name|)
    decreases m
  {
    StringWidth(|m.name|) + Width(m.value)
  }

  function WidthMembers(ms: seq<Member>): nat
    decreases ms
  {
    if ms == [] then 0 else WidthMember(ms[0]) + WidthMembers(ms[1..])
  }

  /** Where element k of an array is, from the array's own token. */
  function ElementAt(es: seq<Value>, k: nat): nat
    requires k <= |es|
  {
    1 + WidthAll(es[..k])
  }

  /** Where the name of member k of an object is, from the object's own token. */
  function KeyAt(ms: seq<Member>, k: nat): nat
    requires k <= |ms|
  {
    1 + WidthMembers(ms[..k])
  }

  function ValueAt(ms: seq<Member>, k: nat): nat
    requires k < |ms|
  {
    KeyAt(ms, k) + StringWidth(|ms[k].name|)
  }

  lemma {:induction false} WidthAllSplit(a: seq<Value>, b: seq<Value>)
    ensures WidthAll(a + b) == WidthAll(a) + WidthAll(b)
  {
    if a == [] {
      assert a + b == b;
    } else {
      assert (a + b)[1..] == a[1..] + b;
      WidthAllSplit(a[1..], b);
    }
  }

  lemma {:induction false} WidthMembersSplit(a: seq<Member>, b: seq<Member>)
    ensures WidthMembers(a + b) == WidthMembers(a) + WidthMembers(b)
  {
    if a == [] {
      assert a + b == b;
    } else {
      assert (a + b)[1..] == a[1..] + b;
      WidthMembersSplit(a[1..], b);
    }
  }

  lemma {:induction false} ElementsFollow(es: seq<Value>, k: nat)
    requires k < |es|
    ensures ElementAt(es, k + 1) == ElementAt(es, k) + Width(es[k]) <= Width(Arr(es))
    ensures ElementAt(es, |es|) == Width(Arr(es)) && ElementAt(es, 0) == 1
  {
    assert es[..k + 1] == es[..k] + [es[k]] && es == es[..k + 1] + es[k + 1..] && es[..|es|] == es;
    assert [es[k]][1..] == [];
    WidthAllSplit(es[..k], [es[k]]);
    WidthAllSplit(es[..k + 1], es[k + 1..]);
  }

  lemma {:induction false} MembersFollow(ms: seq<Member>, k: nat)
    requires k < |ms|
    ensures KeyAt(ms, k + 1) == ValueAt(ms, k) + Width(ms[k].value) <= Width(Obj(ms))
    ensures KeyAt(ms, |ms|) == Width(Obj(ms)) && KeyAt(ms, 0) == 1
  {
    assert ms[..k + 1] == ms[..k] + [ms[k]] && ms == ms[..k + 1] + ms[k + 1..] && ms[..|ms|] == ms;
    assert [ms[k]][1..] == [];
    WidthMembersSplit(ms[..k], [ms[k]]);
    WidthMembersSplit(ms[..k + 1], ms[k + 1..]);
  }

  lemma {:induction false} KeysAscend(ms: seq<Member>, j: nat, k: nat)
    requires j < k <= |ms|
    ensures ValueAt(ms, j) + Width(ms[j].value) <= KeyAt(ms, k)
    decreases k - j
  {
    MembersFollow(ms, j);
    if j + 1 < k {
      MembersFollow(ms, j + 1);
      KeysAscend(ms, j + 1, k);
    }
  }

  // ---------------------------------------------------------------- what the parser pushes

  function StringTokens(s: Text, isKey: bool): (r: seq<Token>)
    ensures |r| == StringWidth(|s|)
  {
    [TStr(s, |s|, isKey)] + seq(StringWidth(|s|) - 1, _ => TMore)
  }

  function Tokens(v: Value): (r: seq<Token>)
    ensures |r| == Width(v)
    decreases v
  {
    match v
    case Null => [TNull]
    case Bool(b) => [TBool(b)]
    case Num(n) => [TNum(n)]
    case Dbl(text) => [TDbl(text)]
    case Str(s) => StringTokens(s, false)
    case Arr(es) => [TArr(|es|, Size(Width(v)))] + TokensAll(es)
    case Obj(ms) => [TObj(|ms|, Size(Width(v)))] + TokensMembers(ms)
  }

  function TokensAll(es: seq<Value>): (r: seq<Token>)
    ensures |r| == WidthAll(es)
    decreases es
  {
    if es == [] then [] else Tokens(es[0]) + TokensAll(es[1..])
  }

  function TokensMember(m: Member): (r: seq<Token>)
    ensures |r| == WidthMember(m)
    decreases m
  {
    StringTokens(m.name, true) + Tokens(m.value)
  }

  function TokensMembers(ms: seq<Member>): (r: seq<Token>)
    ensures |r| == WidthMembers(ms)
    decreases ms
  {
    if ms == [] then [] else TokensMember(ms[0]) + TokensMembers(ms[1..])
  }

  lemma {:induction false} TokensAllSplit(a: seq<Value>, b: seq<Value>)
    ensures TokensAll(a + b) == TokensAll(a) + TokensAll(b)
  {
    if a == [] {
      assert a + b == b;
    } else {
      assert (a + b)[1..] == a[1..] + b;
      TokensAllSplit(a[1..], b);
    }
  }

  lemma {:induction false} TokensMembersSplit(a: seq<Member>, b: seq<Member>)
    ensures TokensMembers(a + b) == TokensMembers(a) + TokensMembers(b)
  {
    if a == [] {
      assert a + b == b;
    } else {
      assert (a + b)[1..] == a[1..] + b;
      TokensMembersSplit(a[1..], b);
    }
  }

  // ---------------------------------------------------------------- reading tokens

  /** sxe_jitson_string_len: keys cannot use their len. */
  function StringLen(t: Token): nat
    requires t.TStr?
  {
    if t.isKey then Strlen(t.bytes) else t.len
  }

  predicate ExtentFits(t: Token) {
    (t.TArr? || t.TObj?) && t.extent.Index? ==> t.len < |t.extent.ix|
  }

  /** sxe_jitson_size: the tokens of the value that begins with this one. */
  function TokenSize(t: Token): nat
    requires ExtentFits(t)
  {
    match t
    case TStr(_, _, _) => StringWidth(StringLen(t))
    case TArr(len, extent) => if extent.Index? then extent.ix[len] else extent.n
    case TObj(len, extent) => if extent.Index? then extent.ix[len] else extent.n
    case _ => 1
  }

  /** Whether byte i of a string is the first in its token. */
  predicate BeginsToken(i: nat) {
    (i + STRING_SIZE) % TOKEN_SIZE == 0
  }

  /** The size that is computed of a key is the number of its tokens. */
  predicate KeySizeOk(name: Text) {
    StringWidth(Strlen(name)) == StringWidth(|name|)
  }

  /**
   * A key's length is not kept, so its size is computed up to its first zero byte.  That
   * is the number of its tokens if and only if no token begins with the bytes behind it,
   * its terminator included; it always is for a name without zero bytes.
   */
  lemma {:induction false} KeySizeIsWidth(name: Text)
    ensures var s := StringTokens(name, true);
            && (TokenSize(s[0]) == |s| <==> KeySizeOk(name))
            && (KeySizeOk(name) <==> forall i: nat {:trigger BeginsToken(i)} :: Strlen(name) < i <= |name| ==> !BeginsToken(i))
    ensures NulFree(name) ==> Strlen(name) == |name| && KeySizeOk(name)
  {
    if NulFree(name) { StrlenWhole(name); }
    var m, n := Strlen(name), |name|;
    var s := StringTokens(name, true);
    assert TokenSize(s[0]) == StringWidth(m) && |s| == StringWidth(n);
    if StringWidth(m) != StringWidth(n) {
      var i := LastTokenStart(m, n);
      assert BeginsToken(i);
    } else {
      forall i: nat {:trigger BeginsToken(i)} | m < i <= n ensures !BeginsToken(i) { NoTokenStart(m, i, n); }
    }
  }

  lemma {:induction false} LastTokenStart(m: nat, n: nat) returns (i: nat)
    requires m <= n && StringWidth(m) != StringWidth(n)
    ensures m < i <= n && BeginsToken(i)
  {
    i := (n + 8) / 16 * 16 - 8;
  }

  lemma {:induction false} NoTokenStart(m: nat, i: nat, n: nat)
    requires m < i <= n && StringWidth(m) == StringWidth(n)
    ensures !BeginsToken(i)
  {
    assert (m + 8) / 16 == (n + 8) / 16;
  }

  /** The smallest such name: eight bytes, the first one zero, in two tokens of which one is seen. */
  lemma {:induction false} NulNameIsCutShort()
    ensures var s := StringTokens([0, 1, 1, 1, 1, 1, 1, 1], true); |s| == 2 && TokenSize(s[0]) == 1
  {
  }

  // ---------------------------------------------------------------- rows that stand for values

  function Bucket(h: Hasher, ms: seq<Member>, k: nat): nat
    requires k < |ms|
  {
    h(ms[k].name) % |ms|
  }

  /** The last of the first m members whose name is in a bucket, or -1. */
  function LastIn(h: Hasher, ms: seq<Member>, b: nat, m: nat): (k: int)
    requires m <= |ms|
    ensures -1 <= k < m
    ensures k >= 0 ==> Bucket(h, ms, k) == b
    ensures forall j :: k < j < m ==> Bucket(h, ms, j) != b
  {
    if m == 0 then -1 else if Bucket(h, ms, m - 1) == b then m - 1 else LastIn(h, ms, b, m - 1)
  }

  /** As a link: the place of the key, or 0. */
  function LinkTo(h: Hasher, ms: seq<Member>, b: nat, m: nat): nat
    requires m <= |ms|
  {
    var k := LastIn(h, ms, b, m);
    if k < 0 then 0 else KeyAt(ms, k)
  }

  ghost predicate ArrayExtentOk(es: seq<Value>, e: Extent) {
    match e
    case Size(n) => n == Width(Arr(es))
    case Index(ix) => |ix| == |es| + 1 && ix[|es|] == Width(Arr(es)) && forall k :: 0 <= k < |es| ==> ix[k] == ElementAt(es, k)
  }

  ghost predicate ObjectExtentOk(h: Hasher, ms: seq<Member>, e: Extent) {
    match e
    case Size(n) => n == Width(Obj(ms))
    case Index(ix) => |ix| == |ms| + 1 && ix[|ms|] == Width(Obj(ms)) && forall b :: 0 <= b < |ms| ==> ix[b] == LinkTo(h, ms, b, |ms|)
  }

  /** The len field of the key of member k. */
  function KeyLen(h: Hasher, ms: seq<Member>, e: Extent, k: nat): nat
    requires k < |ms|
  {
    if e.Size? then |ms[k].name| else LinkTo(h, ms, Bucket(h, ms, k), k)
  }

  ghost predicate KeysOk(h: Hasher, s: seq<Token>, ms: seq<Member>, e: Extent) {
    forall k {:trigger KeyAt(ms, k)} :: 0 <= k < |ms| ==>
      KeyAt(ms, k) < |s| && s[KeyAt(ms, k)] == TStr(ms[k].name, KeyLen(h, ms, e, k), true)
  }

  /** A row of tokens stands for a value; its collections may be indexed. */
  ghost predicate Rep(h: Hasher, s: seq<Token>, v: Value)
    decreases v
  {
    && |s| == Width(v)
    && match v
       case Null => s[0] == TNull
       case Bool(b) => s[0] == TBool(b)
       case Num(n) => s[0] == TNum(n)
       case Dbl(text) => s[0] == TDbl(text)
       case Str(x) => s[0] == TStr(x, |x|, false)
       case Arr(es) => s[0].TArr? && s[0].len == |es| && ArrayExtentOk(es, s[0].extent) && RepAll(h, s[1..], es)
       case Obj(ms) => s[0].TObj? && s[0].len == |ms| && ObjectExtentOk(h, ms, s[0].extent) && KeysOk(h, s, ms, s[0].extent)
                       && RepMembers(h, s[1..], ms)
  }

  ghost predicate RepAll(h: Hasher, s: seq<Token>, es: seq<Value>)
    decreases es
  {
    && |s| == WidthAll(es)
    && (es != [] ==> Rep(h, s[..Width(es[0])], es[0]) && RepAll(h, s[Width(es[0])..], es[1..]))
  }

  ghost predicate RepMembers(h: Hasher, s: seq<Token>, ms: seq<Member>)
    decreases ms
  {
    && |s| == WidthMembers(ms)
    && (ms != [] ==>
          && KeySizeOk(ms[0].name)
          && Rep(h, s[StringWidth(|ms[0].name|)..WidthMember(ms[0])], ms[0].value)
          && RepMembers(h, s[WidthMember(ms[0])..], ms[1..]))
  }

  /** The size that the program computes is the number of tokens, indexed or not. */
  lemma {:induction false} SizeIsWidth(h: Hasher, s: seq<Token>, v: Value)
    requires Rep(h, s, v)
    ensures |s| > 0 && ExtentFits(s[0]) && TokenSize(s[0]) == Width(v) == |s|
  {
  }

  /** The sizes of all names of the value are computed right. */
  ghost predicate KeySizesOk(v: Value)
    decreases v
  {
    match v
    case Arr(es) => forall i :: 0 <= i < |es| ==> KeySizesOk(es[i])
    case Obj(ms) => forall i :: 0 <= i < |ms| ==> KeySizeOk(ms[i].name) && KeySizesOk(ms[i].value)
    case _ => true
  }

  lemma {:induction false} NulFreeSizesOk(v: Value)
    requires NulFreeNames(v)
    ensures KeySizesOk(v)
    decreases v
  {
    match v {
      case Arr(es) => forall i | 0 <= i < |es| ensures KeySizesOk(es[i]) { NulFreeSizesOk(es[i]); }
      case Obj(ms) =>
        forall i | 0 <= i < |ms| ensures KeySizeOk(ms[i].name) && KeySizesOk(ms[i].value) {
          StrlenWhole(ms[i].name);
          NulFreeSizesOk(ms[i].value);
        }
      case _ =>
    }
  }

  lemma {:induction false} TokensAllRep(h: Hasher, es: seq<Value>)
    requires forall i :: 0 <= i < |es| ==> KeySizesOk(es[i])
    ensures RepAll(h, TokensAll(es), es)
    decreases es, 1
  {
    if es != [] {
      TokensRep(h, es[0]);
      TokensAllRep(h, es[1..]);
      var s, w := TokensAll(es), Width(es[0]);
      assert s[..w] == Tokens(es[0]) && s[w..] == TokensAll(es[1..]);
    }
  }

  lemma {:induction false} TokensMembersRep(h: Hasher, ms: seq<Member>)
    requires forall i :: 0 <= i < |ms| ==> KeySizeOk(ms[i].name) && KeySizesOk(ms[i].value)
    ensures RepMembers(h, TokensMembers(ms), ms)
    decreases ms, 1
  {
    if ms != [] {
      TokensRep(h, ms[0].value);
      TokensMembersRep(h, ms[1..]);
      var s, n, w := TokensMembers(ms), StringWidth(|ms[0].name|), WidthMember(ms[0]);
      assert s[n..w] == Tokens(ms[0].value) && s[w..] == TokensMembers(ms[1..]);
    }
  }

  lemma {:induction false} TokensKey(ms: seq<Member>, k: nat)
    requires k < |ms|
    ensures KeyAt(ms, k) < Width(Obj(ms)) && Tokens(Obj(ms))[KeyAt(ms, k)] == TStr(ms[k].name, |ms[k].name|, true)
  {
    var a, b := ms[..k], ms[k..];
    assert ms == a + b;
    TokensMembersSplit(a, b);
    WidthMembersSplit(a, b);
    assert TokensMembers(b)[0] == StringTokens(ms[k].name, true)[0];
  }

  /** What the parser pushes for a value stands for that value, if the sizes of its names are computed right. */
  lemma {:induction false} TokensRep(h: Hasher, v: Value)
    requires KeySizesOk(v)
    ensures Rep(h, Tokens(v), v)
    decreases v, 0
  {
    var s := Tokens(v);
    match v {
      case Arr(es) =>
        TokensAllRep(h, es);
        assert s[1..] == TokensAll(es);
      case Obj(ms) =>
        TokensMembersRep(h, ms);
        assert s[1..] == TokensMembers(ms);
        forall k | 0 <= k < |ms|
          ensures KeyAt(ms, k) < |s| && s[KeyAt(ms, k)] == TStr(ms[k].name, KeyLen(h, ms, Size(Width(v)), k), true)
        {
          TokensKey(ms, k);
        }
      case _ =>
    }
  }
}
