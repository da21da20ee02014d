// Values held as tokens: getting elements and members by indexes that are made when they
// are first needed, and printing.
module Jitson {
  import opened SxeUnicode
  import opened JsonText
  import opened JsonPrint
  import opened JsonMeaning
  import opened CStrings
  import opened JitsonTokens
  import opened JitsonRows

  const NONE: int := -1

  lemma {:induction false} FirstUnchanged(s: seq<Token>, i: nat, w: nat, x: Token)
    requires w > 0 && i + w <= |s|
    ensures Part(s[i := x], i, w) == Part(s, i, w)[0 := x]
    ensures OnlyWithin(s, s[i := x], i, w)
  {
  }

  lemma {:induction false} PartOfPart(s: seq<Token>, i: nat, w: nat, at: nat, n: nat)
    requires i + w <= |s| && at + n <= w
    ensures Part(Part(s, i, w), at, n) == Part(s, i + at, n)
  {
    var x, y := Part(Part(s, i, w), at, n), Part(s, i + at, n);
    assert |x| == |y| == n;
    forall k | 0 <= k < n ensures x[k] == y[k] { assert x[k] == Part(s, i, w)[at + k] == s[i + (at + k)]; }
  }

  lemma {:induction false} PartUpdate(s: seq<Token>, i: nat, w: nat, at: nat, x: Token)
    requires i + w <= |s| && at < w
    ensures Part(s[i + at := x], i, w) == Part(s, i, w)[at := x]
  {
    var a, b := Part(s[i + at := x], i, w), Part(s, i, w)[at := x];
    assert |a| == |b| == w;
    forall k | 0 <= k < w ensures a[k] == b[k] { }
  }

  /** How a change within a part of a part looks from the part. */
  lemma {:induction false} WithinPart(s: seq<Token>, s': seq<Token>, i: nat, w: nat, at: nat, n: nat)
    requires i + w <= |s| && at + n <= w && OnlyWithin(s, s', i + at, n)
    ensures OnlyWithin(Part(s, i, w), Part(s', i, w), at, n) && OnlyWithin(s, s', i, w)
  {
    var a, b := Part(s, i, w), Part(s', i, w);
    forall k | 0 <= k < w && !(at <= k < at + n) ensures b[k] == a[k] { assert s'[i + k] == s[i + k]; }
  }

  lemma {:induction false} WithinTrans(a: seq<Token>, b: seq<Token>, c: seq<Token>, at: nat, w: nat)
    requires OnlyWithin(a, b, at, w) && OnlyWithin(b, c, at, w)
    ensures OnlyWithin(a, c, at, w)
  {
  }

  /** The last member with a name, or -1. */
  function LastNamed(ms: seq<Member>, name: Text, m: nat): (k: int)
    requires m <= |ms|
    ensures -1 <= k < m
    ensures k >= 0 ==> ms[k].name == name
    ensures forall j :: k < j < m ==> ms[j].name != name
  {
    if m == 0 then -1 else if ms[m - 1].name == name then m - 1 else LastNamed(ms, name, m - 1)
  }

  /** Whether member k is taken for one with a name: it is in the name's bucket, and its name is seen as that. */
  predicate SeenAs(h: Hasher, ms: seq<Member>, name: Text, k: nat)
    requires k < |ms|
  {
    Bucket(h, ms, k) == h(name) % |ms| && Cut(ms[k].name) == name
  }

  /** The last member that is taken for one with a name, or -1. */
  function LastSeen(h: Hasher, ms: seq<Member>, name: Text, m: nat): (k: int)
    requires m <= |ms|
    ensures -1 <= k < m
    ensures k >= 0 ==> SeenAs(h, ms, name, k)
    ensures forall j :: k < j < m ==> !SeenAs(h, ms, name, j)
  {
    if m == 0 then -1 else if SeenAs(h, ms, name, m - 1) then m - 1 else LastSeen(h, ms, name, m - 1)
  }

  lemma {:induction false} LastSeenIs(h: Hasher, ms: seq<Member>, name: Text, k: nat)
    requires k < |ms| && SeenAs(h, ms, name, k) && forall j :: k < j < |ms| ==> !SeenAs(h, ms, name, j)
    ensures LastSeen(h, ms, name, |ms|) == k
  {
    var l := LastSeen(h, ms, name, |ms|);
  }

  lemma {:induction false} NoneSeenIs(h: Hasher, ms: seq<Member>, name: Text)
    requires forall j :: 0 <= j < |ms| ==> !SeenAs(h, ms, name, j)
    ensures LastSeen(h, ms, name, |ms|) == -1
  {
    var l := LastSeen(h, ms, name, |ms|);
  }

  /** Without zero bytes in names the member that is seen is the last one with the name. */
  lemma {:induction false} LastSeenIsNamed(h: Hasher, ms: seq<Member>, name: Text, m: nat)
    requires m <= |ms| && NulFreeMembers(ms)
    ensures LastSeen(h, ms, name, m) == LastNamed(ms, name, m)
  {
    if m > 0 {
      StrlenWhole(ms[m - 1].name);
      LastSeenIsNamed(h, ms, name, m - 1);
    }
  }

  /** A member with a zero byte in its name cannot be got by that name. */
  lemma {:induction false} NulNameNotSeen(h: Hasher, ms: seq<Member>, name: Text)
    requires !NulFree(name)
    ensures LastSeen(h, ms, name, |ms|) == -1
  {
    var k := LastSeen(h, ms, name, |ms|);
  }

  class Memory {
    const hash: Hasher
    var tokens: seq<Token>

    /** The tokens at i stand for a value. */
    ghost predicate Row(i: nat, v: Value)
      reads this
    {
      i + Width(v) <= |tokens| && Rep(hash, Part(tokens, i, Width(v)), v)
    }

    constructor (hash: Hasher, tokens: seq<Token>)
      ensures this.hash == hash && this.tokens == tokens
    {
      this.hash := hash;
      this.tokens := tokens;
    }

    lemma {:induction false} RowSize(i: nat, v: Value)
      requires Row(i, v)
      ensures i < |tokens| && ExtentFits(tokens[i]) && TokenSize(tokens[i]) == Width(v)
      ensures Part(tokens, i, Width(v))[0] == tokens[i]
    {
      SizeIsWidth(hash, Part(tokens, i, Width(v)), v);
    }

    // -------------------------------------------------------------- arrays

    lemma {:induction false} ElementIsRow(i: nat, es: seq<Value>, k: nat)
      requires Row(i, Arr(es)) && k < |es|
      ensures Row(i + ElementAt(es, k), es[k])
    {
      var w := Width(Arr(es));
      ElementRow(hash, Part(tokens, i, w), es, k);
      PartOfPart(tokens, i, w, ElementAt(es, k), Width(es[k]));
    }

    lemma {:induction false} ArrayToken(i: nat, es: seq<Value>)
      requires Row(i, Arr(es))
      ensures i < |tokens| && tokens[i].TArr? && tokens[i].len == |es| && ArrayExtentOk(es, tokens[i].extent)
    {
    }

    /** Make the index of an array. */
    method IndexArray(i: nat, ghost es: seq<Value>)
      requires Row(i, Arr(es)) && es != [] && tokens[i].TArr? && tokens[i].extent.Size?
      modifies this
      ensures Row(i, Arr(es)) && OnlyWithin(old(tokens), tokens, i, Width(Arr(es)))
      ensures tokens[i].TArr? && tokens[i].extent.Index?
    {
      hide Rep, ElementAt, Width;
      ArrayToken(i, es);
      var len := tokens[i].len;
      var index: seq<nat> := [];
      var k, element := 0, 1;
      ElementsFollow(es, 0);
      while k < len
        invariant tokens == old(tokens)
        invariant k <= len == |es| && |index| == k && element == ElementAt(es, k)
        invariant forall j :: 0 <= j < k ==> index[j] == ElementAt(es, j)
      {
        index := index + [element];
        ElementIsRow(i, es, k);
        RowSize(i + element, es[k]);
        ElementsFollow(es, k);
        element := element + TokenSize(tokens[i + element]);
        k := k + 1;
      }
      ElementsFollow(es, 0);
      index := index + [tokens[i].extent.n];
      IndexedArray(hash, Part(tokens, i, Width(Arr(es))), es, index);
      FirstUnchanged(tokens, i, Width(Arr(es)), TArr(len, Index(index)));
      tokens := tokens[i := TArr(len, Index(index))];
    }

    /** Element idx of an array, or NONE; indexes the array if that has not been done. */
    method GetElement(i: nat, idx: nat, ghost es: seq<Value>) returns (p: int)
      requires Row(i, Arr(es))
      modifies this
      ensures Row(i, Arr(es)) && OnlyWithin(old(tokens), tokens, i, Width(Arr(es)))
      ensures idx >= |es| ==> p == NONE && tokens == old(tokens)
      ensures idx < |es| ==> p == i + ElementAt(es, idx) && Row(p, es[idx])
    {
      hide Rep, ElementAt;
      ArrayToken(i, es);
      if idx >= tokens[i].len {
        p := NONE;
      } else {
        if tokens[i].extent.Size? {
          IndexArray(i, es);
          ArrayToken(i, es);
        }
        ElementIsRow(i, es, idx);
        p := i + tokens[i].extent.ix[idx];
      }
    }

    // -------------------------------------------------------------- objects

    lemma {:induction false} ObjectToken(i: nat, ms: seq<Member>)
      requires Row(i, Obj(ms))
      ensures i < |tokens| && tokens[i].TObj? && tokens[i].len == |ms| && ObjectExtentOk(hash, ms, tokens[i].extent)
    {
    }

    /** The row of an object whose keys are being linked: the first m are. */
    ghost predicate Linking(i: nat, ms: seq<Member>, m: nat)
      reads this
    {
      && i + Width(Obj(ms)) <= |tokens|
      && var s := Part(tokens, i, Width(Obj(ms)));
         RepMembers(hash, s[1..], ms) && KeysLinked(hash, s, ms, m)
    }

    lemma {:induction false} LinkingBegins(i: nat, ms: seq<Member>)
      requires Row(i, Obj(ms)) && tokens[i].TObj? && tokens[i].extent.Size?
      ensures Linking(i, ms, 0)
    {
      var s := Part(tokens, i, Width(Obj(ms)));
      assert s[0] == tokens[i];
      forall k | 0 <= k < |ms| ensures KeyAt(ms, k) < |s| && s[KeyAt(ms, k)] == TStr(ms[k].name, |ms[k].name|, true) {
        assert KeyLen(hash, ms, s[0].extent, k) == |ms[k].name|;
      }
    }

    lemma {:induction false} KeyIs(i: nat, ms: seq<Member>, m: nat, k: nat)
      requires Linking(i, ms, m) && k < |ms|
      ensures i + KeyAt(ms, k) < |tokens|
      ensures tokens[i + KeyAt(ms, k)] ==
              TStr(ms[k].name, if k < m then LinkTo(hash, ms, Bucket(hash, ms, k), k) else |ms[k].name|, true)
      ensures ExtentFits(tokens[i + KeyAt(ms, k)]) && TokenSize(tokens[i + KeyAt(ms, k)]) == StringWidth(|ms[k].name|)
    {
      var s := Part(tokens, i, Width(Obj(ms)));
      MembersRow(hash, s, ms, k);
      assert s[KeyAt(ms, k)] == tokens[i + KeyAt(ms, k)];
    }

    lemma {:induction false} ValueIs(i: nat, ms: seq<Member>, m: nat, k: nat)
      requires Linking(i, ms, m) && k < |ms|
      ensures Row(i + ValueAt(ms, k), ms[k].value)
    {
      var w := Width(Obj(ms));
      MembersRow(hash, Part(tokens, i, w), ms, k);
      PartOfPart(tokens, i, w, ValueAt(ms, k), Width(ms[k].value));
    }

    /** An indexed object has all its keys linked. */
    lemma {:induction false} IndexedIsLinked(i: nat, ms: seq<Member>)
      requires Row(i, Obj(ms)) && tokens[i].TObj? && tokens[i].extent.Index?
      ensures Linking(i, ms, |ms|)
    {
      var s := Part(tokens, i, Width(Obj(ms)));
      assert s[0] == tokens[i];
      forall k | 0 <= k < |ms|
        ensures KeyAt(ms, k) < |s| && s[KeyAt(ms, k)] == TStr(ms[k].name, LinkTo(hash, ms, Bucket(hash, ms, k), k), true)
      {
        assert KeyLen(hash, ms, s[0].extent, k) == LinkTo(hash, ms, Bucket(hash, ms, k), k);
      }
    }

    /** Link the key of member m to the key that was the last in its bucket. */
    method LinkMember(i: nat, member: nat, link: nat, ghost ms: seq<Member>, ghost m: nat)
      requires Linking(i, ms, m) && m < |ms| && member == KeyAt(ms, m) && link == LinkTo(hash, ms, Bucket(hash, ms, m), m)
      modifies this
      ensures Linking(i, ms, m + 1) && OnlyWithin(old(tokens), tokens, i, Width(Obj(ms)))
      ensures tokens[i] == old(tokens)[i]
    {
      KeyIs(i, ms, m, m);
      var t := tokens[i + member];
      ghost var s := Part(tokens, i, Width(Obj(ms)));
      Rekey(hash, s, ms, m, TStr(ms[m].name, link, true));
      LinkKey(hash, s, ms, m);
      PartUpdate(tokens, i, Width(Obj(ms)), member, TStr(ms[m].name, link, true));
      tokens := tokens[i + member := TStr(t.bytes, link, t.isKey)];
    }

    /** Make the index of an object: the last key of each bucket, each key linked to the one before. */
    method IndexObject(i: nat, ghost ms: seq<Member>)
      requires Row(i, Obj(ms)) && ms != [] && tokens[i].TObj? && tokens[i].extent.Size?
      modifies this
      ensures Row(i, Obj(ms)) && OnlyWithin(old(tokens), tokens, i, Width(Obj(ms)))
      ensures tokens[i].TObj? && tokens[i].extent.Index?
    {
      hide Rep, KeyAt, ValueAt, Width, RepMembers, KeysLinked, LinkTo, Linking, Row;
      ObjectToken(i, ms);
      LinkingBegins(i, ms);
      var len, size := tokens[i].len, tokens[i].extent.n;
      var index: seq<nat> := seq(len, _ => 0);
      var k, member := 0, 1;
      MembersFollow(ms, 0);
      NothingLinked(hash, ms);
      while k < len
        invariant k <= len == |ms| && |index| == len && member == KeyAt(ms, k)
        invariant Linking(i, ms, k) && i < |tokens| && tokens[i] == TObj(len, Size(size))
        invariant OnlyWithin(old(tokens), tokens, i, Width(Obj(ms)))
        invariant forall b :: 0 <= b < len ==> index[b] == LinkTo(hash, ms, b, k)
      {
        KeyIs(i, ms, k, k);
        ghost var was := tokens;
        var t := tokens[i + member];
        var b := hash(t.bytes) % len;
        LinkMember(i, member, index[b], ms, k);
        WithinTrans(old(tokens), was, tokens, i, Width(Obj(ms)));
        BucketMoves(hash, ms, k, index, member);
        index := index[b := member];
        KeyIs(i, ms, k + 1, k);
        ValueIs(i, ms, k + 1, k);
        MembersFollow(ms, k);
        member := member + TokenSize(tokens[i + member]);
        ValuePlace(ms, k);
        RowSize(i + member, ms[k].value);
        member := member + TokenSize(tokens[i + member]);
        k := k + 1;
      }
      MembersFollow(ms, 0);
      index := index + [size];
      SetIndex(i, index, ms);
    }

    /** Put the index of an object in its token. */
    method SetIndex(i: nat, index: seq<nat>, ghost ms: seq<Member>)
      requires Linking(i, ms, |ms|) && tokens[i].TObj? && tokens[i].len == |ms|
      requires |index| == |ms| + 1 && index[|ms|] == Width(Obj(ms))
      requires forall b :: 0 <= b < |ms| ==> index[b] == LinkTo(hash, ms, b, |ms|)
      modifies this
      ensures Row(i, Obj(ms)) && OnlyWithin(old(tokens), tokens, i, Width(Obj(ms)))
      ensures tokens[i].TObj? && tokens[i].extent.Index?
    {
      hide Rep, RepMembers, KeysLinked, LinkTo;
      IndexedObject(hash, Part(tokens, i, Width(Obj(ms))), ms, index);
      FirstUnchanged(tokens, i, Width(Obj(ms)), TObj(|ms|, Index(index)));
      tokens := tokens[i := TObj(tokens[i].len, Index(index))];
    }

    /**
     * The value of the last member of an object that is taken for one with a name, or NONE;
     * indexes the object if that has not been done.
     */
    method GetMember(i: nat, name: Text, ghost ms: seq<Member>) returns (p: int)
      requires Row(i, Obj(ms))
      modifies this
      ensures Row(i, Obj(ms)) && OnlyWithin(old(tokens), tokens, i, Width(Obj(ms)))
      ensures ms != [] ==> tokens[i].TObj? && tokens[i].extent.Index?
      ensures var k := LastSeen(hash, ms, name, |ms|);
              if k < 0 then p == NONE else p == i + ValueAt(ms, k) && Row(p, ms[k].value)
    {
      hide Rep, KeyAt, ValueAt, Width, RepMembers, KeysLinked, LastSeen, OnlyWithin;
      ObjectToken(i, ms);
      var len := tokens[i].len;
      if len == 0 {
        NoneSeenIs(hash, ms, name);
        NothingChanged(tokens, i, Width(Obj(ms)));
        return NONE;
      }
      NothingChanged(tokens, i, Width(Obj(ms)));
      if tokens[i].extent.Size? {
        IndexObject(i, ms);
        ObjectToken(i, ms);
      }
      IndexedIsLinked(i, ms);
      p := FindMember(i, name, ms);
    }

    /** Search the bucket of a name in an indexed object. */
    method FindMember(i: nat, name: Text, ghost ms: seq<Member>) returns (p: int)
      requires Linking(i, ms, |ms|) && ms != [] && i < |tokens| && tokens[i].TObj? && tokens[i].len == |ms|
      requires tokens[i].extent.Index? && ObjectExtentOk(hash, ms, tokens[i].extent)
      ensures var k := LastSeen(hash, ms, name, |ms|);
              if k < 0 then p == NONE else p == i + ValueAt(ms, k) && Row(p, ms[k].value)
    {
      hide Rep, KeyAt, ValueAt, Width, RepMembers, KeysLinked, LastSeen, SeenAs, Linking, LinkTo, Row, Cut;
      var b := hash(name) % tokens[i].len;
      var at := tokens[i].extent.ix[b];
      ghost var m: nat := |ms|;
      while at != 0
        invariant m <= |ms| && at == LinkTo(hash, ms, b, m)
        invariant forall j :: m <= j < |ms| ==> !SeenAs(hash, ms, name, j)
        decreases m
      {
        LinkedKey(hash, ms, b, m);
        ghost var k: nat := LastIn(hash, ms, b, m);
        KeyIs(i, ms, |ms|, k);
        var t := tokens[i + at];
        var len := StringLen(t);
        SeenInBucket(hash, ms, name, b, m, k);
        if len == |name| && t.bytes[..len] == name {
          LastSeenIs(hash, ms, name, k);
          ValueIs(i, ms, |ms|, k);
          ValuePlace(ms, k);
          return i + at + TokenSize(t);
        }
        at := t.len;
        m := k;
      }
      LinkedKey(hash, ms, b, m);
      NoneLeft(hash, ms, name, b, m);
      NoneSeenIs(hash, ms, name);
      p := NONE;
    }
  }

  /** In the bucket of a name, members before m are seen as that name at k or before, at k if that is how its name is seen. */
  lemma {:induction false} SeenInBucket(h: Hasher, ms: seq<Member>, name: Text, b: nat, m: nat, k: nat)
    requires m <= |ms| && ms != [] && b == h(name) % |ms| && k == LastIn(h, ms, b, m)
    ensures SeenAs(h, ms, name, k) <==> Strlen(ms[k].name) == |name| && ms[k].name[..Strlen(ms[k].name)] == name
    ensures forall j :: k < j < m ==> !SeenAs(h, ms, name, j)
  {
  }

  lemma {:induction false} NoneLeft(h: Hasher, ms: seq<Member>, name: Text, b: nat, m: nat)
    requires m <= |ms| && ms != [] && b == h(name) % |ms| && LastIn(h, ms, b, m) < 0
    ensures forall j :: 0 <= j < m ==> !SeenAs(h, ms, name, j)
  {
  }

  lemma {:induction false} NothingChanged(s: seq<Token>, at: nat, w: nat)
    ensures OnlyWithin(s, s, at, w)
  {
  }

  lemma {:induction false} NothingLinked(h: Hasher, ms: seq<Member>)
    ensures forall b :: 0 <= b < |ms| ==> LinkTo(h, ms, b, 0) == 0
  {
  }

  /** A link leads to the last key of its bucket, and is 0 when there is none. */
  lemma {:induction false} LinkedKey(h: Hasher, ms: seq<Member>, b: nat, m: nat)
    requires m <= |ms|
    ensures var k := LastIn(h, ms, b, m);
            && (LinkTo(h, ms, b, m) == 0 <==> k < 0)
            && (k >= 0 ==> LinkTo(h, ms, b, m) == KeyAt(ms, k))
            && forall j :: k < j < m ==> h(ms[j].name) % |ms| != b
  {
    forall j | LastIn(h, ms, b, m) < j < m ensures h(ms[j].name) % |ms| != b { assert Bucket(h, ms, j) != b; }
  }

  /** With one more member the last key of its bucket is that member's; other buckets stay. */
  lemma {:induction false} BucketMoves(h: Hasher, ms: seq<Member>, k: nat, index: seq<nat>, member: nat)
    requires k < |ms| == |index| && member == KeyAt(ms, k)
    requires forall b :: 0 <= b < |ms| ==> index[b] == LinkTo(h, ms, b, k)
    ensures var r := index[Bucket(h, ms, k) := member]; forall b :: 0 <= b < |ms| ==> r[b] == LinkTo(h, ms, b, k + 1)
  {
  }
}
