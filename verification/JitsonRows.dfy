// Where the parts of a collection are in its row of tokens, and that changing a part, or
// adding an index, leaves the row standing for the same value.
module JitsonRows {
  import opened JsonText
  import opened JsonMeaning
  import opened CStrings
  import opened JitsonTokens

  /** The part of a row at a place. */
  function Part(s: seq<Token>, at: nat, w: nat): seq<Token>
    requires at + w <= |s|
  {
    s[at..at + w]
  }

  lemma {:induction false} PartOfRest(s: seq<Token>, d: nat, at: nat, w: nat)
    requires d + at + w <= |s|
    ensures Part(s[d..], at, w) == Part(s, d + at, w)
  {
    var x, y := Part(s[d..], at, w), Part(s, d + at, w);
    assert |x| == |y| == w;
    forall i | 0 <= i < w ensures x[i] == y[i] { }
  }

  // ---------------------------------------------------------------- elements

  lemma {:induction false} BeyondFirstElement(es: seq<Value>, k: nat)
    requires 0 < k <= |es|
    ensures WidthAll(es[..k]) == Width(es[0]) + WidthAll(es[1..][..k - 1])
  {
    assert es[..k] == [es[0]] + es[1..][..k - 1];
    assert es[..k][1..] == es[1..][..k - 1];
  }

  lemma {:induction false} ElementIn(h: Hasher, s: seq<Token>, es: seq<Value>, k: nat)
    requires RepAll(h, s, es) && k < |es|
    ensures WidthAll(es[..k]) + Width(es[k]) <= |s|
    ensures Rep(h, Part(s, WidthAll(es[..k]), Width(es[k])), es[k])
    decreases k
  {
    hide Rep;
    var w := Width(es[0]);
    if k == 0 {
      assert Part(s, 0, w) == s[..w];
    } else {
      ElementIn(h, s[w..], es[1..], k - 1);
      BeyondFirstElement(es, k);
      PartOfRest(s, w, WidthAll(es[1..][..k - 1]), Width(es[k]));
    }
  }

  /** Element k of an array is where ElementAt says. */
  lemma {:induction false} ElementRow(h: Hasher, s: seq<Token>, es: seq<Value>, k: nat)
    requires Rep(h, s, Arr(es)) && k < |es|
    ensures ElementAt(es, k) + Width(es[k]) <= |s|
    ensures Rep(h, Part(s, ElementAt(es, k), Width(es[k])), es[k])
  {
    ElementIn(h, s[1..], es, k);
    PartOfRest(s, 1, WidthAll(es[..k]), Width(es[k]));
  }

  /** s' is s with other tokens at most in one part. */
  ghost predicate OnlyWithin(s: seq<Token>, s': seq<Token>, at: nat, w: nat) {
    |s'| == |s| && forall i :: 0 <= i < |s| && !(at <= i < at + w) ==> s'[i] == s[i]
  }

  lemma {:induction false} ReplaceIn(h: Hasher, s: seq<Token>, s': seq<Token>, es: seq<Value>, k: nat)
    requires RepAll(h, s, es) && k < |es|
    requires var at, w := WidthAll(es[..k]), Width(es[k]);
             OnlyWithin(s, s', at, w) && at + w <= |s'| && Rep(h, Part(s', at, w), es[k])
    ensures RepAll(h, s', es)
    decreases k
  {
    hide Rep;
    var w := Width(es[0]);
    if k == 0 {
      assert Part(s', 0, w) == s'[..w];
      assert s'[w..] == s[w..];
    } else {
      BeyondFirstElement(es, k);
      var at := WidthAll(es[1..][..k - 1]);
      assert s'[..w] == s[..w];
      PartOfRest(s', w, at, Width(es[k]));
      assert OnlyWithin(s[w..], s'[w..], at, Width(es[k]));
      ReplaceIn(h, s[w..], s'[w..], es[1..], k - 1);
    }
  }

  /** Changing the tokens of an element, which still stand for it, leaves the array the same. */
  lemma {:induction false} ReplaceElement(h: Hasher, s: seq<Token>, s': seq<Token>, es: seq<Value>, k: nat)
    requires Rep(h, s, Arr(es)) && k < |es|
    requires OnlyWithin(s, s', ElementAt(es, k), Width(es[k])) && ElementAt(es, k) + Width(es[k]) <= |s'|
    requires Rep(h, Part(s', ElementAt(es, k), Width(es[k])), es[k])
    ensures Rep(h, s', Arr(es))
  {
    var at, w := WidthAll(es[..k]), Width(es[k]);
    ElementsFollow(es, k);
    PartOfRest(s', 1, at, w);
    assert OnlyWithin(s[1..], s'[1..], at, w);
    ReplaceIn(h, s[1..], s'[1..], es, k);
  }

  /** Indexing an array leaves it standing for the same elements. */
  lemma {:induction false} IndexedArray(h: Hasher, s: seq<Token>, es: seq<Value>, ix: seq<nat>)
    requires Rep(h, s, Arr(es)) && ArrayExtentOk(es, Index(ix))
    ensures Rep(h, s[0 := TArr(|es|, Index(ix))], Arr(es))
  {
    assert s[0 := TArr(|es|, Index(ix))][1..] == s[1..];
  }

  // ---------------------------------------------------------------- members

  lemma {:induction false} BeyondFirst(ms: seq<Member>, k: nat)
    requires 0 < k <= |ms|
    ensures WidthMembers(ms[..k]) == WidthMember(ms[0]) + WidthMembers(ms[1..][..k - 1])
  {
    assert ms[..k] == [ms[0]] + ms[1..][..k - 1];
    assert ms[..k][1..] == ms[1..][..k - 1];
  }

  lemma {:induction false} MemberIn(h: Hasher, s: seq<Token>, ms: seq<Member>, k: nat)
    requires RepMembers(h, s, ms) && k < |ms|
    ensures KeySizeOk(ms[k].name)
    ensures WidthMembers(ms[..k]) + WidthMember(ms[k]) <= |s|
    ensures Rep(h, Part(s, WidthMembers(ms[..k]) + StringWidth(|ms[k].name|), Width(ms[k].value)), ms[k].value)
    decreases k
  {
    hide Rep, KeySizeOk;
    var n, w := StringWidth(|ms[0].name|), WidthMember(ms[0]);
    if k == 0 {
      assert Part(s, n, Width(ms[0].value)) == s[n..w];
    } else {
      MemberIn(h, s[w..], ms[1..], k - 1);
      BeyondFirst(ms, k);
      PartOfRest(s, w, WidthMembers(ms[1..][..k - 1]) + StringWidth(|ms[k].name|), Width(ms[k].value));
    }
  }

  lemma {:induction false} ValuePlace(ms: seq<Member>, k: nat)
    requires k < |ms|
    ensures ValueAt(ms, k) == KeyAt(ms, k) + StringWidth(|ms[k].name|)
  {
  }

  lemma {:induction false} MembersRow(h: Hasher, s: seq<Token>, ms: seq<Member>, k: nat)
    requires |s| == 1 + WidthMembers(ms) && RepMembers(h, s[1..], ms) && k < |ms|
    ensures KeySizeOk(ms[k].name)
    ensures KeyAt(ms, k) < |s| && ValueAt(ms, k) + Width(ms[k].value) <= |s|
    ensures Rep(h, Part(s, ValueAt(ms, k), Width(ms[k].value)), ms[k].value)
  {
    MemberIn(h, s[1..], ms, k);
    PartOfRest(s, 1, WidthMembers(ms[..k]) + StringWidth(|ms[k].name|), Width(ms[k].value));
  }

  lemma {:induction false} ReplaceValueIn(h: Hasher, s: seq<Token>, s': seq<Token>, ms: seq<Member>, k: nat)
    requires RepMembers(h, s, ms) && k < |ms|
    requires var at, w := WidthMembers(ms[..k]) + StringWidth(|ms[k].name|), Width(ms[k].value);
             OnlyWithin(s, s', at, w) && at + w <= |s'| && Rep(h, Part(s', at, w), ms[k].value)
    ensures RepMembers(h, s', ms)
    decreases k
  {
    hide Rep;
    var n, w := StringWidth(|ms[0].name|), WidthMember(ms[0]);
    if k == 0 {
      assert Part(s', n, Width(ms[0].value)) == s'[n..w];
      assert s'[w..] == s[w..];
    } else {
      BeyondFirst(ms, k);
      var at := WidthMembers(ms[1..][..k - 1]) + StringWidth(|ms[k].name|);
      assert s'[n..w] == s[n..w];
      PartOfRest(s', w, at, Width(ms[k].value));
      assert OnlyWithin(s[w..], s'[w..], at, Width(ms[k].value));
      ReplaceValueIn(h, s[w..], s'[w..], ms[1..], k - 1);
    }
  }

  /** The keys of an object are outside the values of its members. */
  lemma {:induction false} KeyOutside(ms: seq<Member>, j: nat, k: nat)
    requires j < |ms| && k < |ms|
    ensures KeyAt(ms, j) < ValueAt(ms, k) || KeyAt(ms, j) >= ValueAt(ms, k) + Width(ms[k].value)
  {
    if j < k { KeysAscend(ms, j, k); }
    if k < j { KeysAscend(ms, k, j); }
  }

  /** Changing the tokens of a member's value, which still stand for it, leaves the object the same. */
  lemma {:induction false} ReplaceValue(h: Hasher, s: seq<Token>, s': seq<Token>, ms: seq<Member>, k: nat)
    requires Rep(h, s, Obj(ms)) && k < |ms|
    requires OnlyWithin(s, s', ValueAt(ms, k), Width(ms[k].value)) && ValueAt(ms, k) + Width(ms[k].value) <= |s'|
    requires Rep(h, Part(s', ValueAt(ms, k), Width(ms[k].value)), ms[k].value)
    ensures Rep(h, s', Obj(ms))
  {
    var at, w := WidthMembers(ms[..k]) + StringWidth(|ms[k].name|), Width(ms[k].value);
    PartOfRest(s', 1, at, w);
    assert OnlyWithin(s[1..], s'[1..], at, w);
    ReplaceValueIn(h, s[1..], s'[1..], ms, k);
    forall j | 0 <= j < |ms|
      ensures KeyAt(ms, j) < |s'| && s'[KeyAt(ms, j)] == TStr(ms[j].name, KeyLen(h, ms, s'[0].extent, j), true)
    {
      KeyOutside(ms, j, k);
    }
  }

  lemma {:induction false} RekeyIn(h: Hasher, s: seq<Token>, ms: seq<Member>, k: nat, x: Token)
    requires RepMembers(h, s, ms) && k < |ms|
    ensures WidthMembers(ms[..k]) < |s|
    ensures RepMembers(h, s[WidthMembers(ms[..k]) := x], ms)
    decreases k
  {
    hide Rep;
    var n, w := StringWidth(|ms[0].name|), WidthMember(ms[0]);
    MemberIn(h, s, ms, k);
    var s' := s[WidthMembers(ms[..k]) := x];
    if k == 0 {
      assert s'[n..w] == s[n..w] && s'[w..] == s[w..];
    } else {
      RekeyIn(h, s[w..], ms[1..], k - 1, x);
      BeyondFirst(ms, k);
      assert s'[n..w] == s[n..w];
      assert s'[w..] == s[w..][WidthMembers(ms[1..][..k - 1]) := x];
    }
  }

  /** The token that holds a key says nothing about the members' values. */
  lemma {:induction false} Rekey(h: Hasher, s: seq<Token>, ms: seq<Member>, k: nat, x: Token)
    requires |s| == 1 + WidthMembers(ms) && RepMembers(h, s[1..], ms) && k < |ms|
    ensures KeyAt(ms, k) < |s| && RepMembers(h, s[KeyAt(ms, k) := x][1..], ms)
  {
    RekeyIn(h, s[1..], ms, k, x);
    assert s[KeyAt(ms, k) := x][1..] == s[1..][WidthMembers(ms[..k]) := x];
  }

  /** The keys of the first m members are linked, those of the others hold their lengths. */
  ghost predicate KeysLinked(h: Hasher, s: seq<Token>, ms: seq<Member>, m: nat) {
    forall k {:trigger KeyAt(ms, k)} :: 0 <= k < |ms| ==>
      && KeyAt(ms, k) < |s|
      && s[KeyAt(ms, k)] == TStr(ms[k].name, if k < m then LinkTo(h, ms, Bucket(h, ms, k), k) else |ms[k].name|, true)
  }

  /** Linking the next key. */
  lemma {:induction false} LinkKey(h: Hasher, s: seq<Token>, ms: seq<Member>, m: nat)
    requires KeysLinked(h, s, ms, m) && m < |ms|
    ensures KeyAt(ms, m) < |s|
    ensures KeysLinked(h, s[KeyAt(ms, m) := TStr(ms[m].name, LinkTo(h, ms, Bucket(h, ms, m), m), true)], ms, m + 1)
  {
    var s' := s[KeyAt(ms, m) := TStr(ms[m].name, LinkTo(h, ms, Bucket(h, ms, m), m), true)];
    forall k | 0 <= k < |ms|
      ensures KeyAt(ms, k) < |s'|
      ensures s'[KeyAt(ms, k)] == TStr(ms[k].name, if k < m + 1 then LinkTo(h, ms, Bucket(h, ms, k), k) else |ms[k].name|, true)
    {
      if k < m { KeysAscend(ms, k, m); }
      if m < k { KeysAscend(ms, m, k); }
    }
  }

  /** An object with all keys linked and the heads of its buckets is indexed, and stands for the same members. */
  lemma {:induction false} IndexedObject(h: Hasher, s: seq<Token>, ms: seq<Member>, ix: seq<nat>)
    requires |s| == 1 + WidthMembers(ms) && RepMembers(h, s[1..], ms) && KeysLinked(h, s, ms, |ms|)
    requires ObjectExtentOk(h, ms, Index(ix))
    ensures Rep(h, s[0 := TObj(|ms|, Index(ix))], Obj(ms))
  {
    var s' := s[0 := TObj(|ms|, Index(ix))];
    assert s'[1..] == s[1..];
    forall k | 0 <= k < |ms| ensures KeyAt(ms, k) < |s'| && s'[KeyAt(ms, k)] == TStr(ms[k].name, KeyLen(h, ms, Index(ix), k), true) {
      assert KeyAt(ms, k) < |s|;
    }
  }
}
