module JsonMeaning {
  // Values with their objects read as maps, and the order in which objects are printed: by
  // the buckets of their index.

  import opened JsonText
  import opened JsonPrint
  import opened CStrings

  /** A value whose objects are maps; of members with the same name the last one counts. */
  datatype Meaning =
    | MNull
    | MBool(b: bool)
    | MNum(n: nat)
    | MDbl(text: Text)
    | MStr(s: Text)
    | MArr(es: seq<Meaning>)
    | MObj(ms: map<Text, Meaning>)

  function Mean(v: Value): Meaning
    decreases v
  {
    match v
    case Null => MNull
    case Bool(b) => MBool(b)
    case Num(n) => MNum(n)
    case Dbl(text) => MDbl(text)
    case Str(s) => MStr(s)
    case Arr(es) => MArr(MeanAll(es))
    case Obj(ms) => MObj(MeanMembers(ms))
  }

  function MeanAll(es: seq<Value>): seq<Meaning>
    decreases es
  {
    if es == [] then [] else [Mean(es[0])] + MeanAll(es[1..])
  }

  function MeanMembers(ms: seq<Member>): map<Text, Meaning>
    decreases ms
  {
    if ms == [] then map[] else map[ms[0].name := Mean(ms[0].value)] + MeanMembers(ms[1..])
  }

  // ---------------------------------------------------------------- the order of buckets

  type Hasher = Text -> nat

  /** The members whose names fall in a bucket, last one first. */
  function InBucket(h: Hasher, ms: seq<Member>, n: nat, b: nat): seq<Member>
    requires n > 0
  {
    if ms == [] then [] else InBucket(h, ms[1..], n, b) + if h(ms[0].name) % n == b then [ms[0]] else []
  }

  /** The members of bucket b and all later ones. */
  function FromBucket(h: Hasher, ms: seq<Member>, n: nat, b: nat): seq<Member>
    requires n > 0
    decreases n - b
  {
    if b >= n then [] else InBucket(h, ms, n, b) + FromBucket(h, ms, n, b + 1)
  }

  /** The members of an object in the order of its index. */
  function Ordered(h: Hasher, ms: seq<Member>): seq<Member> {
    if ms == [] then [] else FromBucket(h, ms, |ms|, 0)
  }

  function BucketOf(h: Hasher, m: Member, n: nat): nat
    requires n > 0
  {
    h(m.name) % n
  }

  lemma {:induction false} PlacesInBucket(h: Hasher, ms: seq<Member>, n: nat, b: nat) returns (p: seq<nat>)
    requires n > 0
    ensures |p| == |InBucket(h, ms, n, b)|
    ensures forall i :: 0 <= i < |p| ==> p[i] < |ms| && InBucket(h, ms, n, b)[i] == ms[p[i]] && BucketOf(h, ms[p[i]], n) == b
    ensures forall i, j :: 0 <= i < j < |p| ==> p[i] > p[j]
  {
    p := [];
    if ms != [] {
      var rest := PlacesInBucket(h, ms[1..], n, b);
      p := seq(|rest|, i requires 0 <= i < |rest| => rest[i] + 1) + if h(ms[0].name) % n == b then [0] else [];
    }
  }

  /** Of the places of two members the first comes before the second in the index. */
  ghost predicate Sooner(h: Hasher, ms: seq<Member>, n: nat, x: nat, y: nat)
    requires n > 0 && x < |ms| && y < |ms|
  {
    var a, b := BucketOf(h, ms[x], n), BucketOf(h, ms[y], n);
    a < b || (a == b && x > y)
  }

  /** s are the members at these places, which are all in bucket b or later ones, in the order of the index. */
  ghost predicate ArePlaces(h: Hasher, ms: seq<Member>, n: nat, b: nat, s: seq<Member>, p: seq<nat>)
    requires n > 0
  {
    && |p| == |s|
    && (forall i :: 0 <= i < |p| ==> p[i] < |ms| && s[i] == ms[p[i]] && BucketOf(h, ms[p[i]], n) >= b)
    && (forall i, j :: 0 <= i < j < |p| ==> Sooner(h, ms, n, p[i], p[j]))
  }

  lemma {:induction false} PlacesJoined(h: Hasher, ms: seq<Member>, n: nat, b: nat, here: seq<nat>, s: seq<Member>,
          rest: seq<nat>, s': seq<Member>)
    requires n > 0 && ArePlaces(h, ms, n, b, s, here) && ArePlaces(h, ms, n, b + 1, s', rest)
    requires forall i :: 0 <= i < |here| ==> BucketOf(h, ms[here[i]], n) == b
    ensures ArePlaces(h, ms, n, b, s + s', here + rest)
  {
    hide BucketOf;
    var p := here + rest;
    forall i | 0 <= i < |p| ensures p[i] < |ms| && (s + s')[i] == ms[p[i]] && BucketOf(h, ms[p[i]], n) >= b {
      if i >= |here| { assert p[i] == rest[i - |here|] && (s + s')[i] == s'[i - |here|]; }
    }
    forall i, j | 0 <= i < j < |p| ensures Sooner(h, ms, n, p[i], p[j]) {
      if i >= |here| {
        assert Sooner(h, ms, n, rest[i - |here|], rest[j - |here|]);
      } else if j < |here| {
        assert Sooner(h, ms, n, here[i], here[j]);
      } else {
        assert p[j] == rest[j - |here|];
      }
    }
  }

  lemma {:induction false} BucketPlaces(h: Hasher, ms: seq<Member>, n: nat, b: nat) returns (p: seq<nat>)
    requires n > 0
    ensures ArePlaces(h, ms, n, b, InBucket(h, ms, n, b), p)
    ensures forall i :: 0 <= i < |p| ==> BucketOf(h, ms[p[i]], n) == b
  {
    hide InBucket, BucketOf;
    p := PlacesInBucket(h, ms, n, b);
  }

  lemma {:induction false} PlacesFromBucket(h: Hasher, ms: seq<Member>, n: nat, b: nat) returns (p: seq<nat>)
    requires n > 0
    ensures ArePlaces(h, ms, n, b, FromBucket(h, ms, n, b), p)
    decreases n - b
  {
    if b < n {
      hide InBucket, BucketOf, ArePlaces;
      var here := BucketPlaces(h, ms, n, b);
      var rest := PlacesFromBucket(h, ms, n, b + 1);
      p := here + rest;
      PlacesJoined(h, ms, n, b, here, InBucket(h, ms, n, b), rest, FromBucket(h, ms, n, b + 1));
    } else {
      p := [];
    }
  }

  /** In the order of the index lower buckets come first, and in a bucket later members. */
  lemma {:induction false} OrderedByBucket(h: Hasher, ms: seq<Member>) returns (p: seq<nat>)
    ensures |p| == |Ordered(h, ms)|
    ensures forall i :: 0 <= i < |p| ==> p[i] < |ms| && Ordered(h, ms)[i] == ms[p[i]]
    ensures forall i, j :: 0 <= i < j < |p| ==> Sooner(h, ms, |ms|, p[i], p[j])
  {
    p := [];
    if ms != [] { p := PlacesFromBucket(h, ms, |ms|, 0); }
  }

  /** m if it falls in one of the buckets from b to c - 1. */
  ghost function Between(h: Hasher, m: Member, n: nat, b: nat, c: nat): multiset<Member>
    requires n > 0
  {
    if b <= h(m.name) % n < c then multiset{m} else multiset{}
  }

  lemma {:induction false} InBucketGains(h: Hasher, ms: seq<Member>, n: nat, b: nat)
    requires n > 0 && ms != []
    ensures multiset(InBucket(h, ms, n, b)) == multiset(InBucket(h, ms[1..], n, b)) + Between(h, ms[0], n, b, b + 1)
  {
  }

  lemma {:induction false} BucketGains(h: Hasher, ms: seq<Member>, n: nat, b: nat)
    requires n > 0 && ms != []
    ensures multiset(FromBucket(h, ms, n, b)) == multiset(FromBucket(h, ms[1..], n, b)) + Between(h, ms[0], n, b, n)
    decreases n - b
  {
    hide InBucket;
    if b < n {
      BucketGains(h, ms, n, b + 1);
      InBucketGains(h, ms, n, b);
      assert Between(h, ms[0], n, b, n) == Between(h, ms[0], n, b, b + 1) + Between(h, ms[0], n, b + 1, n);
    }
  }

  lemma {:induction false} BucketsHoldAll(h: Hasher, ms: seq<Member>, n: nat)
    requires n > 0
    ensures multiset(FromBucket(h, ms, n, 0)) == multiset(ms)
  {
    hide FromBucket, InBucket;
    if ms == [] {
      NoBuckets(h, n, 0);
    } else {
      BucketGains(h, ms, n, 0);
      BucketsHoldAll(h, ms[1..], n);
      assert Between(h, ms[0], n, 0, n) == multiset{ms[0]};
      assert ms == [ms[0]] + ms[1..];
    }
  }

  lemma {:induction false} NoBuckets(h: Hasher, n: nat, b: nat)
    requires n > 0
    ensures FromBucket(h, [], n, b) == []
    decreases n - b
  {
    if b < n { NoBuckets(h, n, b + 1); }
  }

  /** Whatever the hash function, the buckets hold each member once. */
  lemma {:induction false} OrderedIsPermutation(h: Hasher, ms: seq<Member>)
    ensures multiset(Ordered(h, ms)) == multiset(ms)
    ensures |Ordered(h, ms)| == |ms|
    ensures forall m :: m in Ordered(h, ms) <==> m in ms
  {
    if ms != [] { BucketsHoldAll(h, ms, |ms|); }
    assert |multiset(Ordered(h, ms))| == |multiset(ms)|;
    forall m ensures m in Ordered(h, ms) <==> m in ms {
      assert m in multiset(Ordered(h, ms)) <==> m in multiset(ms);
    }
  }

  // ---------------------------------------------------------------- which member counts

  /** Members as a map in which the first member with a name counts. */
  function FirstMeans(ms: seq<Member>): map<Text, Meaning> {
    if ms == [] then map[] else FirstMeans(ms[1..]) + map[ms[0].name := Mean(ms[0].value)]
  }

  /** The entries whose names fall in one of the buckets from b to c - 1. */
  ghost function Only(h: Hasher, m: map<Text, Meaning>, n: nat, b: nat, c: nat): map<Text, Meaning>
    requires n > 0
  {
    map k | k in m && b <= h(k) % n < c :: m[k]
  }

  lemma {:induction false} MeansJoin(a: seq<Member>, b: seq<Member>)
    ensures MeanMembers(a + b) == MeanMembers(a) + MeanMembers(b)
  {
    if a == [] {
      assert a + b == b;
    } else {
      MeansJoin(a[1..], b);
      assert (a + b)[1..] == a[1..] + b;
    }
  }

  lemma {:induction false} OneMean(m: Member)
    ensures MeanMembers([m]) == map[m.name := Mean(m.value)]
  {
  }

  lemma {:induction false} NoMeans(h: Hasher, n: nat, b: nat, c: nat)
    requires n > 0
    ensures MeanMembers([]) == Only(h, map[], n, b, c)
  {
  }

  lemma {:induction false} OnlyGains(h: Hasher, f: map<Text, Meaning>, k: Text, x: Meaning, n: nat, b: nat)
    requires n > 0
    ensures var was := Only(h, f, n, b, b + 1);
            Only(h, f + map[k := x], n, b, b + 1) == if h(k) % n == b then was + map[k := x] else was
  {
  }

  lemma {:induction false} OnlyJoin(h: Hasher, f: map<Text, Meaning>, n: nat, b: nat)
    requires n > 0 && b < n
    ensures Only(h, f, n, b, n) == Only(h, f, n, b, b + 1) + Only(h, f, n, b + 1, n)
  {
  }

  /** A bucket holds its members last one first, so the first one with a name counts. */
  lemma {:induction false} BucketMeans(h: Hasher, ms: seq<Member>, n: nat, b: nat)
    requires n > 0
    ensures MeanMembers(InBucket(h, ms, n, b)) == Only(h, FirstMeans(ms), n, b, b + 1)
  {
    hide Only, MeanMembers, Mean;
    if ms == [] {
      NoMeans(h, n, b, b + 1);
    } else {
      var m := ms[0];
      BucketMeans(h, ms[1..], n, b);
      OnlyGains(h, FirstMeans(ms[1..]), m.name, Mean(m.value), n, b);
      if h(m.name) % n == b {
        MeansJoin(InBucket(h, ms[1..], n, b), [m]);
        OneMean(m);
      } else {
        assert InBucket(h, ms, n, b) == InBucket(h, ms[1..], n, b);
      }
    }
  }

  lemma {:induction false} BucketsMean(h: Hasher, ms: seq<Member>, n: nat, b: nat)
    requires n > 0
    ensures MeanMembers(FromBucket(h, ms, n, b)) == Only(h, FirstMeans(ms), n, b, n)
    decreases n - b
  {
    if b < n {
      hide InBucket, FirstMeans, MeanMembers, Only;
      OnlyJoin(h, FirstMeans(ms), n, b);
      BucketMeans(h, ms, n, b);
      BucketsMean(h, ms, n, b + 1);
      MeansJoin(InBucket(h, ms, n, b), FromBucket(h, ms, n, b + 1));
    }
  }

  /** In the order of buckets the last member with a name is the first one there was, whatever the hash function. */
  lemma {:induction false} OrderedMeansFirst(h: Hasher, ms: seq<Member>)
    ensures MeanMembers(Ordered(h, ms)) == FirstMeans(ms)
  {
    if ms != [] {
      BucketsMean(h, ms, |ms|, 0);
      hide FirstMeans;
      assert Only(h, FirstMeans(ms), |ms|, 0, |ms|) == FirstMeans(ms);
    }
  }

  // ---------------------------------------------------------------- names with zero bytes

  function CutAll(ms: seq<Member>): (r: seq<Member>)
    ensures |r| == |ms| && forall i :: 0 <= i < |ms| ==> r[i] == Member(Cut(ms[i].name), ms[i].value)
  {
    seq(|ms|, i requires 0 <= i < |ms| => Member(Cut(ms[i].name), ms[i].value))
  }

  ghost predicate NulFreeMembers(ms: seq<Member>) {
    forall i :: 0 <= i < |ms| ==> NulFree(ms[i].name)
  }

  lemma {:induction false} NothingCut(ms: seq<Member>)
    requires NulFreeMembers(ms)
    ensures CutAll(ms) == ms
  {
    forall i | 0 <= i < |ms| ensures Cut(ms[i].name) == ms[i].name { StrlenWhole(ms[i].name); }
  }

  /** All names of the value are free of zero bytes. */
  ghost predicate NulFreeNames(v: Value)
    decreases v
  {
    match v
    case Arr(es) => forall i :: 0 <= i < |es| ==> NulFreeNames(es[i])
    case Obj(ms) => forall i :: 0 <= i < |ms| ==> NulFree(ms[i].name) && NulFreeNames(ms[i].value)
    case _ => true
  }

  // ---------------------------------------------------------------- whole values

  /**
   * The value as it is printed: the members of all its objects in the order of their indexes,
   * their names as they are seen.
   */
  function Shuffled(h: Hasher, v: Value): Value
    decreases v
  {
    match v
    case Arr(es) => Arr(ShuffledAll(h, es))
    case Obj(ms) => Obj(CutAll(Ordered(h, ShuffledMembers(h, ms))))
    case _ => v
  }

  function ShuffledAll(h: Hasher, es: seq<Value>): (r: seq<Value>)
    ensures |r| == |es|
    decreases es
  {
    if es == [] then [] else [Shuffled(h, es[0])] + ShuffledAll(h, es[1..])
  }

  function ShuffledMembers(h: Hasher, ms: seq<Member>): (r: seq<Member>)
    ensures |r| == |ms|
    ensures forall i :: 0 <= i < |ms| ==> r[i].name == ms[i].name
    decreases ms
  {
    if ms == [] then [] else [Member(ms[0].name, Shuffled(h, ms[0].value))] + ShuffledMembers(h, ms[1..])
  }

  /** What a value means if the first member with a name counts, in all objects. */
  function MeanFirst(v: Value): Meaning
    decreases v
  {
    match v
    case Arr(es) => MArr(MeanFirstAll(es))
    case Obj(ms) => MObj(MeanFirstMembers(ms))
    case _ => Mean(v)
  }

  function MeanFirstAll(es: seq<Value>): (r: seq<Meaning>)
    ensures |r| == |es| && forall i :: 0 <= i < |es| ==> r[i] == MeanFirst(es[i])
    decreases es
  {
    if es == [] then [] else [MeanFirst(es[0])] + MeanFirstAll(es[1..])
  }

  function MeanFirstMembers(ms: seq<Member>): map<Text, Meaning>
    decreases ms
  {
    if ms == [] then map[] else MeanFirstMembers(ms[1..]) + map[ms[0].name := MeanFirst(ms[0].value)]
  }

  /**
   * As it is printed, a value means what it means by its first members, whatever the hash
   * function, if no name holds a zero byte.
   */
  lemma {:induction false} ShuffledMeansFirst(h: Hasher, v: Value)
    requires NulFreeNames(v)
    ensures Mean(Shuffled(h, v)) == MeanFirst(v)
    decreases v
  {
    match v {
      case Arr(es) => AllMeanFirst(h, es);
      case Obj(ms) =>
        MembersMeanFirst(h, ms);
        MembersMean(h, ShuffledMembers(h, ms));
      case _ =>
    }
  }

  lemma {:induction false} AllMeanFirst(h: Hasher, es: seq<Value>)
    requires forall i :: 0 <= i < |es| ==> NulFreeNames(es[i])
    ensures MeanAll(ShuffledAll(h, es)) == MeanFirstAll(es)
    decreases es
  {
    if es != [] {
      ShuffledMeansFirst(h, es[0]);
      AllMeanFirst(h, es[1..]);
      assert ShuffledAll(h, es)[1..] == ShuffledAll(h, es[1..]);
    }
  }

  lemma {:induction false} MembersMeanFirst(h: Hasher, ms: seq<Member>)
    requires forall i :: 0 <= i < |ms| ==> NulFreeNames(ms[i].value)
    ensures FirstMeans(ShuffledMembers(h, ms)) == MeanFirstMembers(ms)
    decreases ms
  {
    if ms != [] {
      ShuffledMeansFirst(h, ms[0].value);
      MembersMeanFirst(h, ms[1..]);
      assert ShuffledMembers(h, ms)[1..] == ShuffledMembers(h, ms[1..]);
    }
  }

  /** Without zero bytes in names an object means what its first members mean once it is printed. */
  lemma {:induction false} MembersMean(h: Hasher, ms: seq<Member>)
    requires NulFreeMembers(ms)
    ensures MeanMembers(CutAll(Ordered(h, ms))) == FirstMeans(ms)
  {
    OrderedIsPermutation(h, ms);
    var o := Ordered(h, ms);
    forall i | 0 <= i < |o| ensures NulFree(o[i].name) {
      assert o[i] in ms;
      var j :| 0 <= j < |ms| && ms[j] == o[i];
    }
    hide MeanMembers, FirstMeans, Ordered;
    NothingCut(o);
    OrderedMeansFirst(h, ms);
  }

  // ---------------------------------------------------------------- when both are the same

  ghost predicate IsFirst(ms: seq<Member>, i: nat)
    requires i < |ms|
  {
    forall k :: 0 <= k < i ==> ms[k].name != ms[i].name
  }

  ghost predicate IsLast(ms: seq<Member>, i: nat)
    requires i < |ms|
  {
    forall k :: i < k < |ms| ==> ms[k].name != ms[i].name
  }

  /**
   * In every object that counts, no name holds a zero byte, and the first and the last member
   * of a name match: they are one member, whose value is so too, or what is printed of the first
   * means what the last means.  (That is not for both to mean the same: {"a":1,"a":2} before
   * {"a":1} matches it, and 2 is not 1.)
   */
  ghost predicate FirstsMatch(h: Hasher, v: Value)
    decreases v
  {
    match v
    case Arr(es) => forall i :: 0 <= i < |es| ==> FirstsMatch(h, es[i])
    case Obj(ms) =>
      && NulFreeMembers(ms)
      && forall i, j {:trigger IsFirst(ms, i), IsLast(ms, j)} ::
        0 <= i <= j < |ms| && IsFirst(ms, i) && IsLast(ms, j) && ms[i].name == ms[j].name ==>
          if i == j then FirstsMatch(h, ms[i].value) else Mean(Shuffled(h, ms[i].value)) == Mean(ms[j].value)
    case _ => true
  }

  lemma {:induction false} LastCounts(ms: seq<Member>, k: Text) returns (j: int)
    ensures -1 <= j < |ms| && (k in MeanMembers(ms) <==> 0 <= j)
    ensures 0 <= j < |ms| ==> ms[j].name == k && IsLast(ms, j) && MeanMembers(ms)[k] == Mean(ms[j].value)
    ensures j < 0 ==> forall i :: 0 <= i < |ms| ==> ms[i].name != k
  {
    j := -1;
    if ms != [] {
      j := LastCounts(ms[1..], k);
      if j >= 0 {
        j := j + 1;
        assert IsLast(ms[1..], j - 1);
        forall i | j < i < |ms| ensures ms[i].name != ms[j].name { assert ms[1..][i - 1] == ms[i]; }
      } else {
        forall i | 0 < i < |ms| ensures ms[i].name != k { assert ms[1..][i - 1] == ms[i]; }
        if ms[0].name == k { j := 0; }
      }
    }
  }

  lemma {:induction false} FirstCounts(ms: seq<Member>, k: Text) returns (i: int)
    ensures -1 <= i < |ms| && (k in FirstMeans(ms) <==> 0 <= i)
    ensures 0 <= i < |ms| ==> ms[i].name == k && IsFirst(ms, i) && FirstMeans(ms)[k] == Mean(ms[i].value)
    ensures i < 0 ==> forall j :: 0 <= j < |ms| ==> ms[j].name != k
  {
    i := -1;
    if ms != [] {
      if ms[0].name == k {
        i := 0;
      } else {
        i := FirstCounts(ms[1..], k);
        if i >= 0 {
          i := i + 1;
          assert IsFirst(ms[1..], i - 1);
          forall j | 0 <= j < i ensures ms[j].name != ms[i].name { if j > 0 { assert ms[1..][j - 1] == ms[j]; } }
        } else {
          forall j | 0 < j < |ms| ensures ms[j].name != k { assert ms[1..][j - 1] == ms[j]; }
        }
      }
    }
  }

  /** Which of two places of a name is its first, and which its last, is all there is to say. */
  lemma {:induction false} OneFirst(ms: seq<Member>, i: nat, i': nat)
    requires i < |ms| && i' < |ms| && ms[i].name == ms[i'].name && IsFirst(ms, i)
    ensures i <= i' && (IsFirst(ms, i') ==> i == i')
  {
  }

  lemma {:induction false} OneLast(ms: seq<Member>, j: nat, j': nat)
    requires j < |ms| && j' < |ms| && ms[j].name == ms[j'].name && IsLast(ms, j)
    ensures j' <= j && (IsLast(ms, j') ==> j == j')
  {
  }

  /** What is printed of a value means the same if and only if first and last members match. */
  lemma {:induction false} FirstsMatchIff(h: Hasher, v: Value)
    ensures Mean(Shuffled(h, v)) == Mean(v) <==> FirstsMatch(h, v)
    decreases v
  {
    match v {
      case Arr(es) =>
        var r := ShuffledAll(h, es);
        MeanAllAt(es);
        MeanAllAt(r);
        forall i | 0 <= i < |es| ensures r[i] == Shuffled(h, es[i]) && (Mean(r[i]) == Mean(es[i]) <==> FirstsMatch(h, es[i])) {
          ShuffledAt(h, es, i);
          FirstsMatchIff(h, es[i]);
        }
        assert MeanAll(r) == MeanAll(es) <==> forall i :: 0 <= i < |es| ==> MeanAll(r)[i] == MeanAll(es)[i];
      case Obj(ms) =>
        forall i | 0 <= i < |ms| ensures Mean(Shuffled(h, ms[i].value)) == Mean(ms[i].value) <==> FirstsMatch(h, ms[i].value) {
          FirstsMatchIff(h, ms[i].value);
        }
        var r := ShuffledMembers(h, ms);
        if NulFreeMembers(ms) {
          MembersMean(h, r);
          if FirstMeans(r) == MeanMembers(ms) { MembersMatch(h, ms); }
          if FirstsMatch(h, v) { MembersAgree(h, ms); }
        } else {
          NulNameIsLost(ms, Ordered(h, r));
        }
      case _ =>
    }
  }

  /** A name with a zero byte is in no object that is printed. */
  lemma {:induction false} NulNameIsLost(ms: seq<Member>, printed: seq<Member>)
    requires !NulFreeMembers(ms)
    ensures MeanMembers(CutAll(printed)) != MeanMembers(ms)
  {
    var i :| 0 <= i < |ms| && !NulFree(ms[i].name);
    var r := CutAll(printed);
    hide MeanMembers, Cut;
    var l := LastCounts(ms, ms[i].name);
    var k := LastCounts(r, ms[i].name);
  }

  lemma {:induction false} ShuffledAt(h: Hasher, es: seq<Value>, k: nat)
    requires k < |es|
    ensures ShuffledAll(h, es)[k] == Shuffled(h, es[k])
  {
    if k > 0 { ShuffledAt(h, es[1..], k - 1); }
  }

  lemma {:induction false} ShuffledMemberAt(h: Hasher, ms: seq<Member>, k: nat)
    requires k < |ms|
    ensures ShuffledMembers(h, ms)[k] == Member(ms[k].name, Shuffled(h, ms[k].value))
  {
    if k > 0 { ShuffledMemberAt(h, ms[1..], k - 1); }
  }

  lemma {:induction false} MeanAllAt(es: seq<Value>)
    ensures |MeanAll(es)| == |es| && forall i :: 0 <= i < |es| ==> MeanAll(es)[i] == Mean(es[i])
  {
    if es != [] { MeanAllAt(es[1..]); }
  }

  lemma {:induction false} MembersMatch(h: Hasher, ms: seq<Member>)
    requires NulFreeMembers(ms) && FirstMeans(ShuffledMembers(h, ms)) == MeanMembers(ms)
    requires forall i :: 0 <= i < |ms| ==>
               (Mean(Shuffled(h, ms[i].value)) == Mean(ms[i].value) <==> FirstsMatch(h, ms[i].value))
    ensures FirstsMatch(h, Obj(ms))
  {
    hide Mean, MeanMembers, FirstMeans, Shuffled;
    var r := ShuffledMembers(h, ms);
    forall i, j | 0 <= i <= j < |ms| && IsFirst(ms, i) && IsLast(ms, j) && ms[i].name == ms[j].name
      ensures if i == j then FirstsMatch(h, ms[i].value) else Mean(Shuffled(h, ms[i].value)) == Mean(ms[j].value)
    {
      var f := FirstCounts(r, ms[i].name);
      var l := LastCounts(ms, ms[i].name);
      assert IsFirst(ms, f);
      OneFirst(ms, i, f);
      OneLast(ms, j, l);
      ShuffledMemberAt(h, ms, i);
    }
  }

  lemma {:induction false} MembersAgree(h: Hasher, ms: seq<Member>)
    requires FirstsMatch(h, Obj(ms))
    requires forall i :: 0 <= i < |ms| ==>
               (Mean(Shuffled(h, ms[i].value)) == Mean(ms[i].value) <==> FirstsMatch(h, ms[i].value))
    ensures FirstMeans(ShuffledMembers(h, ms)) == MeanMembers(ms)
  {
    hide Mean, MeanMembers, FirstMeans, Shuffled;
    var r := ShuffledMembers(h, ms);
    forall k ensures k in FirstMeans(r) <==> k in MeanMembers(ms) {
      var f := FirstCounts(r, k);
      var l := LastCounts(ms, k);
    }
    forall k | k in MeanMembers(ms) ensures FirstMeans(r)[k] == MeanMembers(ms)[k] {
      var f := FirstCounts(r, k);
      var l := LastCounts(ms, k);
      assert IsFirst(ms, f) && IsLast(ms, l);
      OneFirst(ms, f, l);
      ShuffledMemberAt(h, ms, f);
    }
  }

  /** No object in the value has two members of the same name. */
  ghost predicate DistinctNames(v: Value)
    decreases v
  {
    match v
    case Arr(es) => forall i :: 0 <= i < |es| ==> DistinctNames(es[i])
    case Obj(ms) =>
      && (forall i, j :: 0 <= i < j < |ms| ==> ms[i].name != ms[j].name)
      && (forall i :: 0 <= i < |ms| ==> DistinctNames(ms[i].value))
    case _ => true
  }

  /** Without repeated names and zero bytes first and last members are the same. */
  lemma {:induction false} DistinctNamesMatch(h: Hasher, v: Value)
    requires DistinctNames(v) && NulFreeNames(v)
    ensures FirstsMatch(h, v)
    decreases v
  {
    match v {
      case Arr(es) => forall i | 0 <= i < |es| ensures FirstsMatch(h, es[i]) { DistinctNamesMatch(h, es[i]); }
      case Obj(ms) => forall i | 0 <= i < |ms| ensures FirstsMatch(h, ms[i].value) { DistinctNamesMatch(h, ms[i].value); }
      case _ =>
    }
  }

  lemma {:induction false} ExactKept(h: Hasher, v: Value)
    requires Exact(v)
    ensures Exact(Shuffled(h, v))
    decreases v
  {
    match v {
      case Arr(es) => ExactsKept(h, es);
      case Obj(ms) =>
        var r := ShuffledMembers(h, ms);
        var o := Ordered(h, r);
        MemberExactsKept(h, ms);
        OrderedIsPermutation(h, r);
        forall i | 0 <= i < |o| ensures Exact(CutAll(o)[i].value) {
          assert o[i] in r;
          var j :| 0 <= j < |r| && r[j] == o[i];
        }
      case _ =>
    }
  }

  lemma {:induction false} ExactsKept(h: Hasher, es: seq<Value>)
    requires forall i :: 0 <= i < |es| ==> Exact(es[i])
    ensures forall i :: 0 <= i < |es| ==> Exact(ShuffledAll(h, es)[i])
    decreases es
  {
    if es != [] {
      ExactKept(h, es[0]);
      ExactsKept(h, es[1..]);
      forall i | 0 <= i < |es| ensures Exact(ShuffledAll(h, es)[i]) {
        if i > 0 { assert ShuffledAll(h, es)[i] == ShuffledAll(h, es[1..])[i - 1]; }
      }
    }
  }

  lemma {:induction false} MemberExactsKept(h: Hasher, ms: seq<Member>)
    requires forall i :: 0 <= i < |ms| ==> Exact(ms[i].value)
    ensures forall i :: 0 <= i < |ms| ==> Exact(ShuffledMembers(h, ms)[i].value)
    decreases ms
  {
    if ms != [] {
      ExactKept(h, ms[0].value);
      MemberExactsKept(h, ms[1..]);
      forall i | 0 <= i < |ms| ensures Exact(ShuffledMembers(h, ms)[i].value) {
        if i > 0 { assert ShuffledMembers(h, ms)[i] == ShuffledMembers(h, ms[1..])[i - 1]; }
      }
    }
  }

  /** What is printed for a value. */
  function Printed(h: Hasher, v: Value): Text {
    Build(Shuffled(h, v))
  }

  /**
   * Parsing the text printed for a value uses up exactly that text, and gives an equal value,
   * objects being compared as maps, if and only if first and last members match.  Without zero
   * bytes in names it gives what the value means by its first members, whatever the hash function.
   */
  lemma {:induction false} RoundTrip(h: Hasher, v: Value)
    requires Exact(v)
    ensures ParseValue(Printed(h, v), 0) == Ok(Shuffled(h, v), |Printed(h, v)|)
    ensures Mean(Shuffled(h, v)) == Mean(v) <==> FirstsMatch(h, v)
    ensures NulFreeNames(v) ==> Mean(Shuffled(h, v)) == MeanFirst(v)
  {
    hide Mean, MeanFirst, FirstsMatch, ParseValue;
    ExactKept(h, v);
    if NulFreeNames(v) { ShuffledMeansFirst(h, v); }
    FirstsMatchIff(h, v);
    ParseBuild(Shuffled(h, v));
  }

  /** An object with two members a, 1 and 2. */
  function Twice(): Value {
    Obj([Member([97], Num(1)), Member([97], Num(2))])
  }

  /** The same with its members the other way round. */
  function TwiceBack(): Value {
    Obj([Member([97], Num(2)), Member([97], Num(1))])
  }

  lemma {:induction false} TwiceOrdered(h: Hasher, a: Member, b: Member)
    requires a.name == b.name
    ensures Ordered(h, [a, b]) == [b, a]
  {
    var ms, k := [a, b], h(a.name) % 2;
    assert ms[1..] == [b] && [b][1..] == [];
    assert InBucket(h, [b], 2, k) == [b] && InBucket(h, [b], 2, 1 - k) == [];
    assert InBucket(h, ms, 2, k) == [b, a] && InBucket(h, ms, 2, 1 - k) == [];
    hide InBucket;
    assert FromBucket(h, ms, 2, 1) == InBucket(h, ms, 2, 1);
  }

  lemma {:induction false} TwiceShuffled(h: Hasher)
    ensures Shuffled(h, Twice()) == TwiceBack()
  {
    var a, b := Member([97], Num(1)), Member([97], Num(2));
    assert [a, b][1..] == [b];
    assert ShuffledMembers(h, [b]) == [b];
    assert ShuffledMembers(h, [a, b]) == [a, b];
    hide ShuffledMembers, Ordered;
    TwiceOrdered(h, a, b);
    NothingCut([b, a]);
  }

  lemma {:induction false} TextOfMember(n: nat)
    requires n < 10
    ensures BuildMember(Member([97], Num(n))) == [34, 97, 34, 58, 48 + n]
  {
    assert EscapeAll([97]) == [97];
    assert Digits(n) == [48 + n];
  }

  lemma {:induction false} TextOfPair(a: Member, b: Member)
    ensures Build(Obj([a, b])) == [123] + (BuildMember(a) + [44] + BuildMember(b)) + [125]
  {
    hide BuildMember;
    var ms := [a, b];
    assert ms[1..] == [b];
    assert BuildMembers([b]) == BuildMember(b);
    assert BuildMembers(ms) == BuildMember(a) + [44] + BuildMembers(ms[1..]);
  }

  lemma {:induction false} TextOfTwice()
    ensures Build(Twice()) == [123, 34, 97, 34, 58, 49, 44, 34, 97, 34, 58, 50, 125]
    ensures Build(TwiceBack()) == [123, 34, 97, 34, 58, 50, 44, 34, 97, 34, 58, 49, 125]
  {
    hide Build, BuildMember;
    TextOfMember(1);
    TextOfMember(2);
    TextOfPair(Member([97], Num(1)), Member([97], Num(2)));
    TextOfPair(Member([97], Num(2)), Member([97], Num(1)));
    var a, b := [34, 97, 34, 58, 49], [34, 97, 34, 58, 50];
    assert [123] + (a + [44] + b) + [125] == [123, 34, 97, 34, 58, 49, 44, 34, 97, 34, 58, 50, 125];
    assert [123] + (b + [44] + a) + [125] == [123, 34, 97, 34, 58, 50, 44, 34, 97, 34, 58, 49, 125];
  }

  lemma {:induction false} MeaningOfTwice()
    ensures Mean(Twice()) == MObj(map[[97] := MNum(2)]) != MObj(map[[97] := MNum(1)]) == Mean(TwiceBack())
  {
    var a, b := Member([97], Num(1)), Member([97], Num(2));
    assert [a, b][1..] == [b] && [b, a][1..] == [a];
    OneMean(a);
    OneMean(b);
    assert map[[97] := MNum(2)][[97]] != map[[97] := MNum(1)][[97]];
  }

  /** With any hash function {"a":1,"a":2} is printed as {"a":2,"a":1}, which means something else. */
  lemma {:induction false} RepeatedNameComesBackFirst(h: Hasher)
    ensures var text := [123, 34, 97, 34, 58, 49, 44, 34, 97, 34, 58, 50, 125];
            var back := [123, 34, 97, 34, 58, 50, 44, 34, 97, 34, 58, 49, 125];
            && ParseValue(text, 0) == Ok(Twice(), 13)
            && Printed(h, Twice()) == back && ParseValue(back, 0) == Ok(TwiceBack(), 13)
            && Mean(TwiceBack()) != Mean(Twice())
  {
    hide Build, ParseValue, Mean, Shuffled;
    TwiceShuffled(h);
    TextOfTwice();
    MeaningOfTwice();
    ParseBuild(Twice());
    ParseBuild(TwiceBack());
  }
}
