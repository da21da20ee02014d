// The registration of counters, and the index that lists them in the order of their names.
module CounterNames {
  import opened Sequences

  type Text = seq<nat>

  /** Whether strcmp puts a before b, or finds them equal. */
  predicate Le(a: Text, b: Text) {
    a == [] || (b != [] && (a[0] < b[0] || (a[0] == b[0] && Le(a[1..], b[1..]))))
  }

  lemma {:induction false} SameStart(a: Text, b: Text, i: nat)
    requires i <= |a| && i <= |b| && a[..i] == b[..i]
    ensures i > 0 ==> a[0] == b[0]
  {
    if i > 0 { assert a[..i][0] == b[..i][0]; }
  }

  /** Names are ordered by the first place where they differ, and a name comes before those that it is the beginning of. */
  lemma {:induction false} LeIsAlphabetical(a: Text, b: Text)
    ensures Le(a, b) <==> a <= b || exists i: nat :: i < |a| && i < |b| && a[..i] == b[..i] && a[i] < b[i]
  {
    if a != [] && b != [] {
      if a[0] == b[0] {
        LeIsAlphabetical(a[1..], b[1..]);
        assert a <= b <==> a[1..] <= b[1..] by {
          assert a == [a[0]] + a[1..] && b == [b[0]] + b[1..];
          if a[1..] <= b[1..] { assert b == a + b[|a|..]; }
          if a <= b { assert a[1..] == b[1..][..|a| - 1]; }
        }
        if i: nat :| i < |a| && i < |b| && a[..i] == b[..i] && a[i] < b[i] {
          assert a[1..][..i - 1] == a[..i][1..] && b[1..][..i - 1] == b[..i][1..];
          assert a[1..][i - 1] < b[1..][i - 1];
        }
        if i: nat :| i < |a[1..]| && i < |b[1..]| && a[1..][..i] == b[1..][..i] && a[1..][i] < b[1..][i] {
          assert a[..i + 1] == [a[0]] + a[1..][..i] && b[..i + 1] == [b[0]] + b[1..][..i];
          assert a[i + 1] < b[i + 1];
        }
      } else {
        if a[0] < b[0] { assert a[..0] == b[..0]; }
        if i: nat :| i < |a| && i < |b| && a[..i] == b[..i] && a[i] < b[i] {
          SameStart(a, b, i);
        }
      }
    }
  }

  lemma {:induction false} LeTotal(a: Text, b: Text)
    ensures Le(a, b) || Le(b, a)
    ensures Le(a, b) && Le(b, a) ==> a == b
  {
    if a != [] && b != [] {
      LeTotal(a[1..], b[1..]);
      if a[0] == b[0] && a[1..] == b[1..] { assert a == [a[0]] + a[1..] && b == [b[0]] + b[1..]; }
    }
  }

  lemma {:induction false} LeTransitive(a: Text, b: Text, c: Text)
    requires Le(a, b) && Le(b, c)
    ensures Le(a, c)
  {
    if a != [] && a[0] == b[0] == c[0] { LeTransitive(a[1..], b[1..], c[1..]); }
  }

  /** Counter a comes before counter b: by name, and by time of registration for the same name. */
  ghost predicate Before(names: seq<Text>, a: nat, b: nat)
  {
    && a < |names| && b < |names|
    && Le(names[a], names[b]) && (names[a] == names[b] ==> a < b)
  }

  /** An index of the counters 1..n, each once, in order. */
  ghost predicate IsIndex(s: seq<nat>, names: seq<Text>)
  {
    && |s| + 1 == |names|
    && (forall i :: 0 <= i < |s| ==> 1 <= s[i] < |names|)
    && (forall i, j :: 0 <= i < j < |s| ==> s[i] != s[j] && Before(names, s[i], s[j]))
    && (forall c: nat :: 1 <= c < |names| ==> c in s)
  }

  /** The place where a new counter goes: after all whose names are not greater. */
  function PlaceFor(s: seq<nat>, names: seq<Text>, txt: Text): (x: nat)
    requires forall i :: 0 <= i < |s| ==> s[i] < |names|
    ensures x <= |s|
    ensures forall i :: 0 <= i < x ==> Le(names[s[i]], txt)
    ensures x < |s| ==> !Le(names[s[x]], txt)
  {
    if s == [] || !Le(names[s[0]], txt) then 0 else 1 + PlaceFor(s[1..], names, txt)
  }

  lemma {:induction false} BehindPlace(s: seq<nat>, names: seq<Text>, txt: Text, x: nat, j: nat)
    requires IsIndex(s, names) && x <= j < |s| && !Le(names[s[x]], txt)
    ensures Le(txt, names[s[j]]) && txt != names[s[j]]
  {
    LeTotal(names[s[x]], txt);
    assert x < j ==> Before(names, s[x], s[j]);
    LeTotal(names[s[x]], names[s[j]]);
    if Le(names[s[x]], names[s[j]]) { LeTransitive(txt, names[s[x]], names[s[j]]); }
    LeTotal(names[s[j]], names[s[x]]);
    LeTotal(txt, names[s[x]]);
  }

  ghost predicate Place(s: seq<nat>, names: seq<Text>, txt: Text, x: nat) {
    && x <= |s| && (forall i :: 0 <= i < |s| ==> s[i] < |names|)
    && (forall i :: 0 <= i < x ==> Le(names[s[i]], txt))
    && (x < |s| ==> !Le(names[s[x]], txt))
  }

  lemma {:induction false} InsertOrders(s: seq<nat>, names: seq<Text>, txt: Text, x: nat, i: nat, j: nat)
    requires IsIndex(s, names) && Place(s, names, txt, x) && i < j <= |s|
    ensures var r := With(s, x, |names|); r[i] != r[j] && Before(names + [txt], r[i], r[j])
  {
    if i == x {
      BehindPlace(s, names, txt, x, j - 1);
    } else if j != x {
      var i0, j0 := if i < x then i else i - 1, if j < x then j else j - 1;
      assert Before(names, s[i0], s[j0]) && s[i0] != s[j0];
    }
  }

  lemma {:induction false} InsertCovers(s: seq<nat>, names: seq<Text>, x: nat, d: nat)
    requires IsIndex(s, names) && x <= |s| && 1 <= d <= |names|
    ensures d in With(s, x, |names|)
  {
    var r := With(s, x, |names|);
    if d < |names| {
      assert d in s;
      var i :| 0 <= i < |s| && s[i] == d;
      assert r[if i < x then i else i + 1] == d;
    } else {
      assert r[x] == d;
    }
  }

  /** Putting a new counter in at its place keeps the index complete and in order. */
  lemma {:induction false} InsertKeeps(s: seq<nat>, names: seq<Text>, txt: Text, x: nat)
    requires IsIndex(s, names) && Place(s, names, txt, x)
    ensures IsIndex(With(s, x, |names|), names + [txt])
  {
    var r, names' := With(s, x, |names|), names + [txt];
    forall i, j | 0 <= i < j < |r| ensures r[i] != r[j] && Before(names', r[i], r[j]) { InsertOrders(s, names, txt, x, i, j); }
    forall d: nat | 1 <= d < |names'| ensures d in r { InsertCovers(s, names, x, d); }
    forall i | 0 <= i < |r| ensures 1 <= r[i] < |names'| { assert i != x ==> r[i] == s[if i < x then i else i - 1]; }
  }

  class Registry {
    const sortedIndex: array<nat>
    var numCounters: nat

    /** The name of each counter; counter 0 is the invalid one. */
    var counterTxt: seq<Text>

    ghost predicate Valid()
      reads this, sortedIndex
    {
      && |counterTxt| == numCounters + 1 <= sortedIndex.Length
      && IsIndex(sortedIndex[..numCounters], counterTxt)
    }

    constructor (max: nat)
      requires max > 0
      ensures Valid() && fresh(sortedIndex) && numCounters == 0 && sortedIndex.Length == max
    {
      sortedIndex := new nat[max];
      numCounters := 0;
      counterTxt := [[]];
    }

    /** Register a new counter and list it by name. */
    method AddCounter(txt: Text) returns (counter: nat)
      requires Valid() && numCounters + 1 < sortedIndex.Length
      modifies this, sortedIndex
      ensures Valid()
      ensures counter == numCounters == old(numCounters) + 1 && counterTxt == old(counterTxt) + [txt]
    {
      ghost var was, names := sortedIndex[..numCounters], counterTxt;
      numCounters := numCounters + 1;
      counter := numCounters;
      var x := AddToSortedIndex(counter, txt);
      counterTxt := counterTxt + [txt];
      InsertKeeps(was, names, txt, x);
      assert sortedIndex[..numCounters] == With(was, x, counter);
    }

    /** Find the place of a new counter and move the later ones up by one. */
    method AddToSortedIndex(counter: nat, txt: Text) returns (x: nat)
      requires 1 <= numCounters < sortedIndex.Length
      requires forall i :: 0 <= i < numCounters - 1 ==> sortedIndex[i] < |counterTxt|
      modifies sortedIndex
      ensures x < numCounters
      ensures x == PlaceFor(old(sortedIndex[..numCounters - 1]), counterTxt, txt)
      ensures sortedIndex[..numCounters] == With(old(sortedIndex[..numCounters - 1]), x, counter)
    {
      ghost var was := sortedIndex[..numCounters - 1];
      x := 0;
      while x < numCounters - 1 && Le(counterTxt[sortedIndex[x]], txt)
        invariant x <= numCounters - 1
        invariant x <= PlaceFor(was, counterTxt, txt)
      {
        x := x + 1;
      }
      var i := numCounters - 1;
      while i > x && i > 0
        invariant x <= i <= numCounters - 1
        invariant forall j :: 0 <= j <= i && j < numCounters - 1 ==> sortedIndex[j] == was[j]
        invariant forall j :: i < j < numCounters ==> sortedIndex[j] == was[j - 1]
      {
        sortedIndex[i] := sortedIndex[i - 1];
        i := i - 1;
      }
      sortedIndex[x] := counter;
    }
  }
}
