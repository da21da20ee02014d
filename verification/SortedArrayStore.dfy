// A sorted array in allocated storage, with elements added and deleted in place.
module SortedArrayStore {
  import opened Sequences
  import opened SortedArray

  /** What adding comes to; Strays is a write at slot ~0U. */
  datatype Added = Added(pos: nat) | Duplicate | OutOfOrder | Full | Strays

  /** How many slots more an array that is full is given. */
  function Growth(alloc: nat): nat {
    if alloc > 100 then alloc / 2 else 10
  }

  lemma {:induction false} WithKeeps<E(!new)>(cmp: (E, E) -> int, s: seq<E>, pos: nat, x: E)
    requires Increasing(cmp, s) && IsPlace(cmp, s, x, pos, false)
    ensures Increasing(cmp, With(s, pos, x))
  {
    var r := With(s, pos, x);
    forall i, j | 0 <= i < j < |r| ensures cmp(r[i], r[j]) < 0 {
      if i != pos && j != pos {
        assert r[i] == s[if i < pos then i else i - 1] && r[j] == s[if j < pos then j else j - 1];
      }
    }
  }

  lemma {:induction false} WithoutKeeps<E(!new)>(cmp: (E, E) -> int, s: seq<E>, pos: nat)
    requires Increasing(cmp, s) && pos < |s|
    ensures Increasing(cmp, Without(s, pos))
  {
    var r := Without(s, pos);
    forall i, j | 0 <= i < j < |r| ensures cmp(r[i], r[j]) < 0 {
      assert r[i] == s[if i < pos then i else i + 1] && r[j] == s[if j < pos then j else j + 1];
    }
  }

  /** A key greater than the last element goes to the end. */
  lemma {:induction false} EndIsPlace<E(!new)>(cmp: (E, E) -> int, s: seq<E>, x: E)
    requires Orders(cmp) && Increasing(cmp, s) && (s != [] ==> cmp(s[|s| - 1], x) < 0)
    ensures IsPlace(cmp, s, x, |s|, false)
  {
    forall i | 0 <= i < |s| ensures cmp(s[i], x) < 0 {
      if i < |s| - 1 { assert cmp(s[i], s[|s| - 1]) < 0 && cmp(s[|s| - 1], x) < 0; }
    }
  }

  lemma {:induction false} Matches<E(!new)>(cmp: (E, E) -> int, s: seq<E>, x: E, i: nat)
    requires Orders(cmp) && i < |s| && cmp(s[i], x) == 0
    ensures Occurs(cmp, x, s)
  {
    assert cmp(x, s[i]) == 0;
  }

  lemma {:induction false} PlaceMatches<E(!new)>(cmp: (E, E) -> int, s: seq<E>, x: E, pos: nat)
    requires IsPlace(cmp, s, x, pos, true)
    ensures Occurs(cmp, x, s)
  {
  }

  lemma {:induction false} IsWithout<E>(s: seq<E>, r: seq<E>, pos: nat)
    requires pos < |s| == |r| + 1 && r[..pos] == s[..pos] && r[pos..] == s[pos + 1..]
    ensures r == Without(s, pos)
  {
    assert r == r[..pos] + r[pos..];
  }

  class Store<E(0, !new)> {
    const cmp: (E, E) -> int
    const fails: (E, E) -> bool
    const allowInserts: bool
    const allowGrowth: bool
    var slots: array<E>
    var count: nat

    ghost predicate Valid()
      reads this, slots
    {
      Orders(cmp) && count <= slots.Length && Increasing(cmp, slots[..count])
    }

    constructor (cmp: (E, E) -> int, fails: (E, E) -> bool, alloc: nat, allowInserts: bool, allowGrowth: bool)
      requires Orders(cmp)
      ensures Valid() && fresh(slots) && count == 0 && slots.Length == alloc
      ensures this.cmp == cmp && this.fails == fails && this.allowInserts == allowInserts && this.allowGrowth == allowGrowth
    {
      this.cmp, this.fails, this.allowInserts, this.allowGrowth := cmp, fails, allowInserts, allowGrowth;
      slots := new E[alloc];
      count := 0;
    }

    /** Move the elements from pos on up by one. */
    method MoveUp(pos: nat)
      requires pos <= count < slots.Length
      modifies slots
      ensures slots[..pos] == old(slots[..pos]) && slots[pos + 1..count + 1] == old(slots[pos..count])
    {
      var i := count;
      while i > pos
        invariant pos <= i <= count
        invariant forall j :: 0 <= j < i ==> slots[j] == old(slots[j])
        invariant forall j :: i < j <= count ==> slots[j] == old(slots[j - 1])
      {
        slots[i] := slots[i - 1];
        i := i - 1;
      }
      forall k | 0 <= k < count - pos ensures slots[pos + 1..count + 1][k] == old(slots[pos..count])[k] {
        assert slots[pos + 1 + k] == old(slots[pos + k]);
      }
    }

    /** Give the array more slots. */
    method Grow(more: nat)
      requires count <= slots.Length
      modifies this`slots
      ensures fresh(slots) && slots.Length == old(slots.Length) + more
      ensures slots[..count] == old(slots[..count])
    {
      var wider := new E[slots.Length + more];
      var i := 0;
      while i < count
        invariant slots == old(slots) && i <= count <= slots.Length <= wider.Length
        invariant forall j :: 0 <= j < i ==> wider[j] == slots[j]
        invariant slots[..] == old(slots[..])
      {
        wider[i] := slots[i];
        i := i + 1;
      }
      slots := wider;
    }

    /** The last element is taken to be greater: a comparison that fails counts as that. */
    ghost predicate LooksBehind(x: E)
      requires count <= slots.Length
      reads this, slots
    {
      count > 0 && (fails(slots[count - 1], x) || cmp(slots[count - 1], x) > 0)
    }

    ghost predicate HasRoom()
      reads this
    {
      count < slots.Length || allowGrowth
    }

    /** What adding should come to: in order, or with inserts allowed, an element that is not there goes to its place. */
    ghost predicate IsRight(x: E, r: Added)
      requires count <= slots.Length
      reads this, slots
    {
      var s := slots[..count];
      if !allowInserts && count > 0 && cmp(slots[count - 1], x) > 0 then r == OutOfOrder
      else if Occurs(cmp, x, s) then r == Duplicate
      else if !HasRoom() then r == Full
      else r.Added? && IsPlace(cmp, s, x, r.pos, false)
    }

    /**
     * Adding comes out right: a failing comparison does no harm.  With inserts allowed none may
     * be on the path of the search, unless there is no room for the element anyway.
     */
    ghost predicate AddsRight(x: E)
      requires count <= slots.Length
      reads this, slots
    {
      LooksBehind(x) ==>
        if allowInserts then !SearchFails(cmp, fails, slots[..count], x) || (!HasRoom() && !Occurs(cmp, x, slots[..count]))
        else cmp(slots[count - 1], x) > 0
    }

    /** Where an element goes, or why not, without regard to room; Strays when the search for its place fails. */
    method PlaceFor(x: E) returns (r: Added)
      requires Valid()
      ensures r.Added? ==> IsPlace(cmp, slots[..count], x, r.pos, false)
      ensures r.Duplicate? ==> Occurs(cmp, x, slots[..count]) && (allowInserts || cmp(slots[count - 1], x) == 0)
      ensures r.OutOfOrder? <==> !allowInserts && LooksBehind(x)
      ensures r.Strays? <==> allowInserts && LooksBehind(x) && SearchFails(cmp, fails, slots[..count], x)
      ensures r.Added? && !allowInserts && count > 0 ==> cmp(slots[count - 1], x) < 0
      ensures !r.Full?
    {
      hide Orders, Increasing, SearchFails, Occurs, IsPlace;
      ghost var s := slots[..count];
      r := Added(count);
      if count > 0 {
        var failed := fails(slots[count - 1], x);
        var c := cmp(slots[count - 1], x);
        if !failed && c == 0 {
          Matches(cmp, s, x, count - 1);
          return Duplicate;
        }
        if failed || c > 0 {
          if !allowInserts {
            return OutOfOrder;
          }
          var f := FindKey(cmp, fails, slots[..count], x);
          match f {
            case Failed => return Strays;
            case At(pos, found) =>
              if found {
                PlaceMatches(cmp, s, x, pos);
                return Duplicate;
              }
              return Added(pos);
          }
        }
      }
      EndIsPlace(cmp, s, x);
    }

    /**
     * Add an element in its place, if it may be and there is room.  The model goes no further
     * where the element is about to be written at slot ~0U.
     */
    method AddElem(x: E) returns (r: Added)
      requires Valid()
      modifies this, slots
      ensures Valid() && (slots == old(slots) || fresh(slots))
      ensures r.Added? ==> IsPlace(cmp, old(slots[..count]), x, r.pos, false) && slots[..count] == With(old(slots[..count]), r.pos, x)
      ensures !r.Added? ==> slots[..count] == old(slots[..count]) && slots == old(slots)
      ensures old(IsRight(x, r)) <==> old(AddsRight(x))
      ensures r.Strays? <==> old(allowInserts && LooksBehind(x) && SearchFails(cmp, fails, slots[..count], x) && HasRoom())
      ensures r.OutOfOrder? <==> old(!allowInserts && LooksBehind(x))
      ensures slots.Length == old(slots.Length) + if r.Added? && old(count) == old(slots.Length) then (if old(slots.Length) > 100 then old(slots.Length) / 2 else 10) else 0
    {
      ghost var s := slots[..count];
      r := PlaceFor(x);
      if r.Added? { OccursAt(cmp, s, x, r.pos, false); }
      hide Orders, SearchFails, Occurs, IsPlace;
      if r.Added? || r.Strays? {
        if count == slots.Length && !allowGrowth {
          return Full;
        }
        if r.Added? {
          if count == slots.Length {
            Grow(Growth(slots.Length));
          }
          assert slots[..count] == s;
          WithKeeps(cmp, s, r.pos, x);
          Insert(r.pos, x, s);
        }
      }
    }

    /** Put an element in at a place. */
    method Insert(pos: nat, x: E, ghost s: seq<E>)
      requires pos <= count < slots.Length && slots[..count] == s
      modifies this`count, slots
      ensures count == old(count) + 1 && slots[..count] == With(s, pos, x)
    {
      if pos < count {
        MoveUp(pos);
      }
      slots[pos] := x;
      count := count + 1;
      ghost var r, w := slots[..count], With(s, pos, x);
      assert |r| == |w| == count;
      forall j | 0 <= j < count ensures r[j] == w[j] {
        if j < pos { assert r[j] == slots[..pos][j] == s[j]; }
        if j > pos { assert r[j] == slots[pos + 1..count][j - pos - 1] == s[j - 1]; }
      }
    }

    /** Move the elements behind pos down by one. */
    method MoveDown(pos: nat)
      requires pos < count <= slots.Length
      modifies slots
      ensures slots[..pos] == old(slots[..pos]) && slots[pos..count - 1] == old(slots[pos + 1..count])
    {
      var i := pos;
      while i + 1 < count
        invariant pos <= i < count
        invariant forall j :: 0 <= j < pos ==> slots[j] == old(slots[j])
        invariant forall j :: pos <= j < i ==> slots[j] == old(slots[j + 1])
        invariant forall j :: i < j < count ==> slots[j] == old(slots[j])
      {
        slots[i] := slots[i + 1];
        i := i + 1;
      }
    }

    /** Delete the element with a key, if there is one and its search does not fail. */
    method DeleteElem(key: E) returns (deleted: bool)
      requires Valid()
      modifies this`count, slots
      ensures Valid()
      ensures deleted <==> Occurs(cmp, key, old(slots[..count])) && !SearchFails(cmp, fails, old(slots[..count]), key)
      ensures if deleted then exists pos: nat :: IsPlace(cmp, old(slots[..count]), key, pos, true) && pos < old(count)
                                            && slots[..count] == Without(old(slots[..count]), pos)
              else slots[..count] == old(slots[..count])
    {
      ghost var s := slots[..count];
      if count == 0 {
        return false;
      }
      var r := FindKey(cmp, fails, slots[..count], key);
      if r.Failed? {
        return false;
      }
      OccursAt(cmp, s, key, r.pos, r.found);
      if !r.found {
        return false;
      }
      MoveDown(r.pos);
      hide Orders, IsPlace, Occurs;
      count := count - 1;
      IsWithout(s, slots[..count], r.pos);
      WithoutKeeps(cmp, s, r.pos);
      return true;
    }
  }

  function Minus(a: int, b: int): int { a - b }

  predicate NotZeroWithTwo(a: int, b: int) { a == 0 && b == 2 }

  lemma {:induction false} MinusOrders()
    ensures Orders(Minus)
  {
  }

  /** The place of an element greater than all others. */
  lemma {:induction false} LastPlace(s: seq<int>, x: int, pos: nat)
    requires IsPlace(Minus, s, x, pos, false) && forall i :: 0 <= i < |s| ==> s[i] < x
    ensures With(s, pos, x) == s + [x]
  {
    assert pos < |s| ==> Minus(x, s[pos]) < 0;
  }

  function UpTo(n: nat): (s: seq<int>)
    ensures |s| == n && forall i :: 0 <= i < n ==> s[i] == i + 1
  {
    if n == 0 then [] else UpTo(n - 1) + [n]
  }

  lemma {:induction false} NotThere(s: seq<int>, x: int)
    requires forall i :: 0 <= i < |s| ==> s[i] < x
    ensures !Occurs(Minus, x, s)
  {
  }

  method AddNext(store: Store<int>, k: nat)
    requires store.Valid() && k < 4 && store.count == k && store.slots[..k] == UpTo(k)
    requires store.cmp == Minus && store.fails == NotZeroWithTwo && store.allowInserts && store.slots.Length == 4
    modifies store, store.slots
    ensures store.slots == old(store.slots) || fresh(store.slots)
    ensures store.Valid() && store.count == k + 1 && store.slots[..k + 1] == UpTo(k + 1) && store.slots.Length == 4
  {
    hide Orders, Increasing, Occurs, SearchFails, IsPlace, With;
    assert k > 0 ==> store.slots[k - 1] == UpTo(k)[k - 1];
    NotThere(UpTo(k), k + 1);
    var r := store.AddElem(k + 1);
    LastPlace(UpTo(k), k + 1, r.pos);
  }

  /** An array of 1 to n, of which there can be four, whose 0 cannot be compared with 2. */
  method CountUp(n: nat) returns (store: Store<int>)
    requires n <= 4
    ensures fresh(store) && fresh(store.slots) && store.Valid() && store.count == n && store.slots[..n] == UpTo(n)
    ensures store.cmp == Minus && store.fails == NotZeroWithTwo && store.allowInserts && store.slots.Length == 4
  {
    MinusOrders();
    hide Orders, Increasing, Occurs, SearchFails, IsPlace, With;
    store := new Store(Minus, NotZeroWithTwo, 4, true, false);
    var k := 0;
    while k < n
      invariant k <= n && fresh(store) && fresh(store.slots) && store.Valid()
      invariant store.count == k && store.slots[..k] == UpTo(k)
      invariant store.cmp == Minus && store.fails == NotZeroWithTwo && store.allowInserts && store.slots.Length == 4
    {
      AddNext(store, k);
      k := k + 1;
    }
  }

  /** The search for 0 in [1, 2, 3] begins at 2. */
  lemma {:induction false} ZeroMeetsTwo(s: seq<int>)
    requires |s| == 3 && s[1] == 2
    ensures SearchFails(Minus, NotZeroWithTwo, s, 0)
  {
    assert Probed(Minus, s, 0, 0, 3)[0] == 1;
  }

  /** Adding 0 to [1, 2, 3] when 0 cannot be compared with 2: the element is written at slot ~0U. */
  method InsertStrays() returns (r: Added)
    ensures r.Strays?
  {
    hide Orders, Increasing, Occurs, SearchFails, IsPlace, With, UpTo, Probed;
    var store := CountUp(3);
    ZeroMeetsTwo(UpTo(3));
    assert store.slots[2] == UpTo(3)[2];
    r := store.AddElem(0);
  }
}
