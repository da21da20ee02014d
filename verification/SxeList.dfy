// Doubly linked lists with a sentinel each, over one array of nodes.  A node is named by
// a number: elements come first, then the sentinels of the lists.
module SxeList {
  import opened Sequences

  // The relative NULL pointer in the links of a node that is on no list.
  const NULL: int := -1

  /** The links of all nodes, and the elements that each list holds from head to tail. */
  datatype Rings = Rings(nodes: nat, next: seq<int>, prev: seq<int>, id: seq<nat>, items: seq<seq<nat>>)
  {
    /** The sentinel of a list. */
    function Sentinel(l: nat): nat {
      nodes + l
    }

    /** The node at place i of a list: its sentinel comes before the first and after the last element. */
    function At(l: nat, i: int): nat
      requires l < |items| && -1 <= i <= |items[l]|
    {
      if i == -1 || i == |items[l]| then Sentinel(l) else items[l][i]
    }

    ghost predicate Shape() {
      |next| == |prev| == |id| == nodes + |items|
    }

    /** The node at a place belongs to the list. */
    ghost predicate Owned(l: nat, i: int)
      requires l < |items| && -1 <= i <= |items[l]| && Shape()
    {
      && At(l, i) < |id| && id[At(l, i)] == l
      && (0 <= i < |items[l]| ==> items[l][i] < nodes)
    }

    /** The neighbours at places i and i + 1 of a list point at one another. */
    ghost predicate Joined(l: nat, i: int)
      requires l < |items| && -1 <= i < |items[l]| && Shape()
    {
      && At(l, i) < |next| && At(l, i + 1) < |prev|
      && next[At(l, i)] == At(l, i + 1)
      && prev[At(l, i + 1)] == At(l, i)
    }

    ghost predicate Valid() {
      && Shape()
      && (forall l {:trigger items[l]} :: 0 <= l < |items| ==> Distinct(items[l]))
      && (forall l, i {:trigger Owned(l, i)} :: 0 <= l < |items| && -1 <= i <= |items[l]| ==> Owned(l, i))
      && (forall l, i {:trigger Joined(l, i)} :: 0 <= l < |items| && -1 <= i < |items[l]| ==> Joined(l, i))
    }

    /** Element x is on no list. */
    ghost predicate Off(x: nat) {
      x < nodes && forall l {:trigger items[l]} :: 0 <= l < |items| ==> x !in items[l]
    }

    /** Put x in at place i of list l. */
    function Insert(l: nat, i: nat, x: nat): Rings
      requires l < |items| && i <= |items[l]| && x < |next| == |prev| == |id|
      requires At(l, i - 1) < |next| && At(l, i) < |prev|
    {
      var a, b := At(l, i - 1), At(l, i);
      Rings(nodes, next[x := b][a := x], prev[x := a][b := x], id[x := l], items[l := With(items[l], i, x)])
    }

    /** Take the element at place i out of list l. */
    function Remove(l: nat, i: nat): Rings
      requires l < |items| && i < |items[l]| && items[l][i] < |next| == |prev|
      requires At(l, i - 1) < |next| && At(l, i + 1) < |prev|
    {
      var a, x, b := At(l, i - 1), items[l][i], At(l, i + 1);
      Rings(nodes, next[a := b][x := NULL], prev[b := a][x := NULL], id, items[l := Without(items[l], i)])
    }
  }

  /** No node is at two places. */
  lemma {:induction false} Apart(r: Rings, l: nat, i: int, k: nat, j: int)
    requires r.Valid() && l < |r.items| && k < |r.items|
    requires -1 <= i <= |r.items[l]| && -1 <= j <= |r.items[k]|
    ensures r.At(l, i) < |r.next|
    ensures r.At(l, i) == r.At(k, j) <==> l == k && (i == j || {i, j} == {-1, |r.items[l]|})
  {
    assert r.Owned(l, i) && r.Owned(k, j);
    var s := r.items[l];
    if l == k && i != j && {i, j} != {-1, |s|} {
      if 0 <= i < |s| && 0 <= j < |s| { assert s[i] != s[j]; }
    }
  }

  lemma {:induction false} OffApart(r: Rings, x: nat, l: nat, i: int)
    requires r.Valid() && r.Off(x) && l < |r.items| && -1 <= i <= |r.items[l]|
    ensures r.At(l, i) != x && r.At(l, i) < |r.next|
  {
    assert r.Owned(l, i);
  }

  lemma {:induction false} JoinedAt(r: Rings, l: nat, i: int)
    requires r.Valid() && l < |r.items| && -1 <= i < |r.items[l]|
    ensures r.Joined(l, i)
  {
  }

  lemma {:induction false} InsertOwned(r: Rings, l: nat, i: nat, x: nat, k: nat, j: int)
    requires r.Valid() && r.Off(x) && l < |r.items| && i <= |r.items[l]|
    requires r.At(l, i - 1) < |r.next| && r.At(l, i) < |r.prev|
    requires var r' := r.Insert(l, i, x); k < |r'.items| && -1 <= j <= |r'.items[k]|
    ensures r.Insert(l, i, x).Owned(k, j)
  {
    var r' := r.Insert(l, i, x);
    if k != l {
      assert r.Owned(k, j);
    } else if j != i {
      var j0 := if j <= i then j else j - 1;
      assert r.Owned(l, j0);
      assert r'.At(l, j) == r.At(l, j0);
      OffApart(r, x, l, j0);
    }
  }

  lemma {:induction false} InsertJoinsNew(r: Rings, l: nat, i: nat, x: nat, j: int)
    requires r.Valid() && r.Off(x) && l < |r.items| && i <= |r.items[l]| && (j == i - 1 || j == i)
    requires r.At(l, i - 1) < |r.next| && r.At(l, i) < |r.prev|
    ensures r.Insert(l, i, x).Joined(l, j)
  {
    var r' := r.Insert(l, i, x);
    OffApart(r, x, l, i - 1);
    OffApart(r, x, l, i);
    assert r'.At(l, i) == x && r'.At(l, i - 1) == r.At(l, i - 1) && r'.At(l, i + 1) == r.At(l, i);
  }

  /** Place j0 of list k is place j after the insertion. */
  lemma {:induction false} InsertJoinsOld(r: Rings, l: nat, i: nat, x: nat, k: nat, j0: int, j: int)
    requires r.Valid() && r.Off(x) && l < |r.items| && i <= |r.items[l]| && k < |r.items|
    requires r.At(l, i - 1) < |r.next| && r.At(l, i) < |r.prev|
    requires -1 <= j0 < |r.items[k]| && j == (if k != l || j0 < i then j0 else j0 + 1) && (k != l || j0 != i - 1)
    ensures r.Insert(l, i, x).Joined(k, j)
  {
    var r' := r.Insert(l, i, x);
    JoinedAt(r, k, j0);
    Apart(r, k, j0, l, i - 1);
    Apart(r, k, j0 + 1, l, i);
    OffApart(r, x, k, j0);
    OffApart(r, x, k, j0 + 1);
    hide Rings.Valid, Rings.Off;
    assert r'.At(k, j) == r.At(k, j0) && r'.At(k, j + 1) == r.At(k, j0 + 1);
  }

  lemma {:induction false} InsertJoined(r: Rings, l: nat, i: nat, x: nat, k: nat, j: int)
    requires r.Valid() && r.Off(x) && l < |r.items| && i <= |r.items[l]|
    requires r.At(l, i - 1) < |r.next| && r.At(l, i) < |r.prev|
    requires var r' := r.Insert(l, i, x); k < |r'.items| && -1 <= j < |r'.items[k]|
    ensures r.Insert(l, i, x).Joined(k, j)
  {
    if k == l && (j == i - 1 || j == i) {
      InsertJoinsNew(r, l, i, x, j);
    } else {
      InsertJoinsOld(r, l, i, x, k, if k != l || j < i then j else j - 1, j);
    }
  }

  /** Linking in an element that is on no list keeps all lists well linked. */
  lemma {:induction false} InsertKeeps(r: Rings, l: nat, i: nat, x: nat)
    requires r.Valid() && r.Off(x) && l < |r.items| && i <= |r.items[l]|
    ensures r.At(l, i - 1) < |r.next| && r.At(l, i) < |r.prev|
    ensures r.Insert(l, i, x).Valid()
  {
    assert r.Owned(l, i - 1) && r.Owned(l, i);
    var r' := r.Insert(l, i, x);
    forall k, j | 0 <= k < |r'.items| && -1 <= j <= |r'.items[k]| ensures r'.Owned(k, j) {
      InsertOwned(r, l, i, x, k, j);
    }
    forall k, j | 0 <= k < |r'.items| && -1 <= j < |r'.items[k]| ensures r'.Joined(k, j) {
      InsertJoined(r, l, i, x, k, j);
    }
    assert x !in r.items[l];
  }

  lemma {:induction false} RemoveOwned(r: Rings, l: nat, i: nat, k: nat, j: int)
    requires r.Valid() && l < |r.items| && i < |r.items[l]|
    requires r.At(l, i - 1) < |r.next| && r.At(l, i + 1) < |r.prev| && r.items[l][i] < |r.next|
    requires var r' := r.Remove(l, i); k < |r'.items| && -1 <= j <= |r'.items[k]|
    ensures r.Remove(l, i).Owned(k, j)
  {
    assert r.Owned(k, if k != l || j < i then j else j + 1);
  }

  lemma {:induction false} RemoveJoined(r: Rings, l: nat, i: nat, k: nat, j: int)
    requires r.Valid() && l < |r.items| && i < |r.items[l]|
    requires r.At(l, i - 1) < |r.next| && r.At(l, i + 1) < |r.prev| && r.items[l][i] < |r.next|
    requires var r' := r.Remove(l, i); k < |r'.items| && -1 <= j < |r'.items[k]|
    ensures r.Remove(l, i).Joined(k, j)
  {
    var r' := r.Remove(l, i);
    Apart(r, l, i, l, i - 1);
    Apart(r, l, i, l, i + 1);
    if k == l && j == i - 1 {
      assert r'.At(l, j) == r.At(l, i - 1) && r'.At(l, j + 1) == r.At(l, i + 1);
    } else {
      var j0 := if k != l || j < i then j else j + 1;
      JoinedAt(r, k, j0);
      assert r'.At(k, j) == r.At(k, j0) && r'.At(k, j + 1) == r.At(k, j0 + 1);
      Apart(r, k, j0, l, i - 1);
      Apart(r, k, j0, l, i);
      Apart(r, k, j0 + 1, l, i + 1);
      Apart(r, k, j0 + 1, l, i);
    }
  }

  /** Unlinking an element keeps all lists well linked and leaves it on none. */
  lemma {:induction false} RemoveKeeps(r: Rings, l: nat, i: nat)
    requires r.Valid() && l < |r.items| && i < |r.items[l]|
    ensures r.At(l, i - 1) < |r.next| && r.At(l, i + 1) < |r.prev| && r.items[l][i] < |r.next|
    ensures r.Remove(l, i).Valid() && r.Remove(l, i).Off(r.items[l][i])
  {
    assert r.Owned(l, i - 1) && r.Owned(l, i) && r.Owned(l, i + 1);
    var r', x := r.Remove(l, i), r.items[l][i];
    forall k, j | 0 <= k < |r'.items| && -1 <= j <= |r'.items[k]| ensures r'.Owned(k, j) {
      RemoveOwned(r, l, i, k, j);
    }
    forall k, j | 0 <= k < |r'.items| && -1 <= j < |r'.items[k]| ensures r'.Joined(k, j) {
      RemoveJoined(r, l, i, k, j);
    }
    forall k, j | 0 <= k < |r'.items| && 0 <= j < |r'.items[k]| ensures r'.items[k][j] != x {
      Apart(r, l, i, k, if k != l || j < i then j else j + 1);
    }
  }

  /** Where an element is, if its node names the list. */
  ghost predicate Placed(r: Rings, l: nat, i: nat, x: nat) {
    l < |r.items| && i < |r.items[l]| && r.items[l][i] == x
  }

  class Lists {
    const nodes: nat
    const lists: nat
    var next: seq<int>
    var prev: seq<int>
    var id: seq<nat>
    var length: seq<nat>

    /** The elements of each list, from head to tail. */
    ghost var items: seq<seq<nat>>

    ghost function State(): Rings
      reads this
    {
      Rings(nodes, next, prev, id, items)
    }

    ghost predicate Valid()
      reads this
    {
      && State().Valid()
      && |length| == |items| == lists
      && forall l {:trigger items[l]} :: 0 <= l < lists ==> length[l] == |items[l]|
    }

    function Sentinel(l: nat): nat {
      nodes + l
    }

    constructor (nodes: nat, lists: nat)
      ensures Valid() && this.nodes == nodes && this.lists == lists
      ensures items == seq(lists, _ => [])
    {
      this.nodes, this.lists := nodes, lists;
      next := seq(nodes + lists, i => if i < nodes then NULL else i);
      prev := seq(nodes + lists, i => if i < nodes then NULL else i);
      id := seq(nodes + lists, i => if i < nodes then 0 else i - nodes);
      length := seq(lists, _ => 0);
      items := seq(lists, _ => []);
    }

    /** Put an element that is on no list at the tail of a list. */
    method Push(l: nat, x: nat)
      requires Valid() && l < lists && State().Off(x)
      modifies this
      ensures Valid() && items == old(items)[l := old(items)[l] + [x]]
      ensures id == old(id)[x := l]
    {
      ghost var r, n := State(), |items[l]|;
      InsertKeeps(r, l, n, x);
      OffApart(r, x, l, -1);
      assert r.Joined(l, n - 1);
      var s := Sentinel(l);
      next := next[x := s];
      var tail := prev[s];
      prev := prev[x := tail];
      prev := prev[s := x];
      next := next[tail := x];
      id := id[x := id[s]];
      length := length[l := length[l] + 1];
      items := items[l := items[l] + [x]];
      assert r.Owned(l, -1);
      assert With(r.items[l], n, x) == r.items[l] + [x];
      assert State() == r.Insert(l, n, x);
    }

    /** Put an element that is on no list at the head of a list. */
    method Unshift(l: nat, x: nat)
      requires Valid() && l < lists && State().Off(x)
      modifies this
      ensures Valid() && items == old(items)[l := [x] + old(items)[l]]
      ensures id == old(id)[x := l]
    {
      ghost var r := State();
      InsertKeeps(r, l, 0, x);
      OffApart(r, x, l, -1);
      assert r.Joined(l, -1);
      var s := Sentinel(l);
      prev := prev[x := s];
      var head := next[s];
      next := next[x := head];
      next := next[s := x];
      prev := prev[head := x];
      id := id[x := id[s]];
      length := length[l := length[l] + 1];
      items := items[l := [x] + items[l]];
      assert r.Owned(l, -1);
      assert With(r.items[l], 0, x) == [x] + r.items[l];
      assert State() == r.Insert(l, 0, x);
    }

    /** Take an element off the list that it is on. */
    method Remove(l: nat, x: nat, ghost i: nat)
      requires Valid() && l < lists && Placed(State(), l, i, x)
      modifies this
      ensures Valid() && items == old(items)[l := Without(old(items)[l], i)]
      ensures id == old(id) && State().Off(x)
    {
      ghost var r := State();
      RemoveKeeps(r, l, i);
      assert r.Joined(l, i - 1) && r.Joined(l, i);
      Apart(r, l, i, l, i - 1);
      Apart(r, l, i, l, i + 1);
      prev := prev[next[x] := prev[x]];
      next := next[prev[x] := next[x]];
      prev := prev[x := NULL];
      next := next[x := NULL];
      length := length[l := length[l] - 1];
      items := items[l := Without(items[l], i)];
      assert State() == r.Remove(l, i);
    }

    /** The element at the head of a list, or NULL. */
    method PeekHead(l: nat) returns (x: int)
      requires Valid() && l < lists
      ensures x == if items[l] == [] then NULL else items[l][0]
    {
      assert State().Joined(l, -1) && State().Joined(l, |items[l]| - 1);
      assert State().Owned(l, |items[l]| - 1);
      assert |items[l]| > 0 ==> State().Owned(l, 0);
      var s := Sentinel(l);
      if next[s] == s {
        assert prev[s] == s;
        x := NULL;
      } else {
        assert prev[s] != s && prev[next[s]] == s;
        x := next[s];
      }
    }

    /** The element at the tail of a list, or NULL. */
    method PeekTail(l: nat) returns (x: int)
      requires Valid() && l < lists
      ensures x == if items[l] == [] then NULL else items[l][|items[l]| - 1]
    {
      assert State().Joined(l, -1) && State().Joined(l, |items[l]| - 1);
      assert State().Owned(l, 0);
      assert |items[l]| > 0 ==> State().Owned(l, |items[l]| - 1);
      var s := Sentinel(l);
      if prev[s] == s {
        assert next[s] == s;
        x := NULL;
      } else {
        assert next[s] != s && next[prev[s]] == s;
        x := prev[s];
      }
    }

    /** Take the element at the tail off a list. */
    method Pop(l: nat) returns (x: int)
      requires Valid() && l < lists
      modifies this
      ensures Valid() && id == old(id)
      ensures x == if old(items)[l] == [] then NULL else old(items)[l][|old(items)[l]| - 1]
      ensures items == if x == NULL then old(items) else old(items)[l := old(items)[l][..|old(items)[l]| - 1]]
      ensures x != NULL ==> State().Off(x)
    {
      x := PeekTail(l);
      if x != NULL {
        assert Without(items[l], |items[l]| - 1) == items[l][..|items[l]| - 1];
        Remove(l, x, |items[l]| - 1);
      }
    }

    /** Take the element at the head off a list. */
    method Shift(l: nat) returns (x: int)
      requires Valid() && l < lists
      modifies this
      ensures Valid() && id == old(id)
      ensures x == if old(items)[l] == [] then NULL else old(items)[l][0]
      ensures items == if x == NULL then old(items) else old(items)[l := old(items)[l][1..]]
      ensures x != NULL ==> State().Off(x)
    {
      x := PeekHead(l);
      if x != NULL {
        assert Without(items[l], 0) == items[l][1..];
        Remove(l, x, 0);
      }
    }
  }
}
