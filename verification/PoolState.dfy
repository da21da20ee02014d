module PoolState {
  // A pool as a value: every element is on the queue of its state, in the order in which
  // elements last moved.

  /**
   * queues   the elements in each state, oldest first
   * state    the state of each element
   * count    the move count that each element got when it last moved
   * moves    how many moves there have been
   */
  datatype Pool = Pool(queues: seq<seq<nat>>, state: seq<nat>, count: seq<nat>, moves: nat)

  /** The elements of all queues together. */
  function Total(q: seq<seq<nat>>): nat {
    if q == [] then 0 else |q[0]| + Total(q[1..])
  }

  ghost predicate QueueOk(p: Pool, l: nat)
    requires l < |p.queues| && |p.state| == |p.count|
  {
    var q := p.queues[l];
    && (forall i :: 0 <= i < |q| ==> q[i] < |p.state| && p.state[q[i]] == l)
    && (forall i, j :: 0 <= i < j < |q| ==> q[i] < |p.count| && q[j] < |p.count| && p.count[q[i]] < p.count[q[j]])
  }

  ghost predicate ElementOk(p: Pool, x: nat)
    requires x < |p.state| == |p.count|
  {
    && p.state[x] < |p.queues| && x in p.queues[p.state[x]]
    && 1 <= p.count[x] <= p.moves
  }

  ghost predicate CountsDiffer(p: Pool, x: nat, y: nat)
    requires x < |p.count| && y < |p.count|
  {
    x != y ==> p.count[x] != p.count[y]
  }

  /** The invariant of every reachable pool. */
  ghost predicate PoolOk(p: Pool) {
    && |p.state| == |p.count|
    && Total(p.queues) == |p.state|
    && (forall l {:trigger QueueOk(p, l)} :: 0 <= l < |p.queues| ==> QueueOk(p, l))
    && (forall x {:trigger ElementOk(p, x)} :: 0 <= x < |p.state| ==> ElementOk(p, x))
    && (forall x, y {:trigger CountsDiffer(p, x, y)} :: 0 <= x < |p.state| && 0 <= y < |p.state| ==> CountsDiffer(p, x, y))
  }

  /** s without its first x. */
  function Drop(s: seq<nat>, x: nat): (r: seq<nat>)
    ensures |r| == if x in s then |s| - 1 else |s|
  {
    if s == [] then [] else if s[0] == x then s[1..] else [s[0]] + Drop(s[1..], x)
  }

  lemma {:induction false} DropAt(s: seq<nat>, x: nat, i: nat)
    requires i < |s| && s[i] == x && forall j :: 0 <= j < i ==> s[j] != x
    ensures Drop(s, x) == s[..i] + s[i + 1..]
  {
    if i > 0 {
      DropAt(s[1..], x, i - 1);
      assert s[..i] == [s[0]] + s[1..][..i - 1];
      assert s[i + 1..] == s[1..][i..];
    }
  }

  lemma {:induction false} TotalUpdate(q: seq<seq<nat>>, l: nat, s: seq<nat>)
    requires l < |q|
    ensures Total(q[l := s]) == Total(q) - |q[l]| + |s|
  {
    if l == 0 {
      assert q[l := s][1..] == q[1..];
    } else {
      TotalUpdate(q[1..], l - 1, s);
      assert q[l := s][1..] == q[1..][l - 1 := s];
    }
  }

  /** Move element x to the tail of the queue of a state, under the next count. */
  function Moved(p: Pool, x: nat, to: nat): Pool
    requires x < |p.state| == |p.count| && p.state[x] < |p.queues| && to < |p.queues|
  {
    var q := p.queues[p.state[x] := Drop(p.queues[p.state[x]], x)];
    Pool(q[to := q[to] + [x]], p.state[x := to], p.count[x := p.moves + 1], p.moves + 1)
  }

  /** Where x is in the queue of its state. */
  function IndexOf(s: seq<nat>, x: nat): (i: nat)
    ensures i <= |s| && (i < |s| <==> x in s)
    ensures i < |s| ==> s[i] == x
    ensures forall j :: 0 <= j < i ==> s[j] != x
  {
    if s == [] || s[0] == x then 0 else 1 + IndexOf(s[1..], x)
  }

  /** What a move changes: the element's state and count, and its old queue and its new one. */
  lemma {:induction false} MovedIs(p: Pool, x: nat, to: nat) returns (i: nat)
    requires PoolOk(p) && x < |p.state| && to < |p.queues|
    ensures p.state[x] < |p.queues| && i < |p.queues[p.state[x]]| && p.queues[p.state[x]][i] == x
    ensures var p', from := Moved(p, x, to), p.state[x];
            var others := p.queues[from][..i] + p.queues[from][i + 1..];
            && p'.moves == p.moves + 1
            && |p'.state| == |p.state| && p'.state[x] == to && |p'.count| == |p.count| && p'.count[x] == p'.moves
            && (forall y :: 0 <= y < |p.state| && y != x ==> p'.state[y] == p.state[y] && p'.count[y] == p.count[y])
            && |p'.queues| == |p.queues|
            && (forall l :: 0 <= l < |p.queues| && l != from && l != to ==> p'.queues[l] == p.queues[l])
            && p'.queues[to] == (if from == to then others else p.queues[to]) + [x]
            && (from != to ==> p'.queues[from] == others)
  {
    assert ElementOk(p, x);
    i := IndexOf(p.queues[p.state[x]], x);
    DropAt(p.queues[p.state[x]], x, i);
  }

  lemma {:induction false} DropNone(s: seq<nat>, x: nat)
    requires x !in s
    ensures Drop(s, x) == s
  {
    if s != [] { DropNone(s[1..], x); }
  }

  /** Which place of s a place of Drop(s, x) comes from. */
  function Source(s: seq<nat>, x: nat, k: nat): nat {
    if k < IndexOf(s, x) then k else k + 1
  }

  lemma {:induction false} DropPlace(s: seq<nat>, x: nat, k: nat)
    requires k < |Drop(s, x)|
    ensures Source(s, x, k) < |s| && Drop(s, x)[k] == s[Source(s, x, k)]
  {
    if x in s { DropAt(s, x, IndexOf(s, x)); } else { DropNone(s, x); }
  }

  lemma {:induction false} DropKeepsOthers(s: seq<nat>, x: nat, y: nat)
    requires y in s && y != x
    ensures y in Drop(s, x)
  {
    var j := IndexOf(s, y);
    if x in s {
      var i := IndexOf(s, x);
      DropAt(s, x, i);
      assert (s[..i] + s[i + 1..])[if j < i then j else j - 1] == y;
    } else { DropNone(s, x); }
  }

  /** The place of a moved pool's queue comes from this place of the pool's queue, unless it is the new tail. */
  lemma {:induction false} MovedPlace(p: Pool, x: nat, to: nat, l: nat, k: nat)
    requires PoolOk(p) && x < |p.state| && p.state[x] < |p.queues| && to < |p.queues| && l < |p.queues|
    requires k < |Moved(p, x, to).queues[l]|
    ensures var q, q' := p.queues[l], Moved(p, x, to).queues[l];
            if l == to && k == |q'| - 1 then q'[k] == x
            else
              && Source(q, x, k) < |q| && q'[k] == q[Source(q, x, k)]
              && q'[k] < |p.state| && q'[k] != x && p.state[q'[k]] == l && p.count[q'[k]] <= p.moves
  {
    var q, q' := p.queues[l], Moved(p, x, to).queues[l];
    var d := Drop(q, x);
    assert QueueOk(p, l);
    if l != p.state[x] { DropNone(q, x); }
    assert q' == d + if l == to then [x] else [];
    if !(l == to && k == |q'| - 1) {
      DropPlace(q, x, k);
      assert ElementOk(p, q'[k]);
      if x in q && q'[k] == x { SamePlace(p, l, IndexOf(q, x), Source(q, x, k)); }
    }
  }

  lemma {:induction false} SamePlace(p: Pool, l: nat, i: nat, j: nat)
    requires PoolOk(p) && l < |p.queues| && i < |p.queues[l]| && j < |p.queues[l]| && p.queues[l][i] == p.queues[l][j]
    ensures i == j
  {
    assert QueueOk(p, l);
  }

  lemma {:induction false} MovedQueue(p: Pool, x: nat, to: nat, l: nat)
    requires PoolOk(p) && x < |p.state| && to < |p.queues| && l < |p.queues|
    requires p.state[x] < |p.queues|
    ensures QueueOk(Moved(p, x, to), l)
  {
    assert QueueOk(p, l);
    var p' := Moved(p, x, to);
    var q, q' := p.queues[l], p'.queues[l];
    hide PoolOk;
    forall k | 0 <= k < |q'| ensures q'[k] < |p'.state| && p'.state[q'[k]] == l { MovedPlace(p, x, to, l, k); }
    forall i, j | 0 <= i < j < |q'|
      ensures q'[i] < |p'.count| && q'[j] < |p'.count| && p'.count[q'[i]] < p'.count[q'[j]]
    {
      MovedPlace(p, x, to, l, i);
      MovedPlace(p, x, to, l, j);
    }
  }

  lemma {:induction false} OnItsQueue(p: Pool, x: nat, l: nat)
    requires PoolOk(p) && l < |p.queues| && x < |p.state|
    ensures x in p.queues[l] <==> p.state[x] == l
  {
    assert QueueOk(p, l);
    assert ElementOk(p, x);
  }

  lemma {:induction false} MovedElement(p: Pool, x: nat, to: nat, y: nat)
    requires PoolOk(p) && x < |p.state| && to < |p.queues| && y < |p.state|
    requires p.state[x] < |p.queues|
    ensures ElementOk(Moved(p, x, to), y)
  {
    assert ElementOk(p, y);
    var p' := Moved(p, x, to);
    if y == x {
      assert p'.queues[to][|p'.queues[to]| - 1] == x;
    } else {
      DropKeepsOthers(p.queues[p.state[y]], x, y);
      if p.state[y] != p.state[x] {
        OnItsQueue(p, x, p.state[y]);
        DropNone(p.queues[p.state[y]], x);
      }
    }
  }

  /** A move keeps every element on exactly one queue, in order of last move. */
  lemma {:induction false} MovedKeeps(p: Pool, x: nat, to: nat)
    requires PoolOk(p) && x < |p.state| && to < |p.queues|
    ensures p.state[x] < |p.queues|
    ensures PoolOk(Moved(p, x, to))
  {
    assert ElementOk(p, x);
    var p' := Moved(p, x, to);
    forall l | 0 <= l < |p'.queues| ensures QueueOk(p', l) { MovedQueue(p, x, to, l); }
    forall y | 0 <= y < |p'.state| ensures ElementOk(p', y) { MovedElement(p, x, to, y); }
    forall y, z | 0 <= y < |p'.state| && 0 <= z < |p'.state| ensures CountsDiffer(p', y, z) {
      assert CountsDiffer(p, y, z) && ElementOk(p, y) && ElementOk(p, z);
    }
    var q := p.queues[p.state[x] := Drop(p.queues[p.state[x]], x)];
    TotalUpdate(p.queues, p.state[x], q[p.state[x]]);
    TotalUpdate(q, to, q[to] + [x]);
  }

  /** An element is on the queue of its state, at one place there, and on no other queue. */
  lemma {:induction false} OnOneQueue(p: Pool, x: nat)
    requires PoolOk(p) && x < |p.state|
    ensures forall l :: 0 <= l < |p.queues| ==> (x in p.queues[l] <==> l == p.state[x])
    ensures p.state[x] < |p.queues|
    ensures forall i, j :: 0 <= i < j < |p.queues[p.state[x]]| ==> p.queues[p.state[x]][i] != p.queues[p.state[x]][j]
  {
    assert ElementOk(p, x);
    forall l | 0 <= l < |p.queues| && x in p.queues[l] ensures l == p.state[x] {
      assert QueueOk(p, l);
    }
    assert QueueOk(p, p.state[x]);
  }

  /** The head of a queue is the element of that state that moved longest ago. */
  lemma {:induction false} HeadIsOldest(p: Pool, l: nat)
    requires PoolOk(p) && l < |p.queues|
    ensures p.queues[l] == [] <==> forall x :: 0 <= x < |p.state| ==> p.state[x] != l
    ensures p.queues[l] != [] ==>
              var h := p.queues[l][0];
              && h < |p.state| && p.state[h] == l
              && forall x :: 0 <= x < |p.state| && p.state[x] == l && x != h ==> p.count[h] < p.count[x]
  {
    assert QueueOk(p, l);
    forall x | 0 <= x < |p.state| && p.state[x] == l ensures x in p.queues[l] { assert ElementOk(p, x); }
    if p.queues[l] != [] {
      var h := p.queues[l][0];
      assert p.state[h] == l;
    }
  }

  // ---------------------------------------------------------------- walkers

  /**
   * A walker of the elements in one state.  node and back are elements or the sentinel
   * of the queue, last is the count that node had when it was stepped to; backCount is
   * the count that back had then, which the program does not keep.
   */
  datatype Walker = Walker(node: nat, back: nat, last: nat, ghost backCount: nat)

  function Sentinel(p: Pool, s: nat): nat {
    |p.state| + s
  }

  /** The node at a place of a queue: the sentinel follows the last element. */
  function NodeAt(p: Pool, s: nat, i: nat): nat
    requires s < |p.queues|
  {
    if i < |p.queues[s]| then p.queues[s][i] else Sentinel(p, s)
  }

  /** How many elements at the start of a queue have a count of at most c. */
  function Rank(p: Pool, q: seq<nat>, c: int): (i: nat)
    requires forall j :: 0 <= j < |q| ==> q[j] < |p.count|
    ensures i <= |q|
    ensures forall j :: 0 <= j < i ==> p.count[q[j]] <= c
    ensures i < |q| ==> p.count[q[i]] > c
  {
    if q == [] || p.count[q[0]] > c then 0 else 1 + Rank(p, q[1..], c)
  }

  ghost predicate Indexed(p: Pool, s: nat) {
    s < |p.queues| && |p.state| == |p.count| && forall j :: 0 <= j < |p.queues[s]| ==> p.queues[s][j] < |p.count|
  }

  /** The first element of a queue that moved after count c, or the sentinel. */
  function FirstAfter(p: Pool, s: nat, c: int): nat
    requires Indexed(p, s)
  {
    NodeAt(p, s, Rank(p, p.queues[s], c))
  }

  /** The node after one that is on the queue. */
  function Succ(p: Pool, s: nat, n: nat): nat
    requires s < |p.queues|
  {
    NodeAt(p, s, if n == Sentinel(p, s) then 0 else IndexOf(p.queues[s], n) + 1)
  }

  /** Whether a walker's node or back is an element in the walked state. */
  predicate InState(p: Pool, s: nat, n: nat) {
    n < |p.state| && p.state[n] == s
  }

  ghost function CountAt(p: Pool, s: nat, n: nat): nat {
    if n < |p.count| then p.count[n] else 0
  }

  /** Where a step leaves the walker, before it notes the count of its node. */
  function Target(p: Pool, s: nat, w: Walker): (Walker)
    requires Indexed(p, s)
  {
    if w.node == Sentinel(p, s) || InState(p, s, w.node) then
      Walker(Succ(p, s, w.node), w.node, w.last, CountAt(p, s, w.node))
    else if w.back != Sentinel(p, s) && InState(p, s, w.back) then
      Walker(Succ(p, s, w.back), w.back, w.last, CountAt(p, s, w.back))
    else
      var i := Rank(p, p.queues[s], w.last - 1);
      var back := if i == 0 then Sentinel(p, s) else p.queues[s][i - 1];
      Walker(NodeAt(p, s, i), back, w.last, CountAt(p, s, back))
  }

  /** One step of a walker; its result is the node it stands at, or none at the sentinel. */
  function Stepped(p: Pool, s: nat, w: Walker): Walker
    requires Indexed(p, s)
  {
    var t := Target(p, s, w);
    if t.node < |p.count| then t.(last := p.count[t.node]) else t
  }

  ghost predicate NothingBetween(p: Pool, s: nat, w: Walker, x: nat) {
    InState(p, s, x) && x < |p.count| ==>
      && !(w.backCount < p.count[x] < w.last)
      && (p.count[x] == w.last ==> x == w.node)
  }

  /** What holds of a walker between steps, whatever has been moved meanwhile. */
  ghost predicate WalkerOk(p: Pool, s: nat, w: Walker)
  {
    && w.last <= p.moves
    && (w.node < |p.count| || w.node == Sentinel(p, s))
    && (w.back < |p.count| || w.back == Sentinel(p, s))
    && (w.node < |p.count| ==>
          && (p.count[w.node] >= w.last)
          && (w.back == Sentinel(p, s) ==> w.backCount == 0)
          && (w.back < |p.count| ==> w.backCount < w.last && (p.count[w.back] == w.backCount || p.count[w.back] > w.last))
          && forall x {:trigger NothingBetween(p, s, w, x)} :: NothingBetween(p, s, w, x))
  }

  /** Neither the walker's node nor the node it would fall back on has been moved within the walked state. */
  ghost predicate Untouched(p: Pool, s: nat, w: Walker) {
    && (InState(p, s, w.node) && w.node < |p.count| ==> p.count[w.node] == w.last)
    && (w.node < |p.state| && !InState(p, s, w.node) && w.back < |p.count| && InState(p, s, w.back) ==>
          p.count[w.back] == w.backCount)
  }

  lemma {:induction false} PoolIndexed(p: Pool, s: nat)
    requires PoolOk(p) && s < |p.queues|
    ensures Indexed(p, s)
  {
    assert QueueOk(p, s);
  }

  lemma {:induction false} RankUnique(p: Pool, q: seq<nat>, c: int, i: nat)
    requires forall j :: 0 <= j < |q| ==> q[j] < |p.count|
    requires i <= |q| && (forall j :: 0 <= j < i ==> p.count[q[j]] <= c) && (i < |q| ==> p.count[q[i]] > c)
    ensures Rank(p, q, c) == i
  {
  }

  /** Stepping from an element of the queue finds the first later one. */
  lemma {:induction false} SuccIsFirstAfter(p: Pool, s: nat, n: nat)
    requires PoolOk(p) && s < |p.queues| && n < |p.count| && InState(p, s, n)
    ensures Indexed(p, s) && Succ(p, s, n) == FirstAfter(p, s, p.count[n])
  {
    PoolIndexed(p, s);
    assert ElementOk(p, n) && QueueOk(p, s);
    RankUnique(p, p.queues[s], p.count[n], IndexOf(p.queues[s], n) + 1);
  }

  /** The first element after c does not change with c as long as no count lies between. */
  lemma {:induction false} FirstAfterSame(p: Pool, s: nat, c: int, d: int)
    requires PoolOk(p) && s < |p.queues| && c <= d
    requires forall x :: x in p.queues[s] && x < |p.count| ==> !(c < p.count[x] <= d)
    ensures Indexed(p, s) && Rank(p, p.queues[s], c) == Rank(p, p.queues[s], d)
  {
    PoolIndexed(p, s);
    var q := p.queues[s];
    var r := Rank(p, q, c);
    if r < |q| { assert q[r] in q; }
    RankUnique(p, q, d, r);
  }

  lemma {:induction false} FirstAfterIsAfter(p: Pool, s: nat, c: int, x: nat)
    requires PoolOk(p) && s < |p.queues| && InState(p, s, x) && x < |p.count| && p.count[x] > c
    ensures Indexed(p, s)
    ensures var f := FirstAfter(p, s, c); f < |p.count| && p.count[f] <= p.count[x] && InState(p, s, f)
  {
    PoolIndexed(p, s);
    OnItsQueue(p, x, s);
    assert QueueOk(p, s);
    var q := p.queues[s];
    var i, j := IndexOf(q, x), Rank(p, q, c);
    assert j <= i;
    assert q[j] in q;
  }

  /**
   * From wherever a walker stands a step finds the first element of the state that
   * moved after the walker's last one, if and only if the element that it steps from
   * was not itself moved within the walked state.
   */
  lemma {:induction false} StepFindsFirstAfter(p: Pool, s: nat, w: Walker)
    requires PoolOk(p) && s < |p.queues| && WalkerOk(p, s, w) && w.node < |p.count|
    ensures Indexed(p, s)
    ensures Target(p, s, w).node == FirstAfter(p, s, w.last) <==> Untouched(p, s, w)
  {
    PoolIndexed(p, s);
    if InState(p, s, w.node) {
      SuccIsFirstAfter(p, s, w.node);
      if p.count[w.node] > w.last { SuccPasses(p, s, w.node, w.last); }
    } else {
      forall x | x in p.queues[s] && x < |p.count| ensures !(w.backCount < p.count[x] <= w.last) {
        OnItsQueue(p, x, s);
        assert NothingBetween(p, s, w, x);
      }
      if w.back < |p.count| && InState(p, s, w.back) {
        SuccIsFirstAfter(p, s, w.back);
        if p.count[w.back] == w.backCount {
          FirstAfterSame(p, s, w.backCount, w.last);
        } else {
          SuccPasses(p, s, w.back, w.last);
        }
      } else {
        forall x | x in p.queues[s] && x < |p.count| ensures !(w.last - 1 < p.count[x] <= w.last) {
          OnItsQueue(p, x, s);
          assert NothingBetween(p, s, w, x);
        }
        FirstAfterSame(p, s, w.last - 1, w.last);
      }
    }
  }

  /** Stepping from an element that moved after count c passes over the first one after c. */
  lemma {:induction false} SuccPasses(p: Pool, s: nat, n: nat, c: nat)
    requires PoolOk(p) && s < |p.queues| && n < |p.count| && InState(p, s, n) && p.count[n] > c
    ensures Indexed(p, s) && Succ(p, s, n) != FirstAfter(p, s, c)
  {
    FirstAfterIsAfter(p, s, c, n);
    SuccIsFirstAfter(p, s, n);
    var q := p.queues[s];
    var i := Rank(p, q, p.count[n]);
    if i < |q| { assert q[i] in q; }
  }

  /** Where a walk begins. */
  function Begin(p: Pool, s: nat): Walker {
    Walker(Sentinel(p, s), Sentinel(p, s), 0, 0)
  }

  /** At the sentinel, a step goes to the head of the queue. */
  lemma {:induction false} StepFromSentinel(p: Pool, s: nat, w: Walker)
    requires PoolOk(p) && s < |p.queues| && w.node == Sentinel(p, s)
    ensures Indexed(p, s) && Target(p, s, w).node == FirstAfter(p, s, 0)
  {
    PoolIndexed(p, s);
    var q := p.queues[s];
    forall j | 0 <= j < |q| ensures p.count[q[j]] > 0 { assert q[j] in q; OnItsQueue(p, q[j], s); assert ElementOk(p, q[j]); }
    RankUnique(p, q, 0, 0);
  }
}
