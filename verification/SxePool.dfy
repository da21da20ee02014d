// A pool with its queues, counts and walkers updated in place.
module SxePool {
  import opened Sequences
  import P = PoolState
  import opened SxeList

  ghost predicate Filled(items: seq<seq<nat>>, number: nat, i: nat) {
    && i <= number
    && (forall l :: 0 < l < |items| ==> items[l] == [])
    && (|items| > 0 ==> |items[0]| == number - i && forall k :: 0 <= k < number - i ==> items[0][k] == number - 1 - k)
  }

  /** A new pool: all elements in state 0, the last one oldest. */
  ghost predicate IsFresh(p: P.Pool, number: nat, states: nat) {
    && |p.queues| == states && |p.state| == |p.count| == number == p.moves
    && Filled(p.queues, number, 0)
    && forall x :: 0 <= x < number ==> p.state[x] == 0 && p.count[x] == number - x
  }

  lemma {:induction false} EmptyTotal(q: seq<seq<nat>>)
    requires forall l :: 0 <= l < |q| ==> q[l] == []
    ensures P.Total(q) == 0
  {
    if q != [] { EmptyTotal(q[1..]); }
  }

  lemma {:induction false} FreshOk(p: P.Pool, number: nat, states: nat)
    requires IsFresh(p, number, states) && (number > 0 ==> states > 0)
    ensures P.PoolOk(p)
  {
    if states > 0 {
      EmptyTotal(p.queues[1..]);
      forall x | 0 <= x < number ensures x in p.queues[0] { assert p.queues[0][number - 1 - x] == x; }
    }
  }

  /** p' is p with element x moved to the tail of the queue of a state, under the next count. */
  ghost predicate IsMoved(p: P.Pool, p': P.Pool, x: nat, to: nat) {
    && x < |p.state| == |p.count| && p.state[x] < |p.queues| && to < |p.queues|
    && p' == P.Moved(p, x, to)
  }

  class Pool {
    const number: nat
    const states: nat
    const queues: Lists
    var count: seq<nat>
    var nextCount: nat

    ghost function Abs(): P.Pool
      requires |queues.id| >= number
      reads this, queues
    {
      P.Pool(queues.items, queues.id[..number], count, nextCount)
    }

    ghost predicate Valid()
      reads this, queues
    {
      && queues.Valid() && queues.nodes == number && queues.lists == states
      && |count| == number && |queues.id| >= number
      && P.PoolOk(Abs())
    }

    constructor (number: nat, states: nat)
      requires number > 0 ==> states > 0
      ensures Valid() && fresh(queues) && this.number == number && this.states == states
      ensures IsFresh(Abs(), number, states)
    {
      this.number := number;
      this.states := states;
      queues := new Lists(number, states);
      count := seq(number, _ => 0);
      nextCount := 0;
      new;
      var i := number;
      while i > 0
        invariant i <= number && nextCount == number - i
        invariant queues.Valid() && fresh(queues) && queues.nodes == number && queues.lists == states
        invariant |count| == number && Filled(queues.items, number, i)
        invariant forall x :: i <= x < number ==> queues.id[x] == 0 && count[x] == number - x
      {
        i := i - 1;
        nextCount := nextCount + 1;
        count := count[i := nextCount];
        queues.Push(0, i);
      }
      FreshOk(Abs(), number, states);
    }

    /** Move an element to the tail of another queue, if it is in the state it is said to be in. */
    method SetStateUnlocked(id: nat, oldState: nat, newState: nat) returns (success: bool)
      requires Valid() && id < number && newState < states
      modifies this, queues
      ensures Valid()
      ensures success == (old(Abs()).state[id] == oldState)
      ensures if success then IsMoved(old(Abs()), Abs(), id, newState) else Abs() == old(Abs())
    {
      if queues.id[id] != oldState {
        success := false;
      } else {
        ghost var p := Abs();
        P.MovedKeeps(p, id, newState);
        assert P.ElementOk(p, id);
        ghost var i := P.IndexOf(p.queues[oldState], id);
        P.DropAt(p.queues[oldState], id, i);
        hide P.PoolOk, Rings.Valid, Rings.Off, P.Drop;
        queues.Remove(oldState, id, i);
        nextCount := nextCount + 1;
        count := count[id := nextCount];
        queues.Push(newState, id);
        success := true;
        assert Abs() == P.Moved(p, id, newState);
      }
    }

    /** Move an element whose state the caller knows. */
    method SetState(id: nat, oldState: nat, newState: nat)
      requires Valid() && id < number && newState < states && Abs().state[id] == oldState
      modifies this, queues
      ensures Valid() && IsMoved(old(Abs()), Abs(), id, newState)
    {
      var success := SetStateUnlocked(id, oldState, newState);
      assert success;
    }

    /** Move an element unless it is in another state; tells the state that it is in then. */
    method TryToSetState(id: nat, oldState: nat, newState: nat) returns (success: bool, state: nat)
      requires Valid() && id < number && newState < states
      modifies this, queues
      ensures Valid() && success == (old(Abs()).state[id] == oldState)
      ensures if success then IsMoved(old(Abs()), Abs(), id, newState) else Abs() == old(Abs())
      ensures state == Abs().state[id]
    {
      success := SetStateUnlocked(id, oldState, newState);
      state := if success then newState else queues.id[id];
    }

    /** Move the oldest element of one state to another; NULL when there is none. */
    method SetOldestState(oldState: nat, newState: nat) returns (id: int)
      requires Valid() && oldState < states && newState < states
      modifies this, queues
      ensures Valid()
      ensures id == NULL ==> Abs() == old(Abs()) && forall x :: 0 <= x < number ==> Abs().state[x] != oldState
      ensures id != NULL ==> IsOldest(old(Abs()), oldState, id) && IsMoved(old(Abs()), Abs(), id, newState)
    {
      P.HeadIsOldest(Abs(), oldState);
      id := queues.PeekHead(oldState);
      if id != NULL {
        SetState(id, oldState, newState);
      }
    }

    /** Move an element to the tail of the queue that it is on. */
    method Touch(id: nat)
      requires Valid() && id < number
      modifies this, queues
      ensures Valid() && IsMoved(old(Abs()), Abs(), id, old(Abs()).state[id])
    {
      assert P.ElementOk(Abs(), id);
      SetState(id, queues.id[id], queues.id[id]);
    }

    /** The element of a state that moved longest ago; NULL when there is none. */
    method OldestIndex(state: nat) returns (id: int)
      requires Valid() && state < states
      ensures id == NULL ==> forall x :: 0 <= x < number ==> Abs().state[x] != state
      ensures id != NULL ==> IsOldest(Abs(), state, id)
    {
      P.HeadIsOldest(Abs(), state);
      id := queues.PeekHead(state);
    }

    /** The least count of any element of a state; 0 when there is none. */
    method OldestCount(state: nat) returns (c: nat)
      requires Valid() && state < states
      ensures c == 0 ==> forall x :: 0 <= x < number ==> Abs().state[x] != state
      ensures c != 0 ==> exists h :: IsOldest(Abs(), state, h) && c == Abs().count[h]
    {
      P.HeadIsOldest(Abs(), state);
      var id := queues.PeekHead(state);
      c := 0;
      if id != NULL {
        assert IsOldest(Abs(), state, id) && P.ElementOk(Abs(), id);
        c := count[id];
      }
    }

    /** How many elements are in a state. */
    method NumberInState(state: nat) returns (n: nat)
      requires Valid() && state < states
      ensures n == |InState(Abs(), state)|
    {
      InStateCount(Abs(), state);
      n := queues.length[state];
    }
  }

  /** h is in the state and every other element of the state has a greater count. */
  ghost predicate IsOldest(p: P.Pool, state: nat, h: int)
    requires |p.state| == |p.count|
  {
    && 0 <= h < |p.state| && p.state[h] == state
    && forall x :: 0 <= x < |p.state| && p.state[x] == state && x != h ==> p.count[h] < p.count[x]
  }

  /** The elements in a state. */
  ghost function InState(p: P.Pool, state: nat): set<nat> {
    set x | 0 <= x < |p.state| && p.state[x] == state
  }

  /** The length of a queue is the number of elements in its state. */
  lemma {:induction false} InStateCount(p: P.Pool, state: nat)
    requires P.PoolOk(p) && state < |p.queues|
    ensures |InState(p, state)| == |p.queues[state]|
  {
    var q := p.queues[state];
    assert P.QueueOk(p, state);
    DistinctSize(q);
    forall x: nat | x < |p.state| ensures x in q <==> p.state[x] == state { P.OnItsQueue(p, x, state); }
    assert InState(p, state) == Elements(q);
  }

  // ---------------------------------------------------------------- walkers

  class ListWalker {
    var list: Lists
    var l: nat
    var back: nat
    var node: nat

    constructor (list: Lists, l: nat)
      ensures this.list == list && this.l == l && back == node == list.Sentinel(l)
    {
      this.list, this.l := list, l;
      back := list.Sentinel(l);
      node := list.Sentinel(l);
    }

    /** Stand before the first element of a list. */
    method Construct(list: Lists, l: nat)
      modifies this
      ensures this.list == list && this.l == l && back == node == list.Sentinel(l)
    {
      this.list := list;
      this.l := l;
      back := list.Sentinel(l);
      node := list.Sentinel(l);
    }

    /** Return to the node before, once. */
    method Back() returns (x: int)
      modifies this
      ensures list == old(list) && l == old(l)
      ensures if old(back) == list.Sentinel(l) then x == NULL && node == old(node) && back == old(back)
              else x == node == old(back) && back == list.Sentinel(l)
    {
      x := NULL;
      if back != list.Sentinel(l) {
        node := back;
        back := list.Sentinel(l);
        x := node;
      }
    }

    method Find() returns (x: int)
      ensures x == if node == list.Sentinel(l) then NULL else node
    {
      x := if node == list.Sentinel(l) then NULL else node;
    }

    /** Go to the next node of the list, from place i. */
    method Step(ghost i: int) returns (x: int)
      requires list.Valid() && l < list.lists && -1 <= i < |list.items[l]| && node == list.State().At(l, i)
      modifies this
      ensures list == old(list) && l == old(l)
      ensures back == old(node) && node == list.State().At(l, i + 1)
      ensures x == if i + 1 == |list.items[l]| then NULL else list.items[l][i + 1]
    {
      assert list.State().Joined(l, i) && list.State().Owned(l, i + 1);
      x := NULL;
      back := node;
      node := list.next[node];
      if node != list.Sentinel(l) {
        x := node;
      }
    }
  }

  class PoolWalker {
    const pool: Pool
    const state: nat
    const walker: ListWalker
    var last: nat

    /** The count of walker.back when it was stepped from; the program does not keep it. */
    ghost var backCount: nat

    ghost function View(): P.Walker
      reads this, walker
    {
      P.Walker(walker.node, walker.back, last, backCount)
    }

    /** The walker stands at elements of the pool or at the sentinel of the walked queue. */
    ghost predicate Valid()
      reads this, walker, pool, pool.queues
    {
      && pool.Valid() && state < pool.states
      && walker.list == pool.queues && walker.l == state
      && (walker.node < pool.number || walker.node == pool.queues.Sentinel(state))
      && (walker.back < pool.number || walker.back == pool.queues.Sentinel(state))
    }

    constructor (pool: Pool, state: nat)
      requires pool.Valid() && state < pool.states
      ensures Valid() && this.pool == pool && this.state == state && fresh(walker)
      ensures View() == P.Begin(pool.Abs(), state)
    {
      this.pool := pool;
      this.state := state;
      this.walker := new ListWalker(pool.queues, state);
      last := 0;
      backCount := 0;
    }

    /** The place of a node of the walked queue. */
    ghost function Place(n: nat): int
      requires Valid()
      reads this, walker, pool, pool.queues
    {
      if n == pool.queues.Sentinel(state) then -1 else P.IndexOf(pool.queues.items[state], n)
    }

    lemma {:induction false} PlaceIs(n: nat)
      requires Valid() && (n == pool.queues.Sentinel(state) || P.InState(pool.Abs(), state, n))
      ensures -1 <= Place(n) < |pool.queues.items[state]|
      ensures pool.queues.State().At(state, Place(n)) == n
      ensures P.Indexed(pool.Abs(), state)
      ensures pool.queues.State().At(state, Place(n) + 1) == P.Succ(pool.Abs(), state, n)
    {
      P.PoolIndexed(pool.Abs(), state);
      if P.InState(pool.Abs(), state, n) { P.OnItsQueue(pool.Abs(), n, state); }
    }

    /** Go to the first element that moved no earlier than the last one stepped to. */
    method Rewalk() returns (x: int)
      requires Valid()
      modifies walker
      ensures Valid() && P.Indexed(pool.Abs(), state)
      ensures x == (if walker.node == pool.queues.Sentinel(state) then NULL else walker.node)
      ensures var q := pool.queues.items[state];
              var i := P.Rank(pool.Abs(), q, last - 1);
              && walker.node == P.NodeAt(pool.Abs(), state, i)
              && walker.back == if i == 0 then pool.queues.Sentinel(state) else q[i - 1]
    {
      hide P.PoolOk, Rings.Valid, P.Rank;
      ghost var p, q := pool.Abs(), pool.queues.items[state];
      P.PoolIndexed(p, state);
      walker.Construct(pool.queues, state);
      x := walker.Step(-1);
      ghost var i := 0;
      while x != NULL && pool.count[x] < last
        invariant Valid() && pool.Abs() == p && pool.queues.items[state] == q
        invariant i <= |q| && walker.node == P.NodeAt(p, state, i)
        invariant walker.back == if i == 0 then pool.queues.Sentinel(state) else q[i - 1]
        invariant x == (if i == |q| then NULL else q[i])
        invariant forall j :: 0 <= j < i ==> p.count[q[j]] < last
        decreases |q| - i
      {
        x := walker.Step(i);
        i := i + 1;
      }
      P.RankUnique(p, q, last - 1, i);
    }

    /** The walker stands where a step of the pure walker would leave it. */
    ghost predicate Reached(p: P.Pool, w: P.Walker, x: int)
      requires P.Indexed(p, state)
      reads this, walker, pool
    {
      && walker.node == P.Target(p, state, w).node && walker.back == P.Target(p, state, w).back
      && x == if walker.node == P.Sentinel(p, state) then NULL else walker.node
    }

    /** Step on from the walker's own node. */
    method StepOn() returns (x: int)
      requires Valid() && (walker.node == pool.queues.Sentinel(state) || P.InState(pool.Abs(), state, walker.node))
      modifies walker
      ensures Valid() && P.Indexed(pool.Abs(), state)
      ensures Reached(pool.Abs(), old(View()), x)
    {
      hide P.PoolOk, Rings.Valid, P.Rank, P.IndexOf, P.CountAt;
      PlaceIs(walker.node);
      x := walker.Step(Place(walker.node));
    }

    /** Step on when the walker's node has left the state: from the node before, or from the start. */
    method Recover() returns (x: int)
      requires Valid() && walker.node != pool.queues.Sentinel(state) && !P.InState(pool.Abs(), state, walker.node)
      modifies walker
      ensures Valid() && P.Indexed(pool.Abs(), state)
      ensures Reached(pool.Abs(), old(View()), x)
    {
      hide P.PoolOk, Rings.Valid, P.Rank, P.IndexOf, P.CountAt;
      x := walker.Back();
      if x != NULL && pool.queues.id[x] == state {
        PlaceIs(x);
        x := walker.Step(Place(x));
      } else {
        x := Rewalk();
      }
    }

    /** Step to the next element of the state; NULL at the end. */
    method Step() returns (x: int)
      requires Valid()
      modifies this, walker
      ensures Valid() && P.Indexed(pool.Abs(), state)
      ensures View() == P.Stepped(pool.Abs(), state, old(View()))
      ensures x == if View().node == pool.queues.Sentinel(state) then NULL else View().node
    {
      hide P.PoolOk, Rings.Valid, P.Rank, P.IndexOf, P.CountAt;
      ghost var p := pool.Abs();
      x := walker.Find();
      if x != NULL && pool.queues.id[x] != state {
        x := Recover();
      } else {
        x := StepOn();
      }
      backCount := P.CountAt(p, state, walker.back);
      if x != NULL {
        last := pool.count[x];
      }
    }
  }
}
