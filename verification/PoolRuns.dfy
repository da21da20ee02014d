module PoolRuns {
  // Walking the elements of one state while elements are being moved between the steps.

  import opened PoolState

  /** Moving a node that a walker may stand on does not confuse what is known of the walker. */
  lemma {:induction false} MoveKeepsWalker(p: Pool, s: nat, w: Walker, x: nat, to: nat)
    requires PoolOk(p) && s < |p.queues| && WalkerOk(p, s, w) && x < |p.state| && to < |p.queues|
    ensures p.state[x] < |p.queues| && WalkerOk(Moved(p, x, to), s, w)
  {
    MovedKeeps(p, x, to);
    var p' := Moved(p, x, to);
    if w.node < |p.count| {
      forall y: nat ensures NothingBetween(p', s, w, y) {
        assert NothingBetween(p, s, w, y);
      }
    }
  }

  /** No element of a queue lies between an element and the one after it. */
  lemma {:induction false} NoneBetween(p: Pool, s: nat, i: nat, x: nat)
    requires PoolOk(p) && s < |p.queues| && i < |p.queues[s]| && InState(p, s, x) && x < |p.count|
    ensures p.queues[s][i] < |p.count| && (i > 0 ==> p.queues[s][i - 1] < |p.count|)
    ensures var q := p.queues[s];
            && (p.count[x] == p.count[q[i]] ==> x == q[i])
            && (i > 0 ==> !(p.count[q[i - 1]] < p.count[x] < p.count[q[i]]))
            && (i == 0 ==> p.count[x] >= p.count[q[0]])
  {
    OnItsQueue(p, x, s);
    assert QueueOk(p, s);
    var q := p.queues[s];
    var k := IndexOf(q, x);
    assert q[k] == x;
    assert CountsDiffer(p, x, q[i]);
  }

  /** Whichever way a step goes, it leaves the walker at a place of the queue and at the one before. */
  lemma {:induction false} TargetPlace(p: Pool, s: nat, w: Walker) returns (i: nat)
    requires PoolOk(p) && s < |p.queues| && WalkerOk(p, s, w)
    ensures Indexed(p, s) && i <= |p.queues[s]|
    ensures var t := Target(p, s, w);
            && t.node == NodeAt(p, s, i)
            && t.back == (if i == 0 then Sentinel(p, s) else p.queues[s][i - 1])
            && t.backCount == CountAt(p, s, t.back) && t.last == w.last
  {
    PoolIndexed(p, s);
    assert QueueOk(p, s);
    var q := p.queues[s];
    if w.node == Sentinel(p, s) {
      i := 0;
    } else if InState(p, s, w.node) {
      OnItsQueue(p, w.node, s);
      i := IndexOf(q, w.node) + 1;
    } else if w.back != Sentinel(p, s) && InState(p, s, w.back) {
      OnItsQueue(p, w.back, s);
      i := IndexOf(q, w.back) + 1;
    } else {
      i := Rank(p, q, w.last - 1);
    }
  }

  /** A step leaves what is known of a walker in force. */
  lemma {:induction false} StepKeepsWalker(p: Pool, s: nat, w: Walker)
    requires PoolOk(p) && s < |p.queues| && WalkerOk(p, s, w)
    ensures Indexed(p, s) && WalkerOk(p, s, Stepped(p, s, w))
  {
    var i := TargetPlace(p, s, w);
    var q, w' := p.queues[s], Stepped(p, s, w);
    assert QueueOk(p, s);
    if i < |q| {
      assert ElementOk(p, q[i]);
      assert w'.node == q[i] && w'.last == p.count[q[i]];
      forall x: nat ensures NothingBetween(p, s, w', x) {
        if InState(p, s, x) && x < |p.count| { NoneBetween(p, s, i, x); }
      }
    }
  }

  // ---------------------------------------------------------------- runs

  datatype Event = Move(x: nat, to: nat) | Step

  /**
   * was     the elements that have been in the walked state since the walk began
   * out     what the steps returned, and counts the count that each element had then
   * done    a step has reached the end of the queue
   */
  datatype World = World(pool: Pool, walker: Walker, was: set<nat>, out: seq<nat>, counts: seq<nat>, done: bool)

  /**
   * Between steps any element may be moved anywhere, except that an element that has
   * been in the walked state does not come into it again; touching is coming in again.
   */
  ghost predicate Allowed(w: World, s: nat, e: Event) {
    && !w.done
    && (e.Move? ==> e.x < |w.pool.state| && e.to < |w.pool.queues| && (e.to == s ==> e.x !in w.was))
  }

  /** The states of a pool have queues, and the queues hold elements. */
  ghost predicate Shaped(p: Pool, s: nat) {
    Indexed(p, s) && forall x :: 0 <= x < |p.state| ==> p.state[x] < |p.queues|
  }

  lemma {:induction false} PoolShaped(p: Pool, s: nat)
    requires PoolOk(p) && s < |p.queues|
    ensures Shaped(p, s)
  {
    PoolIndexed(p, s);
    forall x | 0 <= x < |p.state| ensures p.state[x] < |p.queues| { assert ElementOk(p, x); }
  }

  ghost function Apply(w: World, s: nat, e: Event): World
    requires Allowed(w, s, e)
  {
    if !Shaped(w.pool, s) then w else
    match e
    case Move(x, to) =>
      w.(pool := Moved(w.pool, x, to), was := if to == s then w.was + {x} else w.was)
    case Step =>
      var t := Stepped(w.pool, s, w.walker);
      if t.node < |w.pool.count| then w.(walker := t, out := w.out + [t.node], counts := w.counts + [t.last])
      else w.(walker := t, done := true)
  }

  ghost predicate MemberOk(w: World, s: nat, x: nat) {
    InState(w.pool, s, x) && x < |w.pool.count| ==>
      && x in w.was
      && (w.pool.count[x] <= w.walker.last ==> x in w.out)
      && (w.done ==> x in w.out)
  }

  ghost predicate OutOk(w: World, s: nat, i: nat)
    requires i < |w.out| == |w.counts|
  {
    && w.out[i] in w.was && w.out[i] < |w.pool.count|
    && w.counts[i] <= w.walker.last
    && (InState(w.pool, s, w.out[i]) ==> w.pool.count[w.out[i]] == w.counts[i])
  }

  ghost predicate WalkOk(w: World, s: nat)
    requires |w.out| == |w.counts|
  {
    && (w.walker.node < |w.pool.count| ==>
          |w.out| > 0 && w.walker.node == w.out[|w.out| - 1] && w.walker.last == w.counts[|w.counts| - 1])
    && (!w.done && w.walker.node >= |w.pool.count| ==> w.out == [] && w.walker.last == 0)
    && (w.walker.back < |w.pool.count| ==>
          w.walker.back in w.was && (InState(w.pool, s, w.walker.back) ==> w.pool.count[w.walker.back] == w.walker.backCount))
  }

  ghost predicate RunOk(w: World, s: nat)
  {
    && PoolOk(w.pool) && s < |w.pool.queues| && WalkerOk(w.pool, s, w.walker)
    && |w.out| == |w.counts| && WalkOk(w, s)
    && (forall x {:trigger MemberOk(w, s, x)} :: MemberOk(w, s, x))
    && (forall i {:trigger OutOk(w, s, i)} :: 0 <= i < |w.out| ==> OutOk(w, s, i))
    && (forall i, j :: 0 <= i < j < |w.out| ==> w.out[i] != w.out[j])
    && (forall i, j :: 0 <= i < j < |w.counts| ==> w.counts[i] < w.counts[j])
  }

  lemma {:induction false} MoveKeepsRun(w: World, s: nat, x: nat, to: nat)
    requires RunOk(w, s) && Allowed(w, s, Move(x, to))
    ensures RunOk(Apply(w, s, Move(x, to)), s)
  {
    PoolShaped(w.pool, s);
    var w' := Apply(w, s, Move(x, to));
    MovedKeeps(w.pool, x, to);
    MoveKeepsWalker(w.pool, s, w.walker, x, to);
    hide PoolOk, WalkerOk;
    forall y: nat ensures MemberOk(w', s, y) { assert MemberOk(w, s, y); }
    forall i | 0 <= i < |w'.out| ensures OutOk(w', s, i) { assert OutOk(w, s, i); }
  }

  /** A step of a walk returns the first element that moved after the one before. */
  lemma {:induction false} StepInRun(w: World, s: nat)
    requires RunOk(w, s) && !w.done
    ensures Indexed(w.pool, s)
    ensures Target(w.pool, s, w.walker).node == FirstAfter(w.pool, s, w.walker.last)
  {
    if w.walker.node < |w.pool.count| {
      assert OutOk(w, s, |w.out| - 1);
      StepFindsFirstAfter(w.pool, s, w.walker);
    } else {
      StepFromSentinel(w.pool, s, w.walker);
    }
  }

  /** Nothing of the walked state is later than c but before the first after c. */
  lemma {:induction false} FirstIsFirst(p: Pool, s: nat, c: nat, x: nat)
    requires PoolOk(p) && s < |p.queues| && InState(p, s, x) && x < |p.count|
    ensures Indexed(p, s)
    ensures var f := FirstAfter(p, s, c);
            if f < |p.count| then InState(p, s, f) && p.count[f] > c && (p.count[x] <= p.count[f] ==> p.count[x] <= c || x == f)
            else p.count[x] <= c
  {
    PoolIndexed(p, s);
    assert QueueOk(p, s);
    OnItsQueue(p, x, s);
    var q := p.queues[s];
    var f := FirstAfter(p, s, c);
    var i := Rank(p, q, c);
    if p.count[x] > c { FirstAfterIsAfter(p, s, c, x); }
    if f < |p.count| {
      assert q[i] == f;
      assert CountsDiffer(p, x, f);
    }
  }

  lemma {:induction false} FirstInState(p: Pool, s: nat, c: nat)
    requires PoolOk(p) && s < |p.queues|
    ensures Indexed(p, s)
    ensures var f := FirstAfter(p, s, c); f < |p.count| ==> InState(p, s, f) && p.count[f] > c
  {
    PoolIndexed(p, s);
    assert QueueOk(p, s);
  }

  lemma {:induction false} StepKeepsMembers(w: World, s: nat, x: nat)
    requires RunOk(w, s) && Allowed(w, s, Step)
    ensures MemberOk(Apply(w, s, Step), s, x)
  {
    PoolShaped(w.pool, s);
    StepInRun(w, s);
    var w' := Apply(w, s, Step);
    assert MemberOk(w, s, x);
    if InState(w.pool, s, x) && x < |w.pool.count| {
      FirstIsFirst(w.pool, s, w.walker.last, x);
      hide PoolOk, WalkerOk, RunOk;
      if w'.done { assert w'.out == w.out; }
    }
  }

  lemma {:induction false} StepKeepsBack(w: World, s: nat)
    requires RunOk(w, s) && Allowed(w, s, Step)
    ensures |Apply(w, s, Step).out| == |Apply(w, s, Step).counts|
    ensures WalkOk(Apply(w, s, Step), s)
  {
    PoolShaped(w.pool, s);
    var i := TargetPlace(w.pool, s, w.walker);
    var b := Target(w.pool, s, w.walker).back;
    assert QueueOk(w.pool, s);
    if b < |w.pool.count| {
      assert MemberOk(w, s, b);
    }
  }

  lemma {:induction false} StepKeepsOut(w: World, s: nat)
    requires RunOk(w, s) && Allowed(w, s, Step)
    ensures var w' := Apply(w, s, Step);
            && |w'.out| == |w'.counts|
            && (forall i {:trigger OutOk(w', s, i)} :: 0 <= i < |w'.out| ==> OutOk(w', s, i))
            && (forall i, j :: 0 <= i < j < |w'.out| ==> w'.out[i] != w'.out[j])
            && (forall i, j :: 0 <= i < j < |w'.counts| ==> w'.counts[i] < w'.counts[j])
  {
    var w' := Apply(w, s, Step);
    PoolShaped(w.pool, s);
    StepInRun(w, s);
    FirstInState(w.pool, s, w.walker.last);
    var f := FirstAfter(w.pool, s, w.walker.last);
    assert MemberOk(w, s, f);
    hide PoolOk, WalkerOk;
    forall i | 0 <= i < |w.out| ensures f < |w.pool.count| ==> w.out[i] != f { assert OutOk(w, s, i); }
    forall i | 0 <= i < |w'.out| ensures OutOk(w', s, i) && w'.counts[i] <= w'.walker.last {
      if i < |w.out| { assert OutOk(w, s, i); }
    }
    forall i | 0 <= i < |w.out| ensures w.counts[i] <= w.walker.last { assert OutOk(w, s, i); }
  }

  lemma {:induction false} StepKeepsRun(w: World, s: nat)
    requires RunOk(w, s) && Allowed(w, s, Step)
    ensures RunOk(Apply(w, s, Step), s)
  {
    PoolShaped(w.pool, s);
    var w' := Apply(w, s, Step);
    StepKeepsWalker(w.pool, s, w.walker);
    StepKeepsOut(w, s);
    StepKeepsBack(w, s);
    forall x: nat ensures MemberOk(w', s, x) { StepKeepsMembers(w, s, x); }
  }

  /** A walk of the elements in state s begins. */
  function Started(p: Pool, s: nat): World
  {
    World(p, Begin(p, s), set x | 0 <= x < |p.state| && p.state[x] == s, [], [], false)
  }

  lemma {:induction false} StartedOk(p: Pool, s: nat)
    requires PoolOk(p) && s < |p.queues|
    ensures RunOk(Started(p, s), s)
  {
    var w := Started(p, s);
    forall x: nat ensures MemberOk(w, s, x) {
      if x < |p.state| { assert ElementOk(p, x); }
    }
  }

  /** A sequence of events, each allowed where it happens, leads from one world to another. */
  ghost predicate Leads(w: World, s: nat, es: seq<Event>, w': World)
    decreases |es|
  {
    if es == [] then w' == w else
    Allowed(w, s, es[0]) && Leads(Apply(w, s, es[0]), s, es[1..], w')
  }

  lemma {:induction false} RunKeeps(w: World, s: nat, es: seq<Event>, w': World)
    requires RunOk(w, s) && Leads(w, s, es, w')
    ensures RunOk(w', s)
    decreases |es|
  {
    if es != [] {
      match es[0] {
        case Move(x, to) => MoveKeepsRun(w, s, x, to);
        case Step => StepKeepsRun(w, s);
      }
      RunKeeps(Apply(w, s, es[0]), s, es[1..], w');
    }
  }

  /**
   * A walk with any moves between its steps, as long as no element comes into the walked
   * state again, returns no element twice, in the order of their moves, and when it ends
   * it has returned every element that is in the walked state.
   */
  lemma {:induction false} WalkMissesNone(p: Pool, s: nat, es: seq<Event>, w: World)
    requires PoolOk(p) && s < |p.queues| && Leads(Started(p, s), s, es, w)
    ensures |w.out| == |w.counts|
    ensures forall i, j :: 0 <= i < j < |w.out| ==> w.out[i] != w.out[j] && w.counts[i] < w.counts[j]
    ensures w.done ==> forall x :: 0 <= x < |w.pool.state| && w.pool.state[x] == s ==> x in w.out
  {
    StartedOk(p, s);
    RunKeeps(Started(p, s), s, es, w);
    if w.done {
      forall x | 0 <= x < |w.pool.state| && w.pool.state[x] == s ensures x in w.out {
        assert MemberOk(w, s, x);
      }
    }
  }

  /** Each element that a step of such a walk returns is in the walked state, with the count noted. */
  lemma {:induction false} ReturnedIsInState(p: Pool, s: nat, es: seq<Event>, w: World)
    requires PoolOk(p) && s < |p.queues| && Leads(Started(p, s), s, es, w) && !w.done
    ensures RunOk(w, s)
    ensures var w' := Apply(w, s, Step);
            if w'.done then w'.out == w.out
            else
              && |w'.out| == |w.out| + 1 && w'.out[..|w.out|] == w.out
              && var x := w'.out[|w.out|];
              && x < |w.pool.state| == |w.pool.count| && w.pool.state[x] == s && x !in w.out
              && w'.counts[|w.out|] == w.pool.count[x] > w.walker.last
  {
    StartedOk(p, s);
    RunKeeps(Started(p, s), s, es, w);
    StepKeepsOut(w, s);
    StepInRun(w, s);
    FirstInState(w.pool, s, w.walker.last);
    var w' := Apply(w, s, Step);
    PoolShaped(w.pool, s);
    if !w'.done {
      assert w'.out[..|w.out|] == w.out;
      forall i | 0 <= i < |w.out| ensures w.out[i] != w'.out[|w.out|] { assert w'.out[i] == w.out[i]; }
    }
  }

  // ---------------------------------------------------------------- a walk that misses an element

  /** Two elements, both in state 0, in the order in which they were made. */
  function TwoElements(): Pool {
    Pool([[0, 1]], [0, 0], [1, 2], 2)
  }

  /** The two elements when 0 has been touched. */
  function FirstTouched(): Pool {
    Pool([[1, 0]], [0, 0], [3, 2], 3)
  }

  /** A walker of the two elements that stands at the first. */
  function AtFirst(): Walker {
    Walker(0, 2, 1, 0)
  }

  lemma {:induction false} TwoElementsOk()
    ensures PoolOk(TwoElements())
  {
    assert TwoElements().queues[0] == [0, 1];
  }

  lemma {:induction false} FirstStep()
    ensures Indexed(TwoElements(), 0)
    ensures Stepped(TwoElements(), 0, Begin(TwoElements(), 0)) == AtFirst()
  {
    assert TwoElements().queues[0] == [0, 1];
  }

  lemma {:induction false} TouchFirst()
    ensures Moved(TwoElements(), 0, 0) == FirstTouched()
  {
    assert TwoElements().queues[0] == [0, 1];
    DropAt([0, 1], 0, 0);
    var p' := Moved(TwoElements(), 0, 0);
    assert p'.queues[0] == [1, 0];
    assert p'.queues == [[1, 0]] && p'.state == [0, 0] && p'.count == [3, 2];
  }

  lemma {:induction false} SecondStep()
    ensures Indexed(FirstTouched(), 0)
    ensures Stepped(FirstTouched(), 0, AtFirst()).node == Sentinel(FirstTouched(), 0)
    ensures !Untouched(FirstTouched(), 0, AtFirst())
    ensures FirstAfter(FirstTouched(), 0, AtFirst().last) == 1
  {
    var p := FirstTouched();
    assert p.queues[0] == [1, 0];
    assert IndexOf([1, 0], 0) == 1;
    RankUnique(p, [1, 0], 1, 0);
  }

  /**
   * Touching the element that a walker stands at sends it past all others: the walk of
   * elements 0 and 1 visits 0, then 0 is touched, and the walk ends without visiting 1,
   * which was in the walked state all the time.
   */
  lemma {:induction false} TouchedWalkMissesOne()
    ensures var p, p' := TwoElements(), Moved(TwoElements(), 0, 0);
            && PoolOk(p) && PoolOk(p') && Indexed(p, 0) && Indexed(p', 0)
            && var w := Stepped(p, 0, Begin(p, 0));
            && w.node == 0
            && p'.queues == [[1, 0]] && WalkerOk(p', 0, w)
            && !Untouched(p', 0, w)
            && FirstAfter(p', 0, w.last) == 1
            && Stepped(p', 0, w).node == Sentinel(p', 0)
  {
    hide Stepped, Moved, PoolOk, WalkerOk, Untouched, FirstAfter;
    TwoElementsOk();
    FirstStep();
    StepKeepsWalker(TwoElements(), 0, Begin(TwoElements(), 0));
    MovedKeeps(TwoElements(), 0, 0);
    MoveKeepsWalker(TwoElements(), 0, AtFirst(), 0, 0);
    TouchFirst();
    SecondStep();
  }
}
