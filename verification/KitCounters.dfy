// The counters of a process, with the loops that add them up, and the index that lists
// them by name.
module KitCounters {
  import opened CounterSlots
  import opened CounterSteps

  /** Which counts to read: those of a slot, those of all threads, or the shared ones. */
  datatype Which = Thread(n: nat) | Everything | OnlyShared

  lemma {:induction false} SumMod(a: int, b: int)
    ensures (a % M + b) % M == (a + b) % M
  {
    Same64Add(a, a, b);
  }

  lemma {:induction false} OkIsShaped(s: State)
    requires StateOk(s)
    ensures Shaped(s)
  {
  }

  class Counters {
    var numCounters: nat
    var counterState: seq<Flags>
    var allCounters: seq<Block>
    var deadThreadCounters: Block
    var sharedCounters: Block

    /** The thread_counters pointer of each thread, and whether the thread is in the middle of setting it up. */
    var threadCounters: map<nat, Where>

    ghost function Now(): State
      reads this
    {
      State(counterState, allCounters, deadThreadCounters, sharedCounters, threadCounters)
    }

    ghost predicate Valid()
      reads this
    {
      StateOk(Now()) && |deadThreadCounters| == numCounters + 1
    }

    /** Set up counters for so many threads; the calling thread gets the first slot. */
    constructor (main: nat, threads: nat, counts: nat)
      requires threads > 0
      ensures Valid() && Now() == Initial(main, threads, counts)
    {
      var state: seq<Flags> := [];
      var i := 0;
      while i < threads
        invariant i <= threads && state == seq(i, _ => STATIC)
      {
        state := state + [STATIC];
        i := i + 1;
      }
      state := state[0 := state[0].(used := true)];
      var all := [Zeros(counts + 1)];
      i := 1;
      while i < threads
        invariant 1 <= i <= threads && all == seq(i, _ => Zeros(counts + 1))
      {
        all := all + [Zeros(counts + 1)];
        i := i + 1;
      }
      numCounters := counts;
      counterState := state;
      allCounters := all;
      deadThreadCounters := Zeros(counts + 1);
      sharedCounters := Zeros(counts + 1);
      threadCounters := map[main := Slot(0)];
      InitialOk(main, threads, counts, 0);
    }

    // -------------------------------------------------------------- counting

    /** Add to a counter, in the thread's own block if it has one. */
    method Add(t: nat, c: nat, value: nat)
      requires Valid() && Allowed(Now(), Event.Add(t, c, value))
      modifies this
      ensures Valid() && Now() == Apply(old(Now()), Event.Add(t, c, value))
    {
      OkKept(Now(), Event.Add(t, c, value));
      if c > numCounters {
        return;
      }
      if t in threadCounters && threadCounters[t].Slot? {
        var i := threadCounters[t].i;
        var block := allCounters[i];
        block := block[c := (block[c] + value) % M];
        allCounters := allCounters[i := block];
      } else if t in threadCounters && threadCounters[t].Dead? {
        deadThreadCounters := deadThreadCounters[c := (deadThreadCounters[c] + value) % M];
      } else {
        sharedCounters := sharedCounters[c := (sharedCounters[c] + value) % M];
      }
    }

    method Incr(t: nat, c: nat)
      requires Valid() && Allowed(Now(), Event.Add(t, c, 1))
      modifies this
      ensures Valid() && Now() == Apply(old(Now()), Event.Add(t, c, 1))
    {
      Add(t, c, 1);
    }

    /** Take one off a counter: the same as adding 2^64 - 1. */
    method Decr(t: nat, c: nat)
      requires Valid() && Allowed(Now(), Event.Add(t, c, M - 1))
      modifies this
      ensures Valid() && Now() == Apply(old(Now()), Event.Add(t, c, M - 1))
    {
      Add(t, c, M - 1);
    }

    // -------------------------------------------------------------- adding up

    /** Add one block to another, counter by counter. */
    method AddBlock(acc: Block, b: Block) returns (r: Block)
      requires |acc| == |b|
      ensures r == Sum(acc, b)
    {
      r := acc;
      var n := 0;
      while n < |b|
        invariant n <= |b| && |r| == |acc|
        invariant forall i :: 0 <= i < |r| ==> r[i] == if i < n then (acc[i] + b[i]) % M else acc[i]
      {
        r := r[n := (r[n] + b[n]) % M];
        n := n + 1;
      }
    }

    /** out with the counts of one slot, or of everything, added to it. */
    method Combine(out: Block, which: Which) returns (r: Block)
      requires Valid() && |out| == numCounters + 1 && !which.OnlyShared?
      requires which.Everything? ==> forall c :: 0 <= c < |out| ==> out[c] < M
      ensures |r| == |out|
      ensures which.Everything? ==> forall c :: 0 <= c < |r| ==> r[c] == (out[c] + Whole(Now(), c)) % M
      ensures which.Thread? ==>
                r == if which.n < |counterState| && counterState[which.n].used then Sum(out, allCounters[which.n]) else out
    {
      hide StateOk, Whole, Used;
      OkIsShaped(Now());
      var from := if which.Thread? then which.n else 0;
      var to := if which.Everything? then |counterState| else if which.n < |counterState| then which.n + 1 else |counterState|;
      r := out;
      var i := from;
      while i < to
        invariant from <= i && (i <= to || i == from)
        invariant i <= to ==> Shaped(Now()) && r == AddedUp(Now(), out, from, i)
        invariant i > to ==> r == out
      {
        if counterState[i].used {
          r := AddBlock(r, allCounters[i]);
        }
        i := i + 1;
      }
      if which.Everything? {
        ghost var slots := r;
        r := AddBlock(r, deadThreadCounters);
        r := AddBlock(r, sharedCounters);
        AddedUpIsWhole(Now(), out, slots, r);
      }
    }

    /** Read one counter. */
    method GetData(c: nat, which: Which) returns (out: nat)
      requires Valid()
      ensures out == if c > numCounters then 0 else match which {
                       case Everything => Total(Now(), c)
                       case OnlyShared => sharedCounters[c]
                       case Thread(n) => if n < |counterState| && counterState[n].used then allCounters[n][c] % M else 0
                     }
    {
      ghost var s := Now();
      out := 0;
      if c <= numCounters && !(which.Thread? && which.n >= |counterState|) {
        if which.OnlyShared? {
          out := sharedCounters[c];
        } else {
          var from := if which.Thread? then which.n else 0;
          var to := if which.Thread? then which.n + 1 else |counterState|;
          var i := from;
          while i < to
            invariant from <= i <= to
            invariant out == (Part(allCounters, c, Used(s), i) - Part(allCounters, c, Used(s), from)) % M
          {
            if counterState[i].used {
              SumMod(Part(allCounters, c, Used(s), i) - Part(allCounters, c, Used(s), from), allCounters[i][c]);
              out := (out + allCounters[i][c]) % M;
            }
            i := i + 1;
          }
          if which.Everything? {
            SumMod(Part(allCounters, c, Used(s), i), deadThreadCounters[c]);
            out := (out + deadThreadCounters[c]) % M;
            SumMod(Part(allCounters, c, Used(s), i) + deadThreadCounters[c], sharedCounters[c]);
            out := (out + sharedCounters[c]) % M;
          }
        }
      }
    }

    // -------------------------------------------------------------- threads

    method InitThread(t: nat, slot: nat)
      requires Valid() && Allowed(Now(), Event.InitThread(t, slot))
      modifies this
      ensures Valid() && Now() == Apply(old(Now()), Event.InitThread(t, slot))
      ensures counterState == old(counterState)[slot := old(counterState)[slot].(used := true)]
      ensures threadCounters == old(threadCounters)[t := Slot(slot)]
      ensures unchanged(`allCounters) && unchanged(`deadThreadCounters) && unchanged(`sharedCounters)
    {
      OkKept(Now(), Event.InitThread(t, slot));
      threadCounters := threadCounters[t := Slot(slot)];
      counterState := counterState[slot := counterState[slot].(used := true)];
    }

    /** Hand the counts of a thread's slot to the dead threads and let go of the slot. */
    method FiniThread(t: nat, slot: nat)
      requires Valid() && Allowed(Now(), Event.FiniThread(t, slot))
      modifies this
      ensures Valid()
      ensures var s1 := Apply(old(Now()), Event.FiniThread(t, slot));
              Shaped(s1) && Allowed(s1, Finish(t)) && Now() == Apply(s1, Finish(t))
      ensures counterState == old(counterState)[slot := old(counterState)[slot].(used := false)]
      ensures threadCounters == old(threadCounters)[t := Dead]
      ensures allCounters == old(allCounters)[slot := allCounters[slot]]
      ensures forall c :: 0 <= c <= numCounters ==> allCounters[slot][c] == 0
      ensures forall c :: 0 <= c <= numCounters ==>
                deadThreadCounters[c] == (old(deadThreadCounters)[c] + old(allCounters)[slot][c]) % 0x1_0000_0000_0000_0000
      ensures unchanged(`sharedCounters)
    {
      hide StateOk;
      ghost var s := Now();
      OkIsShaped(s);
      OkKept(s, Event.FiniThread(t, slot));
      OkKept(Apply(s, Event.FiniThread(t, slot)), Finish(t));
      deadThreadCounters := Combine(deadThreadCounters, Thread(slot));
      threadCounters := threadCounters[t := Leaving(slot, false)];
      assert Now() == Apply(s, Event.FiniThread(t, slot));
      allCounters := allCounters[slot := Zeros(numCounters + 1)];
      threadCounters := threadCounters[t := Dead];
      counterState := counterState[slot := counterState[slot].(used := false)];
    }

    /** Claim the first slot that is ready for a dynamic thread, and clear it. */
    method InitDynamicThread(t: nat) returns (slot: nat)
      requires Valid() && Allowed(Now(), InitDynamic(t))
      modifies this
      ensures Valid() && slot == FirstDynamic(old(counterState))
      ensures var s1 := Apply(old(Now()), InitDynamic(t));
              Shaped(s1) && Allowed(s1, Finish(t)) && Now() == Apply(s1, Finish(t))
      ensures counterState == old(counterState)[slot := Flags(true, false, true)]
      ensures Ready(counterState) == Ready(old(counterState)) - 1
      ensures threadCounters == old(threadCounters)[t := Slot(slot)]
      ensures allCounters == old(allCounters)[slot := allCounters[slot]]
      ensures forall c :: 0 <= c <= numCounters ==> allCounters[slot][c] == 0
      ensures unchanged(`deadThreadCounters) && unchanged(`sharedCounters)
    {
      hide StateOk, Ready;
      ghost var s := Now();
      OkIsShaped(s);
      FirstIsReady(counterState);
      StartTakesOne(s, t);
      OkKept(s, InitDynamic(t));
      OkKept(Apply(s, InitDynamic(t)), Finish(t));
      slot := 0;
      while slot < |counterState| && counterState[slot] != DYNAMIC
        invariant slot <= FirstDynamic(counterState)
      {
        slot := slot + 1;
      }
      threadCounters := threadCounters[t := Entering(slot)];
      counterState := counterState[slot := counterState[slot].(used := true)];
      assert Now() == Apply(s, InitDynamic(t));
      allCounters := allCounters[slot := Zeros(numCounters + 1)];
      threadCounters := threadCounters[t := Slot(slot)];
    }

    /** As FiniThread for a dynamic thread, whose slot is then gone until it is prepared again. */
    method FiniDynamicThread(t: nat, slot: nat)
      requires Valid() && Allowed(Now(), FiniDynamic(t, slot))
      modifies this
      ensures Valid()
      ensures var s1 := Apply(old(Now()), FiniDynamic(t, slot));
              Shaped(s1) && Allowed(s1, Finish(t)) && Now() == Apply(s1, Finish(t))
      ensures counterState == old(counterState)[slot := Flags(false, false, false)]
      ensures Ready(counterState) == Ready(old(counterState)) && Freed(counterState) == Freed(old(counterState)) + 1
      ensures threadCounters == old(threadCounters)[t := Dead]
      ensures forall c :: 0 <= c <= numCounters ==>
                deadThreadCounters[c] == (old(deadThreadCounters)[c] + old(allCounters)[slot][c]) % 0x1_0000_0000_0000_0000
      ensures unchanged(`allCounters) && unchanged(`sharedCounters)
    {
      hide StateOk, Ready, Freed;
      ghost var s := Now();
      OkIsShaped(s);
      FinishFreesOne(s, t, slot);
      OkKept(s, FiniDynamic(t, slot));
      OkKept(Apply(s, FiniDynamic(t, slot)), Finish(t));
      deadThreadCounters := Combine(deadThreadCounters, Thread(slot));
      threadCounters := threadCounters[t := Leaving(slot, true)];
      assert Now() == Apply(s, FiniDynamic(t, slot));
      threadCounters := threadCounters[t := Dead];
      counterState := counterState[slot := GONE];
    }

    /** Make at most so many of the slots that are gone ready for dynamic threads. */
    method ReuseGone(count: nat) returns (done: nat)
      modifies this`counterState
      ensures counterState == Reused(old(counterState), count) && done == Least(count, Freed(old(counterState)))
      ensures Ready(counterState) == Ready(old(counterState)) + done
      ensures Freed(counterState) == Freed(old(counterState)) - done
    {
      ghost var was := counterState;
      done := 0;
      var i := 0;
      while i < |counterState| && done < count
        invariant i <= |was| == |counterState| && done <= count && done == Gone(was, i)
        invariant forall j {:trigger counterState[j]} :: 0 <= j < i ==> counterState[j] == ReusedFlag(was, count, j)
        invariant forall j :: i <= j < |was| ==> counterState[j] == was[j]
        decreases |was| - i
      {
        if counterState[i] == GONE {
          counterState := counterState[i := DYNAMIC];
          done := done + 1;
        }
        i := i + 1;
      }
      RestKept(was, count, i);
      assert counterState == Reused(was, count);
      GoneBecomeReady(was, count);
    }

    /**
     * Make so many more slots ready for dynamic threads: first those that are gone, then
     * new ones, whose blocks hold whatever the allocated memory held.
     */
    method PrepareDynamicThreads(count: nat, junk: seq<Block>)
      requires Valid() && |junk| >= count && forall i :: 0 <= i < |junk| ==> |junk[i]| == numCounters + 1
      modifies this
      ensures Valid()
      ensures var s1 := Apply(old(Now()), Reuse(count));
              var more := count - Least(count, Freed(old(counterState)));
              && 0 <= more <= count && Shaped(s1) && Allowed(s1, Grow(junk[..more])) && Now() == Apply(s1, Grow(junk[..more]))
              && |counterState| == |old(counterState)| + more
      ensures Ready(counterState) == Ready(old(counterState)) + count
      ensures forall i :: 0 <= i < |old(counterState)| && old(counterState)[i] != Flags(false, false, false) ==>
                counterState[i] == old(counterState)[i]
      ensures unchanged(`deadThreadCounters) && unchanged(`sharedCounters) && unchanged(`threadCounters)
    {
      hide StateOk, Reused, Gone, Ready, Freed, Least;
      ghost var s := Now();
      OkIsShaped(s);
      OkKept(s, Reuse(count));
      var done := ReuseGone(count);
      assert Now() == Apply(s, Reuse(count));
      var more := junk[..count - done];
      OkKept(Now(), Grow(more));
      PreparedAreReady(s, count, more);
      counterState := counterState + seq(count - done, _ => DYNAMIC);
      allCounters := allCounters + more;
    }
  }

  /** Beyond the place where enough slots have been found, or the end, nothing is reused. */
  lemma {:induction false} RestKept(flags: seq<Flags>, count: nat, i: nat)
    requires i <= |flags| && (i == |flags| || Gone(flags, i) == count) && Gone(flags, i) <= count
    ensures Gone(flags, i) == Least(count, Freed(flags))
    ensures forall j {:trigger flags[j]} :: i <= j < |flags| ==> ReusedFlag(flags, count, j) == flags[j]
  {
    forall j | i <= j <= |flags| ensures Gone(flags, j) >= Gone(flags, i) { GoneGrows(flags, i, j); }
    GoneAreFreed(flags, |flags|);
    assert flags[..|flags|] == flags;
  }

  /** out with the counts of the used slots in a range added to it. */
  function AddedUp(s: State, out: Block, from: nat, to: nat): (r: Block)
    requires Shaped(s) && |out| == |s.dead| && from <= to && (from < to ==> to <= |s.blocks|)
    ensures |r| == |out|
  {
    if from == to then out
    else
      var acc := AddedUp(s, out, from, to - 1);
      if s.flags[to - 1].used then Sum(acc, s.blocks[to - 1]) else acc
  }

  lemma {:induction false} AddedUpIsPart(s: State, out: Block, to: nat, c: nat)
    requires Shaped(s) && |out| == |s.dead| && to <= |s.blocks| && c < |out| && out[c] < M
    ensures AddedUp(s, out, 0, to)[c] == (out[c] + Part(s.blocks, c, Used(s), to)) % M
  {
    if to > 0 {
      AddedUpIsPart(s, out, to - 1, c);
      SumMod(out[c] + Part(s.blocks, c, Used(s), to - 1), s.blocks[to - 1][c]);
    }
  }

  lemma {:induction false} AddedUpIsWhole(s: State, out: Block, slots: Block, r: Block)
    requires Shaped(s) && |out| == |s.dead| && slots == AddedUp(s, out, 0, |s.blocks|)
    requires forall c :: 0 <= c < |out| ==> out[c] < M
    requires r == Sum(Sum(slots, s.dead), s.shared)
    ensures forall c :: 0 <= c < |r| ==> r[c] == (out[c] + Whole(s, c)) % M
  {
    forall c | 0 <= c < |r| ensures r[c] == (out[c] + Whole(s, c)) % M {
      AddedUpIsPart(s, out, |s.blocks|, c);
      var p := out[c] + Part(s.blocks, c, Used(s), |s.blocks|);
      SumMod(p, s.dead[c]);
      SumMod(p + s.dead[c], s.shared[c]);
    }
  }
}
