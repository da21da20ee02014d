module CounterSlots {
  // How many slots are ready for dynamic threads, counted as what counter_state holds: a
  // multiset of flags.  Preparing raises that number by as many as were asked for, and so
  // many dynamic threads can then be started, and no more.

  import opened CounterSteps

  function Ready(flags: seq<Flags>): nat { multiset(flags)[Flags(true, false, false)] }

  function Freed(flags: seq<Flags>): nat { multiset(flags)[Flags(false, false, false)] }

  function Least(a: nat, b: nat): (m: nat)
    ensures m <= a && m <= b
  {
    if a < b then a else b
  }

  lemma {:induction false} OneMore(flags: seq<Flags>, n: nat)
    requires n < |flags|
    ensures Ready(flags[..n + 1]) == Ready(flags[..n]) + if flags[n] == DYNAMIC then 1 else 0
    ensures Freed(flags[..n + 1]) == Freed(flags[..n]) + if flags[n] == GONE then 1 else 0
  {
    assert flags[..n + 1] == flags[..n] + [flags[n]];
  }

  lemma {:induction false} NoneYet(flags: seq<Flags>)
    ensures Ready(flags[..0]) == 0 && Freed(flags[..0]) == 0
  {
  }

  lemma {:induction false} GoneAreFreed(flags: seq<Flags>, n: nat)
    requires n <= |flags|
    ensures Gone(flags, n) == Freed(flags[..n])
  {
    hide Ready, Freed;
    NoneYet(flags);
    if n > 0 {
      GoneAreFreed(flags, n - 1);
      OneMore(flags, n - 1);
    }
  }

  lemma {:induction false} ReusedSoFar(flags: seq<Flags>, count: nat, n: nat)
    requires n <= |flags|
    ensures var done := Least(count, Freed(flags[..n]));
            && Ready(Reused(flags, count)[..n]) == Ready(flags[..n]) + done
            && Freed(Reused(flags, count)[..n]) == Freed(flags[..n]) - done
  {
    hide Ready, Freed, Gone;
    NoneYet(flags);
    NoneYet(Reused(flags, count));
    if n > 0 {
      ReusedSoFar(flags, count, n - 1);
      GoneAreFreed(flags, n - 1);
      OneMore(flags, n - 1);
      OneMore(Reused(flags, count), n - 1);
    }
  }

  /** Of the slots that are gone as many as asked for, or else all, become ready: those that come first. */
  lemma {:induction false} GoneBecomeReady(flags: seq<Flags>, count: nat)
    ensures Ready(Reused(flags, count)) == Ready(flags) + Least(count, Freed(flags))
    ensures Freed(Reused(flags, count)) == Freed(flags) - Least(count, Freed(flags))
    ensures var r := Reused(flags, count);
            forall i, j :: 0 <= i < j < |flags| && r[i] == Flags(false, false, false) ==> r[j] == flags[j]
  {
    ReusedSoFar(flags, count, |flags|);
    assert flags[..|flags|] == flags && Reused(flags, count)[..|flags|] == Reused(flags, count);
    forall i, j | 0 <= i < j < |flags| && Reused(flags, count)[i] == Flags(false, false, false)
      ensures Reused(flags, count)[j] == flags[j]
    {
      GoneGrows(flags, i, j);
    }
  }

  lemma {:induction false} NewAreReady(flags: seq<Flags>, n: nat)
    ensures Ready(flags + seq(n, _ => DYNAMIC)) == Ready(flags) + n
  {
    if n == 0 {
      assert flags + seq(n, _ => DYNAMIC) == flags;
    } else {
      NewAreReady(flags, n - 1);
      assert flags + seq(n, _ => DYNAMIC) == flags + seq(n - 1, _ => DYNAMIC) + [DYNAMIC];
    }
  }

  /** Preparing makes exactly as many more slots ready as were asked for, and adds no more than are missing. */
  lemma {:induction false} PreparedAreReady(s: State, count: nat, added: seq<Block>)
    requires Shaped(s) && |added| == count - Least(count, Freed(s.flags))
    requires Allowed(s, Grow(added))
    ensures var s' := Apply(Apply(s, Reuse(count)), Grow(added));
            && Ready(s'.flags) == Ready(s.flags) + count
            && |s'.flags| == |s.flags| + |added|
            && forall i :: 0 <= i < |s.flags| && s.flags[i] != Flags(false, false, false) ==> s'.flags[i] == s.flags[i]
  {
    GoneBecomeReady(s.flags, count);
    NewAreReady(Reused(s.flags, count), |added|);
  }

  lemma {:induction false} FirstIsReady(flags: seq<Flags>)
    ensures FirstDynamic(flags) < |flags| <==> Ready(flags) > 0
  {
    var i := FirstDynamic(flags);
    if i < |flags| { assert flags[i] in multiset(flags); }
    if Ready(flags) > 0 {
      assert DYNAMIC in multiset(flags);
      var j :| 0 <= j < |flags| && flags[j] == DYNAMIC;
    }
  }

  /** Dynamic threads that start one after the other. */
  function Starts(ts: seq<nat>): seq<Event> {
    if ts == [] then [] else [InitDynamic(ts[0]), Finish(ts[0])] + Starts(ts[1..])
  }

  ghost predicate CanStart(s: State, ts: seq<nat>) {
    exists s' :: Leads(s, Starts(ts), s')
  }

  /** One thread that starts takes one ready slot. */
  lemma {:induction false} StartTakesOne(s: State, t: nat)
    requires StateOk(s) && !Busy(s.At(t)) && Ready(s.flags) > 0
    ensures Allowed(s, InitDynamic(t))
    ensures var s1 := Apply(s, InitDynamic(t));
            && Shaped(s1) && Allowed(s1, Finish(t))
            && var s2 := Apply(s1, Finish(t));
            && StateOk(s2) && Ready(s2.flags) == Ready(s.flags) - 1
            && s2.at == s.at[t := Slot(FirstDynamic(s.flags))]
  {
    FirstIsReady(s.flags);
    OkKept(s, InitDynamic(t));
    OkKept(Apply(s, InitDynamic(t)), Finish(t));
  }

  lemma {:induction false} StartsSplit(s: State, ts: seq<nat>, s': State)
    requires StateOk(s) && ts != [] && !Busy(s.At(ts[0])) && Ready(s.flags) > 0
    ensures var s1 := Apply(s, InitDynamic(ts[0]));
            Leads(s, Starts(ts), s') <==> Leads(Apply(s1, Finish(ts[0])), Starts(ts[1..]), s')
  {
    StartTakesOne(s, ts[0]);
    var es := Starts(ts);
    assert es[0] == InitDynamic(ts[0]) && es[1] == Finish(ts[0]) && es[1..][1..] == Starts(ts[1..]);
    assert Leads(s, es, s') <==> Leads(Apply(s, es[0]), es[1..], s');
  }

  /**
   * Dynamic threads that are not in the middle of something can be started one after the
   * other if and only if as many slots are ready.
   */
  lemma {:induction false} StartsIffReady(s: State, ts: seq<nat>)
    requires StateOk(s) && forall t :: t in ts ==> !Busy(s.At(t))
    ensures CanStart(s, ts) <==> |ts| <= Ready(s.flags)
    decreases |ts|
  {
    if ts == [] {
      assert Leads(s, Starts(ts), s);
    } else if Ready(s.flags) == 0 {
      FirstIsReady(s.flags);
      assert Starts(ts)[0] == InitDynamic(ts[0]);
    } else {
      StartTakesOne(s, ts[0]);
      var s2 := Apply(Apply(s, InitDynamic(ts[0])), Finish(ts[0]));
      forall t | t in ts[1..] ensures !Busy(s2.At(t)) { assert t in ts; }
      StartsIffReady(s2, ts[1..]);
      if CanStart(s, ts) {
        var s' :| Leads(s, Starts(ts), s');
        StartsSplit(s, ts, s');
      }
      if CanStart(s2, ts[1..]) {
        var s' :| Leads(s2, Starts(ts[1..]), s');
        StartsSplit(s, ts, s');
      }
    }
  }

  /** A dynamic thread that finishes leaves a slot that is gone: as many are ready as were. */
  lemma {:induction false} FinishFreesOne(s: State, t: nat, slot: nat)
    requires StateOk(s) && Allowed(s, FiniDynamic(t, slot))
    ensures var s1 := Apply(s, FiniDynamic(t, slot));
            && Shaped(s1) && Allowed(s1, Finish(t))
            && var s2 := Apply(s1, Finish(t));
            && Ready(s2.flags) == Ready(s.flags) && Freed(s2.flags) == Freed(s.flags) + 1
  {
    OkKept(s, FiniDynamic(t, slot));
  }
}
