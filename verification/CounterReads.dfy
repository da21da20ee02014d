module CounterReads {
  // Reading the total of a counter cell by cell while threads go on counting, as they do not
  // wait for the reader.  None starts or finishes meanwhile.

  import opened Arithmetic
  import opened CounterSteps

  /** The number of cells that a reader adds up: a counter in each slot, in the dead threads' and in the shared counters. */
  function Cells(s: State): nat {
    |s.flags| + 2
  }

  /** What the reader adds for cell k. */
  function Cell(s: State, c: nat, k: nat): nat
    requires Shaped(s) && c < |s.dead| && k < Cells(s)
  {
    if k < |s.flags| then if s.flags[k].used then s.blocks[k][c] else 0
    else if k == |s.flags| then s.dead[c]
    else s.shared[c]
  }

  /** The first n cells at one moment. */
  function CellsNow(s: State, c: nat, n: nat): nat
    requires Shaped(s) && c < |s.dead| && n <= Cells(s)
  {
    if n == 0 then 0 else CellsNow(s, c, n - 1) + Cell(s, c, n - 1)
  }

  lemma {:induction false} PartIsCells(s: State, c: nat, n: nat)
    requires Shaped(s) && c < |s.dead| && n <= |s.flags|
    ensures Part(s.blocks, c, Used(s), n) == CellsNow(s, c, n)
  {
    if n > 0 { PartIsCells(s, c, n - 1); }
  }

  lemma {:induction false} WholeIsCells(s: State, c: nat)
    requires Shaped(s) && c < |s.dead|
    ensures Whole(s, c) == CellsNow(s, c, Cells(s))
  {
    var n := |s.flags|;
    PartIsCells(s, c, n);
    assert CellsNow(s, c, n + 2) == CellsNow(s, c, n + 1) + s.shared[c];
    assert CellsNow(s, c, n + 1) == CellsNow(s, c, n) + s.dead[c];
  }

  /** The slots are used by the same threads and no cell of counter c is less than before. */
  ghost predicate Rises(s: State, s': State, c: nat) {
    && Shaped(s) && Shaped(s') && c < |s.dead| == |s'.dead| && s'.flags == s.flags
    && forall k {:trigger Cell(s', c, k)} :: 0 <= k < Cells(s) ==> Cell(s, c, k) <= Cell(s', c, k)
  }

  /** These steps only add to counters, and no sum of counter c wraps at 2^64. */
  ghost predicate AddsUp(s: State, es: seq<Event>, c: nat)
    decreases |es|
  {
    es == [] ||
    (&& Shaped(s) && es[0].Add? && Allowed(s, es[0]) && c < |s.dead|
     && (es[0].c == c ==> match s.At(es[0].t)
                          case Slot(i) => s.blocks[i][c] + es[0].v < M
                          case Dead => s.dead[c] + es[0].v < M
                          case _ => s.shared[c] + es[0].v < M)
     && AddsUp(Apply(s, es[0]), es[1..], c))
  }

  lemma {:induction false} StepRises(s: State, e: Event, c: nat)
    requires AddsUp(s, [e], c) && Shaped(s) && c < |s.dead|
    ensures Rises(s, Apply(s, e), c)
  {
  }

  lemma {:induction false} RisesOn(a: State, b: State, d: State, c: nat)
    requires Rises(a, b, c) && Rises(b, d, c)
    ensures Rises(a, d, c)
  {
    forall k | 0 <= k < Cells(a) ensures Cell(a, c, k) <= Cell(d, c, k) { assert Cell(a, c, k) <= Cell(b, c, k); }
  }

  lemma {:induction false} AddsRise(s: State, es: seq<Event>, s': State, c: nat)
    requires Shaped(s) && c < |s.dead| && AddsUp(s, es, c) && Leads(s, es, s')
    ensures Rises(s, s', c)
    decreases |es|
  {
    if es != [] {
      var s1 := Apply(s, es[0]);
      assert AddsUp(s1, [], c) && [es[0]][1..] == [];
      StepRises(s, es[0], c);
      AddsRise(s1, es[1..], s', c);
      RisesOn(s, s1, s', c);
    }
  }

  // ---------------------------------------------------------------- a read that takes its time

  /** The reader adds cell k at moment k; between two moments the threads take the steps in between. */
  ghost predicate IsRead(run: seq<State>, steps: seq<seq<Event>>, c: nat) {
    && run != [] && Shaped(run[0]) && c < |run[0].dead| && |run| == Cells(run[0]) == |steps| + 1
    && forall k :: 0 <= k < |steps| ==> Leads(run[k], steps[k], run[k + 1]) && AddsUp(run[k], steps[k], c)
  }

  ghost predicate Readable(run: seq<State>, c: nat) {
    forall k {:trigger run[k]} :: 0 <= k < |run| ==> Shaped(run[k]) && c < |run[k].dead| && Cells(run[k]) == |run|
  }

  /** What it has added up after n cells; the program keeps that modulo 2^64. */
  ghost function ReadUp(run: seq<State>, c: nat, n: nat): nat
    requires n <= |run| && Readable(run, c)
  {
    if n == 0 then 0 else ReadUp(run, c, n - 1) + Cell(run[n - 1], c, n - 1)
  }

  lemma {:induction false} MomentsRise(run: seq<State>, steps: seq<seq<Event>>, c: nat, j: nat, k: nat)
    requires IsRead(run, steps, c) && j <= k < |run|
    ensures Rises(run[j], run[k], c) && Cells(run[k]) == |run|
    decreases k
  {
    if k > 0 {
      if j < k { MomentsRise(run, steps, c, j, k - 1); } else { MomentsRise(run, steps, c, j - 1, k - 1); }
      AddsRise(run[k - 1], steps[k - 1], run[k], c);
      if j < k { RisesOn(run[j], run[k - 1], run[k], c); }
    }
  }

  lemma {:induction false} ReadIsReadable(run: seq<State>, steps: seq<seq<Event>>, c: nat)
    requires IsRead(run, steps, c)
    ensures Readable(run, c)
  {
    forall k | 0 <= k < |run| ensures Shaped(run[k]) && c < |run[k].dead| && Cells(run[k]) == |run| {
      MomentsRise(run, steps, c, 0, k);
    }
  }

  lemma {:induction false} ReadFromTo(run: seq<State>, steps: seq<seq<Event>>, c: nat, n: nat)
    requires IsRead(run, steps, c) && Readable(run, c) && n <= |run|
    ensures CellsNow(run[0], c, n) <= ReadUp(run, c, n) <= CellsNow(run[|run| - 1], c, n)
  {
    if n > 0 {
      ReadFromTo(run, steps, c, n - 1);
      MomentsRise(run, steps, c, 0, n - 1);
      MomentsRise(run, steps, c, n - 1, |run| - 1);
      assert Cell(run[0], c, n - 1) <= Cell(run[n - 1], c, n - 1) <= Cell(run[|run| - 1], c, n - 1);
    }
  }

  /**
   * While threads only add, and nothing wraps, a total that is read cell by cell is between
   * the totals at the first and at the last moment of reading.
   */
  lemma {:induction false} ReadIsBetween(run: seq<State>, steps: seq<seq<Event>>, c: nat)
    requires IsRead(run, steps, c)
    ensures Readable(run, c)
    ensures Whole(run[0], c) <= ReadUp(run, c, |run|) <= Whole(run[|run| - 1], c)
    ensures Whole(run[|run| - 1], c) < M ==> Total(run[0], c) <= ReadUp(run, c, |run|) % M <= Total(run[|run| - 1], c)
  {
    ReadIsReadable(run, steps, c);
    ReadFromTo(run, steps, c, |run|);
    WholeIsCells(run[0], c);
    WholeIsCells(run[|run| - 1], c);
  }

  // ---------------------------------------------------------------- where it fails

  function Two(a: nat, b: nat): State {
    State([Flags(false, true, true), Flags(false, true, true)], [[0, a], [0, b]], [0, 0], [0, 0], map[0 := Slot(0), 1 := Slot(1)])
  }

  lemma {:induction false} TotalOfTwo(a: nat, b: nat)
    requires a < M && b < M
    ensures var s := Two(a, b);
            && Shaped(s) && Whole(s, 1) == a + b && |s.dead| == 2 && Cells(s) == 4
            && Cell(s, 1, 0) == a && Cell(s, 1, 1) == b && Cell(s, 1, 2) == 0 && Cell(s, 1, 3) == 0
  {
    var s := Two(a, b);
    WholeIsCells(s, 1);
    assert CellsNow(s, 1, 0) == 0 && CellsNow(s, 1, 1) == a && CellsNow(s, 1, 2) == a + b && CellsNow(s, 1, 3) == a + b;
  }

  lemma {:induction false} TwoStart()
    ensures var i := Initial(0, 2, 1); Shaped(i) && Allowed(i, InitThread(1, 1)) && Apply(i, InitThread(1, 1)) == Two(0, 0)
  {
    var i, s := Initial(0, 2, 1), Two(0, 0);
    assert Zeros(2) == [0, 0];
    var i1 := Apply(i, InitThread(1, 1));
    assert i1.blocks == s.blocks && i1.flags == s.flags && i1.at == s.at;
  }

  /** The second thread starts and the first adds 1; it takes that off again, and the second adds 1. */
  lemma {:induction false} StepsOfTwo()
    ensures Leads(Initial(0, 2, 1), [InitThread(1, 1), Add(0, 1, 1)], Two(1, 0))
    ensures Leads(Two(1, 0), [Add(0, 1, M - 1)], Two(0, 0)) && Leads(Two(0, 0), [Add(1, 1, 1)], Two(0, 1))
  {
    var s0, s1, s2 := Two(1, 0), Two(0, 0), Two(0, 1);
    TwoStart();
    assert AddTo([0, 0], 1, 1) == [0, 1] && AddTo([0, 1], 1, M - 1) == [0, 0];
    assert Apply(s1, Add(0, 1, 1)) == s0;
    assert Apply(s0, Add(0, 1, M - 1)) == s1;
    assert Apply(s1, Add(1, 1, 1)) == s2;
    var es := [InitThread(1, 1), Add(0, 1, 1)];
    assert es[1..] == [Add(0, 1, 1)] && es[1..][1..] == [];
    assert Leads(s1, es[1..], s0);
    hide Initial;
    assert [Add(0, 1, M - 1)][1..] == [] && [Add(1, 1, 1)][1..] == [];
  }

  lemma {:induction false} ReadOfTwo()
    ensures var run := [Two(1, 0), Two(0, 1), Two(0, 1), Two(0, 1)]; Readable(run, 1) && ReadUp(run, 1, 4) == 2
  {
    TotalOfTwo(1, 0);
    TotalOfTwo(0, 1);
    hide Cell, Two, Whole, Shaped;
    var run := [Two(1, 0), Two(0, 1), Two(0, 1), Two(0, 1)];
    assert ReadUp(run, 1, 1) == 1 && ReadUp(run, 1, 2) == 2 && ReadUp(run, 1, 3) == 2;
  }

  /**
   * With a thread that takes one off its counter behind the reader's back, and one that adds
   * one ahead of it, 2 is read of a counter whose total is 1, then 0, then 1.
   */
  lemma {:induction false} ReadSeesNoTotal()
    ensures var (s0, s1, s2) := (Two(1, 0), Two(0, 0), Two(0, 1));
            && Leads(Initial(0, 2, 1), [InitThread(1, 1), Add(0, 1, 1)], s0)
            && Leads(s0, [Add(0, 1, M - 1)], s1) && Leads(s1, [Add(1, 1, 1)], s2)
            && Shaped(s0) && Shaped(s1) && Shaped(s2) && Total(s0, 1) == 1 && Total(s1, 1) == 0 && Total(s2, 1) == 1
            && Readable([s0, s2, s2, s2], 1) && ReadUp([s0, s2, s2, s2], 1, 4) == 2
  {
    StepsOfTwo();
    ReadOfTwo();
    TotalOfTwo(1, 0);
    TotalOfTwo(0, 0);
    TotalOfTwo(0, 1);
    hide Cell, Leads, ReadUp, Readable, Initial, Whole, Shaped;
  }
}
