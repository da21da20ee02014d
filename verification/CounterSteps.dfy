module CounterSteps {
  // Per-thread counters as a state machine.  Each step is what one thread does without any
  // other thread seeing the middle of it; finishing a thread and starting a dynamic one take
  // two steps, because the program lets go of its lock in between.

  import opened Arithmetic

  // Counters are 64 bits wide.
  const M: nat := 0x1_0000_0000_0000_0000

  /** The bits of counter_state. */
  datatype Flags = Flags(isDynamic: bool, isStatic: bool, used: bool)

  const GONE := Flags(false, false, false)
  const DYNAMIC := Flags(true, false, false)
  const STATIC := Flags(false, true, false)

  /**
   * Where a thread counts: nowhere of its own yet, so in the shared counters; in a slot;
   * with the dead threads.  Entering a slot is having claimed it and not yet cleared it;
   * leaving is having added it to the dead threads' counters and not yet let go of it.
   */
  datatype Where = Unset | Slot(i: nat) | Dead | Entering(i: nat) | Leaving(i: nat, isDynamic: bool)

  type Block = seq<nat>

  /** flags and blocks by slot; at tells where each thread counts. */
  datatype State = State(flags: seq<Flags>, blocks: seq<Block>, dead: Block, shared: Block, at: map<nat, Where>)
  {
    function At(t: nat): Where { if t in at then at[t] else Unset }
  }

  function Zeros(n: nat): Block { seq(n, _ => 0) }

  function AddTo(b: Block, c: nat, v: nat): Block
    requires c < |b|
  {
    b[c := (b[c] + v) % M]
  }

  /** Two blocks added counter by counter. */
  function Sum(a: Block, b: Block): (r: Block)
    requires |a| == |b|
    ensures |r| == |a|
  {
    seq(|a|, i requires 0 <= i < |a| => (a[i] + b[i]) % M)
  }

  // ---------------------------------------------------------------- steps

  datatype Event =
    | Add(t: nat, c: nat, v: nat)
    | InitThread(t: nat, slot: nat)
    | FiniThread(t: nat, slot: nat)
    | InitDynamic(t: nat)
    | FiniDynamic(t: nat, slot: nat)
    | Finish(t: nat)
    | Reuse(count: nat)
    | Grow(added: seq<Block>)

  /** The first slot that is ready for a dynamic thread. */
  function FirstDynamic(flags: seq<Flags>): (i: nat)
    ensures i <= |flags|
    ensures forall j :: 0 <= j < i ==> flags[j] != DYNAMIC
    ensures i < |flags| ==> flags[i] == DYNAMIC
  {
    if flags == [] || flags[0] == DYNAMIC then 0 else 1 + FirstDynamic(flags[1..])
  }

  /** How many of the first n slots are gone. */
  function Gone(flags: seq<Flags>, n: nat): (m: nat)
    requires n <= |flags|
    ensures m <= n
  {
    if n == 0 then 0 else Gone(flags, n - 1) + if flags[n - 1] == GONE then 1 else 0
  }

  function ReusedFlag(flags: seq<Flags>, count: nat, i: nat): Flags
    requires i < |flags|
  {
    if flags[i] == GONE && Gone(flags, i) < count then DYNAMIC else flags[i]
  }

  /** The first so many slots that are gone become ready for dynamic threads. */
  function Reused(flags: seq<Flags>, count: nat): (r: seq<Flags>)
    ensures |r| == |flags|
    ensures forall i :: 0 <= i < |r| ==> r[i] == flags[i] || (flags[i] == GONE && r[i] == DYNAMIC)
  {
    seq(|flags|, i requires 0 <= i < |flags| => ReusedFlag(flags, count, i))
  }

  lemma {:induction false} GoneGrows(flags: seq<Flags>, m: nat, n: nat)
    requires m <= n <= |flags|
    ensures Gone(flags, m) <= Gone(flags, n)
  {
    if m < n { GoneGrows(flags, m, n - 1); }
  }

  predicate Busy(w: Where) { w.Entering? || w.Leaving? }

  /**
   * When a step may be taken: what the program asserts, and that static threads use static
   * slots and dynamic threads finish their own slot.
   */
  predicate Allowed(s: State, e: Event) {
    match e
    case Add(t, c, v) => !Busy(s.At(t))
    case InitThread(t, slot) => !Busy(s.At(t)) && slot < |s.flags| && !s.flags[slot].used && s.flags[slot].isStatic
    case FiniThread(t, slot) => s.At(t) == Slot(slot) && slot < |s.flags| && s.flags[slot].used
    case InitDynamic(t) => !Busy(s.At(t)) && FirstDynamic(s.flags) < |s.flags|
    case FiniDynamic(t, slot) => s.At(t) == Slot(slot) && slot < |s.flags| && s.flags[slot] == Flags(true, false, true)
    case Finish(t) => Busy(s.At(t))
    case Reuse(count) => true
    case Grow(added) => forall i :: 0 <= i < |added| ==> |added[i]| == |s.dead|
  }

  predicate Shaped(s: State) {
    && |s.flags| == |s.blocks| && |s.shared| == |s.dead|
    && (forall i :: 0 <= i < |s.blocks| ==> |s.blocks[i]| == |s.dead|)
    && (forall t :: t in s.at ==> match s.at[t] { case Slot(i) => i < |s.flags| case Entering(i) => i < |s.flags|
                                                  case Leaving(i, d) => i < |s.flags| case _ => true })
  }

  function Apply(s: State, e: Event): State
    requires Shaped(s) && Allowed(s, e)
  {
    match e
    case Add(t, c, v) =>
      if c >= |s.dead| then s else
      (match s.At(t)
       case Slot(i) => s.(blocks := s.blocks[i := AddTo(s.blocks[i], c, v)])
       case Dead => s.(dead := AddTo(s.dead, c, v))
       case _ => s.(shared := AddTo(s.shared, c, v)))
    case InitThread(t, slot) =>
      s.(flags := s.flags[slot := s.flags[slot].(used := true)], at := s.at[t := Slot(slot)])
    case FiniThread(t, slot) =>
      s.(dead := Sum(s.dead, s.blocks[slot]), at := s.at[t := Leaving(slot, false)])
    case InitDynamic(t) =>
      var slot := FirstDynamic(s.flags);
      s.(flags := s.flags[slot := s.flags[slot].(used := true)], at := s.at[t := Entering(slot)])
    case FiniDynamic(t, slot) =>
      s.(dead := Sum(s.dead, s.blocks[slot]), at := s.at[t := Leaving(slot, true)])
    case Finish(t) =>
      (match s.At(t)
       case Entering(i) => s.(blocks := s.blocks[i := Zeros(|s.dead|)], at := s.at[t := Slot(i)])
       case Leaving(i, isDynamic) =>
         if isDynamic then s.(flags := s.flags[i := GONE], at := s.at[t := Dead])
         else s.(blocks := s.blocks[i := Zeros(|s.dead|)], flags := s.flags[i := s.flags[i].(used := false)], at := s.at[t := Dead])
       case _ => s)
    case Reuse(count) => s.(flags := Reused(s.flags, count))
    case Grow(added) => s.(flags := s.flags + seq(|added|, _ => DYNAMIC), blocks := s.blocks + added)
  }

  // ---------------------------------------------------------------- sums over slots

  /** Counter c added up over those of the first n slots that are in a set. */
  function Part(blocks: seq<Block>, c: nat, on: set<nat>, n: nat): int
    requires n <= |blocks|
    requires forall i :: 0 <= i < |blocks| ==> c < |blocks[i]|
  {
    if n == 0 then 0 else Part(blocks, c, on, n - 1) + if n - 1 in on then blocks[n - 1][c] else 0
  }

  lemma {:induction false} PartUpdate(blocks: seq<Block>, c: nat, on: set<nat>, n: nat, i: nat, b: Block)
    requires n <= |blocks| && i < |blocks| && c < |b|
    requires forall i :: 0 <= i < |blocks| ==> c < |blocks[i]|
    ensures if i < n && i in on then Part(blocks[i := b], c, on, n) == Part(blocks, c, on, n) + b[c] - blocks[i][c]
            else Part(blocks[i := b], c, on, n) == Part(blocks, c, on, n)
  {
    if n > 0 { PartUpdate(blocks, c, on, n - 1, i, b); }
  }

  lemma {:induction false} PartWith(blocks: seq<Block>, c: nat, on: set<nat>, n: nat, i: nat)
    requires n <= |blocks| && i !in on
    requires forall i :: 0 <= i < |blocks| ==> c < |blocks[i]|
    ensures Part(blocks, c, on + {i}, n) == Part(blocks, c, on, n) + if i < n then blocks[i][c] else 0
  {
    if n > 0 { PartWith(blocks, c, on, n - 1, i); }
  }

  lemma {:induction false} PartGrown(blocks: seq<Block>, more: seq<Block>, c: nat, on: set<nat>, n: nat)
    requires n <= |blocks|
    requires forall i :: 0 <= i < |blocks| ==> c < |blocks[i]|
    requires forall i :: 0 <= i < |more| ==> c < |more[i]|
    ensures Part(blocks + more, c, on, n) == Part(blocks, c, on, n)
  {
    if n > 0 { PartGrown(blocks, more, c, on, n - 1); }
  }

  lemma {:induction false} PartBeyond(blocks: seq<Block>, c: nat, on: set<nat>, m: nat, n: nat)
    requires m <= n <= |blocks| && forall i :: i in on ==> i < m
    requires forall i :: 0 <= i < |blocks| ==> c < |blocks[i]|
    ensures Part(blocks, c, on, n) == Part(blocks, c, on, m)
  {
    if n > m { PartBeyond(blocks, c, on, m, n - 1); }
  }

  // ---------------------------------------------------------------- invariant

  /** The slot that a thread has to itself, if any. */
  function Holds(w: Where): int {
    match w
    case Slot(i) => i
    case Entering(i) => i
    case Leaving(i, d) => i
    case _ => -1
  }

  ghost predicate HeldOk(s: State, t: nat)
    requires t in s.at
  {
    var i := Holds(s.at[t]);
    i >= 0 ==> i < |s.flags| && s.flags[i].used
  }

  /** No slot has two owners. */
  ghost predicate OneOwner(s: State, t: nat, u: nat)
    requires t in s.at && u in s.at
  {
    t != u && Holds(s.at[t]) >= 0 ==> Holds(s.at[t]) != Holds(s.at[u])
  }

  /** A free static slot is clear. */
  ghost predicate ClearOk(s: State, i: nat)
    requires i < |s.flags| == |s.blocks|
  {
    s.flags[i].isStatic && !s.flags[i].used ==> forall c :: 0 <= c < |s.blocks[i]| ==> s.blocks[i][c] == 0
  }

  ghost predicate StateOk(s: State) {
    && Shaped(s)
    && (forall t {:trigger HeldOk(s, t)} :: t in s.at ==> HeldOk(s, t))
    && (forall t, u {:trigger OneOwner(s, t, u)} :: t in s.at && u in s.at ==> OneOwner(s, t, u))
    && (forall i {:trigger ClearOk(s, i)} :: 0 <= i < |s.flags| ==> ClearOk(s, i))
  }

  ghost function Used(s: State): set<nat> {
    set i | 0 <= i < |s.flags| && s.flags[i].used
  }

  ghost predicate InWindow(s: State, i: nat) {
    exists t :: t in s.at && Busy(s.at[t]) && Holds(s.at[t]) == i
  }

  /** The slots of threads that are in the middle of starting or finishing. */
  ghost function Doubled(s: State): set<nat> {
    set i | 0 <= i < |s.flags| && InWindow(s, i)
  }

  /** All that counter c holds, before it is cut to 64 bits. */
  ghost function Whole(s: State, c: nat): int
    requires Shaped(s) && c < |s.dead|
  {
    Part(s.blocks, c, Used(s), |s.blocks|) + s.dead[c] + s.shared[c]
  }

  /** What a reader of the total of counter c gets. */
  ghost function Total(s: State, c: nat): nat
    requires Shaped(s) && c < |s.dead|
  {
    Whole(s, c) % M
  }

  /** What counter c holds in slots that are counted twice, or that are counted but not yet cleared. */
  ghost function Extra(s: State, c: nat): int
    requires Shaped(s) && c < |s.dead|
  {
    Part(s.blocks, c, Doubled(s), |s.blocks|)
  }

  function Change(e: Event, c: nat): nat {
    if e.Add? && e.c == c then e.v else 0
  }

  ghost predicate Same64(a: int, b: int) {
    a % M == b % M
  }

  lemma {:induction false} Same64Add(a: int, b: int, d: int)
    requires Same64(a, b)
    ensures Same64(a + d, b + d) && Same64(a % M + d, a + d)
  {
    var x, y := a / M, b / M;
    var r := a % M;
    assert a + d == M * x + (r + d) && b + d == M * y + (r + d);
    ModShift(M, r + d, x);
    ModShift(M, r + d, y);
  }

  // ---------------------------------------------------------------- every step keeps the invariant

  lemma {:induction false} OkAdd(s: State, e: Event)
    requires StateOk(s) && e.Add? && Allowed(s, e)
    ensures StateOk(Apply(s, e))
  {
    var s' := Apply(s, e);
    forall t | t in s'.at ensures HeldOk(s', t) { assert HeldOk(s, t); }
    forall t, u | t in s'.at && u in s'.at ensures OneOwner(s', t, u) { assert OneOwner(s, t, u); }
    if e.t in s.at { assert HeldOk(s, e.t); }
    forall i | 0 <= i < |s'.flags| ensures ClearOk(s', i) { assert ClearOk(s, i); }
  }

  /** A thread that takes over a free slot is its one owner. */
  lemma {:induction false} OkInit(s: State, e: Event)
    requires StateOk(s) && (e.InitThread? || e.InitDynamic?) && Allowed(s, e)
    ensures StateOk(Apply(s, e))
  {
    var s' := Apply(s, e);
    forall t | t in s'.at ensures HeldOk(s', t) { if t in s.at { assert HeldOk(s, t); } }
    forall t, u | t in s'.at && u in s'.at ensures OneOwner(s', t, u) {
      if t in s.at { assert HeldOk(s, t); }
      if u in s.at { assert HeldOk(s, u); }
      if t in s.at && u in s.at { assert OneOwner(s, t, u); }
    }
    forall i | 0 <= i < |s'.flags| ensures ClearOk(s', i) { assert ClearOk(s, i); }
  }

  lemma {:induction false} OkFini(s: State, e: Event)
    requires StateOk(s) && (e.FiniThread? || e.FiniDynamic?) && Allowed(s, e)
    ensures StateOk(Apply(s, e))
  {
    var s' := Apply(s, e);
    forall t | t in s'.at ensures HeldOk(s', t) { if t in s.at { assert HeldOk(s, t); } }
    forall t, u | t in s'.at && u in s'.at ensures OneOwner(s', t, u) {
      if t in s.at && u in s.at { assert OneOwner(s, t, u); }
    }
    forall i | 0 <= i < |s'.flags| ensures ClearOk(s', i) { assert ClearOk(s, i); }
  }

  lemma {:induction false} OkFinish(s: State, e: Event)
    requires StateOk(s) && e.Finish? && Allowed(s, e)
    ensures StateOk(Apply(s, e))
  {
    var s' := Apply(s, e);
    assert HeldOk(s, e.t);
    forall t | t in s'.at ensures HeldOk(s', t) { assert HeldOk(s, t); assert OneOwner(s, t, e.t); }
    forall t, u | t in s'.at && u in s'.at ensures OneOwner(s', t, u) { assert OneOwner(s, t, u); }
    forall i | 0 <= i < |s'.flags| ensures ClearOk(s', i) { assert ClearOk(s, i); }
  }

  lemma {:induction false} OkPrepare(s: State, e: Event)
    requires StateOk(s) && (e.Reuse? || e.Grow?) && Allowed(s, e)
    ensures StateOk(Apply(s, e))
  {
    var s' := Apply(s, e);
    forall t | t in s'.at ensures HeldOk(s', t) { assert HeldOk(s, t); }
    forall t, u | t in s'.at && u in s'.at ensures OneOwner(s', t, u) { assert OneOwner(s, t, u); }
    forall i | 0 <= i < |s'.flags| ensures ClearOk(s', i) { if i < |s.flags| { assert ClearOk(s, i); } }
  }

  lemma {:induction false} OkKept(s: State, e: Event)
    requires StateOk(s) && Allowed(s, e)
    ensures StateOk(Apply(s, e))
  {
    match e {
      case Add(_, _, _) => OkAdd(s, e);
      case InitThread(_, _) => OkInit(s, e);
      case InitDynamic(_) => OkInit(s, e);
      case FiniThread(_, _) => OkFini(s, e);
      case FiniDynamic(_, _) => OkFini(s, e);
      case Finish(_) => OkFinish(s, e);
      case _ => OkPrepare(s, e);
    }
  }

  // ---------------------------------------------------------------- every step keeps the sum

  /** Counter c with nothing counted twice. */
  ghost function Real(s: State, c: nat): int
    requires Shaped(s) && c < |s.dead|
  {
    Whole(s, c) - Extra(s, c)
  }

  ghost predicate Conserves(s: State, e: Event, c: nat)
    requires Shaped(s) && Allowed(s, e) && c < |s.dead|
  {
    var s' := Apply(s, e);
    Shaped(s') && |s'.dead| == |s.dead| && Same64(Real(s', c), Real(s, c) + Change(e, c))
  }

  lemma {:induction false} NotDoubled(s: State, t: nat)
    requires StateOk(s) && !Busy(s.At(t)) && Holds(s.At(t)) >= 0
    ensures var i := Holds(s.At(t)); i in Used(s) && i !in Doubled(s)
  {
    var i := Holds(s.At(t));
    assert HeldOk(s, t);
    forall u | u in s.at && Busy(s.at[u]) ensures Holds(s.at[u]) != i { assert OneOwner(s, t, u); }
  }

  lemma {:induction false} AddConserves(s: State, e: Event, c: nat)
    requires StateOk(s) && e.Add? && Allowed(s, e) && c < |s.dead|
    ensures Conserves(s, e, c)
  {
    OkAdd(s, e);
    var s', w := Apply(s, e), s.At(e.t);
    assert Used(s') == Used(s) && Doubled(s') == Doubled(s);
    if e.c < |s.dead| {
      if w.Slot? {
        NotDoubled(s, e.t);
        var b := AddTo(s.blocks[w.i], e.c, e.v);
        PartUpdate(s.blocks, c, Used(s), |s.blocks|, w.i, b);
        PartUpdate(s.blocks, c, Doubled(s), |s.blocks|, w.i, b);
        if c == e.c { Same64Add(s.blocks[w.i][c] + e.v, s.blocks[w.i][c] + e.v, Real(s, c) - s.blocks[w.i][c]); }
      } else if w.Dead? {
        if c == e.c { Same64Add(s.dead[c] + e.v, s.dead[c] + e.v, Real(s, c) - s.dead[c]); }
      } else {
        if c == e.c { Same64Add(s.shared[c] + e.v, s.shared[c] + e.v, Real(s, c) - s.shared[c]); }
      }
    }
  }

  lemma {:induction false} InitThreadConserves(s: State, e: Event, c: nat)
    requires StateOk(s) && e.InitThread? && Allowed(s, e) && c < |s.dead|
    ensures Conserves(s, e, c)
  {
    OkInit(s, e);
    var s' := Apply(s, e);
    assert ClearOk(s, e.slot);
    assert Used(s') == Used(s) + {e.slot};
    SameWindows(s, s', e.t);
    PartWith(s.blocks, c, Used(s), |s.blocks|, e.slot);
  }

  /** Windows are as they were when the one thread that moved is in none. */
  lemma {:induction false} SameWindows(s: State, s': State, t: nat)
    requires |s'.flags| == |s.flags| && !Busy(s.At(t)) && !Busy(s'.At(t))
    requires forall u :: u != t ==> s'.At(u) == s.At(u)
    ensures Doubled(s') == Doubled(s)
  {
    forall i | 0 <= i < |s.flags| ensures InWindow(s', i) <==> InWindow(s, i) {
      if InWindow(s, i) {
        var u :| u in s.at && Busy(s.at[u]) && Holds(s.at[u]) == i;
        assert s'.At(u) == s.At(u);
      }
      if InWindow(s', i) {
        var u :| u in s'.at && Busy(s'.at[u]) && Holds(s'.at[u]) == i;
        assert s'.At(u) == s.At(u);
      }
    }
  }

  /** A thread that goes into a window brings its slot with it. */
  lemma {:induction false} OneMoreWindow(s: State, s': State, t: nat)
    requires |s'.flags| == |s.flags| && !Busy(s.At(t)) && Busy(s'.At(t))
    requires forall u :: u != t ==> s'.At(u) == s.At(u)
    requires Holds(s'.At(t)) < |s.flags|
    ensures Doubled(s') == Doubled(s) + {Holds(s'.At(t))}
  {
    forall i | 0 <= i < |s.flags| ensures InWindow(s', i) <==> InWindow(s, i) || i == Holds(s'.At(t)) {
      if InWindow(s, i) {
        var u :| u in s.at && Busy(s.at[u]) && Holds(s.at[u]) == i;
        assert s'.At(u) == s.At(u);
      }
      if InWindow(s', i) {
        var u :| u in s'.at && Busy(s'.at[u]) && Holds(s'.at[u]) == i;
        assert u != t ==> s'.At(u) == s.At(u);
      }
    }
  }

  lemma {:induction false} InitDynamicConserves(s: State, e: Event, c: nat)
    requires StateOk(s) && e.InitDynamic? && Allowed(s, e) && c < |s.dead|
    ensures Conserves(s, e, c)
  {
    OkInit(s, e);
    var s', i := Apply(s, e), FirstDynamic(s.flags);
    assert Used(s') == Used(s) + {i};
    OneMoreWindow(s, s', e.t);
    forall u | u in s.at && Holds(s.at[u]) >= 0 ensures Holds(s.at[u]) != i { assert HeldOk(s, u); }
    assert i !in Doubled(s);
    PartWith(s.blocks, c, Used(s), |s.blocks|, i);
    PartWith(s.blocks, c, Doubled(s), |s.blocks|, i);
  }

  lemma {:induction false} FiniConserves(s: State, e: Event, c: nat)
    requires StateOk(s) && (e.FiniThread? || e.FiniDynamic?) && Allowed(s, e) && c < |s.dead|
    ensures Conserves(s, e, c)
  {
    OkFini(s, e);
    var s' := Apply(s, e);
    NotDoubled(s, e.t);
    OneMoreWindow(s, s', e.t);
    assert Used(s') == Used(s);
    PartWith(s.blocks, c, Doubled(s), |s.blocks|, e.slot);
    Same64Add(s.dead[c] + s.blocks[e.slot][c], s.dead[c] + s.blocks[e.slot][c], Real(s, c) - s.dead[c] - s.blocks[e.slot][c]);
  }

  lemma {:induction false} FinishConserves(s: State, e: Event, c: nat)
    requires StateOk(s) && e.Finish? && Allowed(s, e) && c < |s.dead|
    ensures Conserves(s, e, c)
  {
    OkFinish(s, e);
    var s', w := Apply(s, e), s.At(e.t);
    var i := w.i;
    assert HeldOk(s, e.t);
    OneMoreWindow(s', s, e.t);
    forall u | u in s'.at && Busy(s'.at[u]) ensures Holds(s'.at[u]) != i { assert OneOwner(s, e.t, u); }
    assert i !in Doubled(s') && Doubled(s) == Doubled(s') + {i};
    PartWith(s.blocks, c, Doubled(s'), |s.blocks|, i);
    PartUpdate(s.blocks, c, Doubled(s'), |s.blocks|, i, Zeros(|s.dead|));
    if w.Entering? {
      assert Used(s') == Used(s);
      PartUpdate(s.blocks, c, Used(s), |s.blocks|, i, Zeros(|s.dead|));
    } else {
      assert Used(s) == Used(s') + {i};
      PartWith(s.blocks, c, Used(s'), |s.blocks|, i);
      PartUpdate(s.blocks, c, Used(s'), |s.blocks|, i, Zeros(|s.dead|));
    }
  }

  lemma {:induction false} PrepareConserves(s: State, e: Event, c: nat)
    requires StateOk(s) && (e.Reuse? || e.Grow?) && Allowed(s, e) && c < |s.dead|
    ensures Conserves(s, e, c)
  {
    OkPrepare(s, e);
    var s' := Apply(s, e);
    forall i | |s.flags| <= i < |s'.flags| ensures !InWindow(s', i) {
      forall u | u in s'.at ensures Holds(s'.at[u]) != i { assert HeldOk(s, u); }
    }
    forall i ensures InWindow(s', i) <==> InWindow(s, i) {
      if InWindow(s, i) { var u :| u in s.at && Busy(s.at[u]) && Holds(s.at[u]) == i; }
    }
    assert Doubled(s') == Doubled(s);
    assert Used(s') == Used(s);
    if e.Grow? {
      PartGrown(s.blocks, e.added, c, Used(s), |s.blocks|);
      PartGrown(s.blocks, e.added, c, Doubled(s), |s.blocks|);
      PartBeyond(s'.blocks, c, Used(s), |s.blocks|, |s'.blocks|);
      PartBeyond(s'.blocks, c, Doubled(s), |s.blocks|, |s'.blocks|);
    }
  }

  lemma {:induction false} StepConserves(s: State, e: Event, c: nat)
    requires StateOk(s) && Allowed(s, e) && c < |s.dead|
    ensures Conserves(s, e, c)
  {
    match e {
      case Add(_, _, _) => AddConserves(s, e, c);
      case InitThread(_, _) => InitThreadConserves(s, e, c);
      case InitDynamic(_) => InitDynamicConserves(s, e, c);
      case FiniThread(_, _) => FiniConserves(s, e, c);
      case FiniDynamic(_, _) => FiniConserves(s, e, c);
      case Finish(_) => FinishConserves(s, e, c);
      case _ => PrepareConserves(s, e, c);
    }
  }

  // ---------------------------------------------------------------- whole runs

  /** After initialization: so many static slots, the first of them the main thread's, all counters 0. */
  function Initial(main: nat, threads: nat, counters: nat): State
    requires threads > 0
  {
    State(seq(threads, _ => STATIC)[0 := Flags(false, true, true)], seq(threads, _ => Zeros(counters + 1)),
          Zeros(counters + 1), Zeros(counters + 1), map[main := Slot(0)])
  }

  lemma {:induction false} PartZero(blocks: seq<Block>, c: nat, on: set<nat>, n: nat)
    requires n <= |blocks|
    requires forall i :: 0 <= i < |blocks| ==> c < |blocks[i]| && blocks[i][c] == 0
    ensures Part(blocks, c, on, n) == 0
  {
    if n > 0 { PartZero(blocks, c, on, n - 1); }
  }

  lemma {:induction false} InitialOk(main: nat, threads: nat, counters: nat, c: nat)
    requires threads > 0 && c <= counters
    ensures var s := Initial(main, threads, counters); StateOk(s) && c < |s.dead| && Real(s, c) == 0
  {
    var s := Initial(main, threads, counters);
    PartZero(s.blocks, c, Used(s), threads);
    PartZero(s.blocks, c, Doubled(s), threads);
  }

  /** A sequence of steps, each allowed where it is taken, leads from one state to another. */
  ghost predicate Leads(s: State, es: seq<Event>, s': State)
    decreases |es|
  {
    if es == [] then s' == s else
    Shaped(s) ==> Allowed(s, es[0]) && Leads(Apply(s, es[0]), es[1..], s')
  }

  /** All that a sequence of steps adds to counter c. */
  function Net(es: seq<Event>, c: nat): nat {
    if es == [] then 0 else Change(es[0], c) + Net(es[1..], c)
  }

  lemma {:induction false} RunConserves(s: State, es: seq<Event>, s': State, c: nat)
    requires StateOk(s) && c < |s.dead| && Leads(s, es, s')
    ensures StateOk(s') && |s'.dead| == |s.dead| && Same64(Real(s', c), Real(s, c) + Net(es, c))
    decreases |es|
  {
    if es != [] {
      var s1 := Apply(s, es[0]);
      OkKept(s, es[0]);
      StepConserves(s, es[0], c);
      RunConserves(s1, es[1..], s', c);
      Same64Add(Real(s1, c), Real(s, c) + Change(es[0], c), Net(es[1..], c));
    }
  }

  lemma {:induction false} OffBy(whole: int, extra: int, net: int)
    requires Same64(whole - extra, net)
    ensures Same64(whole, net + extra)
    ensures whole % M == net % M <==> extra % M == 0
  {
    Same64Add(whole - extra, net, extra);
    var x, y := net / M, extra / M;
    ModShift(M, net % M + extra % M, x + y);
    assert net + extra == net % M + extra % M + M * (x + y);
  }

  /**
   * At every moment of every interleaving the total of a counter is the net sum of all
   * that was added to it, modulo 2^64, plus what it holds in the slots of threads that
   * are in the middle of starting or finishing.  So the total is right if and only if
   * that surplus is 0 modulo 2^64.
   */
  lemma {:induction false} TotalIsNet(main: nat, threads: nat, counters: nat, es: seq<Event>, s: State, c: nat)
    requires threads > 0 && c <= counters && Leads(Initial(main, threads, counters), es, s)
    ensures StateOk(s) && c < |s.dead|
    ensures Total(s, c) == (Net(es, c) + Extra(s, c)) % M
    ensures Total(s, c) == Net(es, c) % M <==> Extra(s, c) % M == 0
  {
    InitialOk(main, threads, counters, c);
    RunConserves(Initial(main, threads, counters), es, s, c);
    OffBy(Whole(s, c), Extra(s, c), Net(es, c));
  }

  /** While no thread is in the middle of starting or finishing, the total is exact. */
  lemma {:induction false} QuietTotalIsNet(main: nat, threads: nat, counters: nat, es: seq<Event>, s: State, c: nat)
    requires threads > 0 && c <= counters && Leads(Initial(main, threads, counters), es, s)
    requires forall t :: t in s.at ==> !Busy(s.at[t])
    ensures StateOk(s) && c < |s.dead| && Total(s, c) == Net(es, c) % M
  {
    TotalIsNet(main, threads, counters, es, s, c);
    assert Doubled(s) == {};
    PartNone(s.blocks, c, |s.blocks|);
  }

  lemma {:induction false} PartNone(blocks: seq<Block>, c: nat, n: nat)
    requires n <= |blocks|
    requires forall i :: 0 <= i < |blocks| ==> c < |blocks[i]|
    ensures Part(blocks, c, {}, n) == 0
  {
    if n > 0 { PartNone(blocks, c, n - 1); }
  }

  /** In no reachable state do two threads have the same slot. */
  lemma {:induction false} SlotsHaveOneOwner(main: nat, threads: nat, counters: nat, es: seq<Event>, s: State,
          t: nat, u: nat)
    requires threads > 0 && Leads(Initial(main, threads, counters), es, s)
    requires t in s.at && u in s.at && t != u && Holds(s.at[t]) >= 0
    ensures Holds(s.at[t]) != Holds(s.at[u])
  {
    TotalIsNet(main, threads, counters, es, s, 0);
    assert OneOwner(s, t, u);
  }

  /** A reader sees a finishing thread's counts twice: one thread adds 1 and finishes, and the total is 2. */
  lemma {:induction false} FinishingThreadCountsTwice()
    ensures var s0 := Initial(0, 1, 1);
            var s1 := Apply(s0, Add(0, 1, 1));
            Shaped(s1) && Allowed(s1, FiniThread(0, 0)) &&
            var s2 := Apply(s1, FiniThread(0, 0));
            && Leads(s0, [Add(0, 1, 1), FiniThread(0, 0)], s2)
            && Shaped(s2) && |s2.dead| == 2 && Net([Add(0, 1, 1), FiniThread(0, 0)], 1) == 1 && Total(s2, 1) == 2
  {
    var s0 := Initial(0, 1, 1);
    var s1 := Apply(s0, Add(0, 1, 1));
    var s2 := Apply(s1, FiniThread(0, 0));
    var es := [Add(0, 1, 1), FiniThread(0, 0)];
    assert es[1..] == [FiniThread(0, 0)] && es[1..][1..] == [];
    assert Leads(s1, es[1..], s2);
    assert 0 in Used(s2);
    assert Part(s2.blocks, 1, Used(s2), 0) == 0;
    assert Part(s2.blocks, 1, Used(s2), 1) == 1;
  }

  /** A reader sees what an earlier use left in the slot of a starting thread: nothing was added, and the total is 7. */
  lemma {:induction false} StartingThreadCountsLeftovers()
    ensures var s0 := Initial(0, 1, 1);
            var s1 := Apply(s0, Grow([[0, 7]]));
            Shaped(s1) && Allowed(s1, InitDynamic(1)) &&
            var s2 := Apply(s1, InitDynamic(1));
            && Leads(s0, [Grow([[0, 7]]), InitDynamic(1)], s2)
            && Shaped(s2) && |s2.dead| == 2 && Net([Grow([[0, 7]]), InitDynamic(1)], 1) == 0 && Total(s2, 1) == 7
  {
    var s0 := Initial(0, 1, 1);
    var s1 := Apply(s0, Grow([[0, 7]]));
    assert FirstDynamic(s1.flags[1..]) == 0 && FirstDynamic(s1.flags) == 1;
    var s2 := Apply(s1, InitDynamic(1));
    var es := [Grow([[0, 7]]), InitDynamic(1)];
    assert es[1..] == [InitDynamic(1)] && es[1..][1..] == [];
    assert Leads(s1, es[1..], s2);
    assert Zeros(2) == [0, 0];
    assert 0 in Used(s2) && 1 in Used(s2) && s2.blocks == [[0, 0], [0, 7]];
    assert Part(s2.blocks, 1, Used(s2), 0) == 0 && Part(s2.blocks, 1, Used(s2), 1) == 0;
    assert Part(s2.blocks, 1, Used(s2), 2) == 7;
  }
}
