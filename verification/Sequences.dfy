// Sequences: without repetition, with an element put in or taken out, and visited in turn.
module Sequences {

  ghost predicate Distinct(s: seq<nat>) {
    forall i, j :: 0 <= i < j < |s| ==> s[i] != s[j]
  }

  ghost function Elements(s: seq<nat>): set<nat> {
    set x | x in s
  }

  lemma {:induction false} DistinctSize(s: seq<nat>)
    requires Distinct(s)
    ensures |Elements(s)| == |s|
  {
    if s != [] {
      DistinctSize(s[1..]);
      assert s == [s[0]] + s[1..];
      assert s[0] !in Elements(s[1..]);
      assert Elements(s) == Elements(s[1..]) + {s[0]};
    }
  }

  /** s with x put in at place i. */
  function With<E>(s: seq<E>, i: nat, x: E): seq<E>
    requires i <= |s|
  {
    s[..i] + [x] + s[i..]
  }

  /** s with the element at place i taken out. */
  function Without<E>(s: seq<E>, i: nat): seq<E>
    requires i < |s|
  {
    s[..i] + s[i + 1..]
  }

  lemma {:induction false} Regroup<E>(a: seq<E>, b: seq<E>, c: seq<E>)
    ensures a + b + c == a + (b + c)
  {
  }

  // ---------------------------------------------------------------- visiting

  /** What was visited, and whether no visit was refused. */
  datatype Tour<E> = Tour(seen: seq<E>, ok: bool)

  /**
   * Visiting elements in turn until a visit is refused; whether it is may depend on all
   * that has been visited before.
   */
  function Visit<E(!new)>(accepts: (seq<E>, E) -> bool, seen: seq<E>, todo: seq<E>): Tour<E>
    decreases |todo|
  {
    if todo == [] then Tour(seen, true)
    else if !accepts(seen, todo[0]) then Tour(seen + [todo[0]], false)
    else Visit(accepts, seen + [todo[0]], todo[1..])
  }

  /** All are visited up to the first refused visit, which is the last, and in their order. */
  lemma {:induction false} VisitIs<E(!new)>(accepts: (seq<E>, E) -> bool, seen: seq<E>, todo: seq<E>) returns (n: nat)
    ensures n <= |todo| && Visit(accepts, seen, todo).seen == seen + todo[..n]
    ensures forall i :: 0 <= i < n - 1 ==> accepts(seen + todo[..i], todo[i])
    ensures if Visit(accepts, seen, todo).ok then n == |todo| && (n > 0 ==> accepts(seen + todo[..n - 1], todo[n - 1]))
            else n > 0 && !accepts(seen + todo[..n - 1], todo[n - 1])
    decreases |todo|
  {
    if todo == [] {
      n := 0;
    } else if !accepts(seen, todo[0]) {
      n := 1;
      assert seen + todo[..0] == seen;
    } else {
      var m := VisitIs(accepts, seen + [todo[0]], todo[1..]);
      n := m + 1;
      assert todo[..n] == [todo[0]] + todo[1..][..m];
      forall i | 0 < i <= m ensures seen + todo[..i] == (seen + [todo[0]]) + todo[1..][..i - 1] && todo[i] == todo[1..][i - 1] { }
      assert seen + todo[..0] == seen;
      assert seen + todo[..m] == if m == 0 then seen else (seen + [todo[0]]) + todo[1..][..m - 1];
    }
  }

  lemma {:induction false} VisitSplits<E(!new)>(accepts: (seq<E>, E) -> bool, seen: seq<E>, a: seq<E>, b: seq<E>)
    ensures var t := Visit(accepts, seen, a);
            Visit(accepts, seen, a + b) == if t.ok then Visit(accepts, t.seen, b) else t
    decreases |a|
  {
    if a == [] {
      assert a + b == b;
    } else {
      assert (a + b)[1..] == a[1..] + b;
      VisitSplits(accepts, seen + [a[0]], a[1..], b);
    }
  }
}
