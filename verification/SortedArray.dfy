// Sorted arrays: the search, keeping an array sorted in place, and the intersection of two
// sorted arrays by divide and conquer.
module SortedArray {
  import opened Sequences

  /** Whether cmp orders elements by a key: less than 0 before, 0 the same, more than 0 after. */
  ghost predicate Orders<E(!new)>(cmp: (E, E) -> int) {
    && (forall a, b {:trigger cmp(a, b)} :: (cmp(a, b) < 0 <==> cmp(b, a) > 0) && (cmp(a, b) == 0 <==> cmp(b, a) == 0))
    && (forall a, b, c {:trigger cmp(a, b), cmp(b, c)} :: cmp(a, b) <= 0 && cmp(b, c) <= 0 ==>
          cmp(a, c) <= 0 && (cmp(a, c) == 0 ==> cmp(a, b) == 0 && cmp(b, c) == 0))
  }

  ghost predicate Increasing<E(!new)>(cmp: (E, E) -> int, s: seq<E>) {
    forall i, j :: 0 <= i < j < |s| ==> cmp(s[i], s[j]) < 0
  }

  /** pos is the place of a key: the place of its match, or where it would have to go. */
  ghost predicate IsPlace<E(!new)>(cmp: (E, E) -> int, s: seq<E>, key: E, pos: nat, found: bool) {
    && pos <= |s|
    && (found ==> pos < |s| && cmp(key, s[pos]) == 0)
    && (forall i :: 0 <= i < pos ==> cmp(s[i], key) < 0)
    && (forall i :: (if found then pos + 1 else pos) <= i < |s| ==> cmp(key, s[i]) < 0)
  }

  datatype Found = At(pos: nat, found: bool) | Failed

  /** The places that a search of lim elements from pos on looks at, one after the other. */
  function Probed<E(!new)>(cmp: (E, E) -> int, s: seq<E>, key: E, pos: nat, lim: nat): seq<nat>
    requires pos + lim <= |s|
    decreases lim
  {
    if lim == 0 then [] else
    var i := pos + lim / 2;
    var c := cmp(key, s[i]);
    [i] + if c == 0 then []
          else if c > 0 then Probed(cmp, s, key, i + 1, (lim - 1) / 2)
          else Probed(cmp, s, key, pos, lim / 2)
  }

  function TwoTo(k: nat): nat { if k == 0 then 1 else 2 * TwoTo(k - 1) }

  /** Comparing a key with one of the elements that its search looks at fails. */
  ghost predicate SearchFails<E(!new)>(cmp: (E, E) -> int, fails: (E, E) -> bool, s: seq<E>, key: E) {
    exists i :: i in Probed(cmp, s, key, 0, |s|) && i < |s| && fails(key, s[i])
  }

  lemma {:induction false} ProbedStep<E(!new)>(cmp: (E, E) -> int, s: seq<E>, key: E, pos: nat, lim: nat)
    requires 0 < lim <= pos + lim <= |s|
    ensures var i := pos + lim / 2;
            var c := cmp(key, s[i]);
            Probed(cmp, s, key, pos, lim) ==
              if c == 0 then [i]
              else if c > 0 then [i] + Probed(cmp, s, key, i + 1, (lim - 1) / 2)
              else [i] + Probed(cmp, s, key, pos, lim / 2)
  {
  }

  /** At most k places among lim from pos on, the middle one first. */
  ghost predicate FewAmong(p: seq<nat>, pos: nat, lim: nat, k: nat) {
    && |p| <= k && (forall j :: 0 <= j < |p| ==> pos <= p[j] < pos + lim)
    && (lim > 0 ==> |p| > 0 && p[0] == pos + lim / 2)
  }

  lemma {:induction false} OneMoreAmong(p: seq<nat>, pos: nat, lim: nat, k: nat)
    requires 0 < lim < TwoTo(k)
    requires k > 0 ==> p == [] || FewAmong(p, pos + lim / 2 + 1, (lim - 1) / 2, k - 1) || FewAmong(p, pos, lim / 2, k - 1)
    ensures FewAmong([pos + lim / 2] + p, pos, lim, k)
  {
  }

  lemma {:induction false} Halves(lim: nat, k: nat)
    requires 0 < lim < TwoTo(k)
    ensures k > 0 && lim / 2 < TwoTo(k - 1) && (lim - 1) / 2 < TwoTo(k - 1)
    ensures lim / 2 < lim && lim / 2 + 1 + (lim - 1) / 2 == lim
  {
  }

  lemma {:induction false} NoneProbed<E(!new)>(cmp: (E, E) -> int, s: seq<E>, key: E, pos: nat, k: nat)
    requires pos <= |s|
    ensures FewAmong(Probed(cmp, s, key, pos, 0), pos, 0, k)
  {
  }

  /** A search of less than 2^k elements looks at no more than k of them, the middle one first. */
  lemma {:induction false} ProbedFew<E(!new)>(cmp: (E, E) -> int, s: seq<E>, key: E, pos: nat, lim: nat, k: nat)
    requires pos + lim <= |s| && lim < TwoTo(k)
    ensures FewAmong(Probed(cmp, s, key, pos, lim), pos, lim, k)
    decreases lim
  {
    hide Probed, FewAmong, TwoTo;
    if lim == 0 {
      NoneProbed(cmp, s, key, pos, k);
    } else {
      var i := pos + lim / 2;
      ProbedStep(cmp, s, key, pos, lim);
      Halves(lim, k);
      if cmp(key, s[i]) == 0 {
        OneMoreAmong([], pos, lim, k);
        assert [i] + [] == [i];
      } else if cmp(key, s[i]) > 0 {
        ProbedFew(cmp, s, key, i + 1, (lim - 1) / 2, k - 1);
        OneMoreAmong(Probed(cmp, s, key, i + 1, (lim - 1) / 2), pos, lim, k);
      } else {
        ProbedFew(cmp, s, key, pos, lim / 2, k - 1);
        OneMoreAmong(Probed(cmp, s, key, pos, lim / 2), pos, lim, k);
      }
    }
  }

  lemma {:induction false} Below<E(!new)>(cmp: (E, E) -> int, s: seq<E>, key: E, i: nat)
    requires Orders(cmp) && Increasing(cmp, s) && i < |s| && cmp(key, s[i]) > 0
    ensures forall j :: 0 <= j <= i ==> cmp(s[j], key) < 0
  {
    forall j | 0 <= j <= i ensures cmp(s[j], key) < 0 { assert j < i ==> cmp(s[j], s[i]) < 0; assert cmp(s[i], key) < 0; }
  }

  lemma {:induction false} Above<E(!new)>(cmp: (E, E) -> int, s: seq<E>, key: E, i: nat)
    requires Orders(cmp) && Increasing(cmp, s) && i < |s| && cmp(key, s[i]) < 0
    ensures forall j :: i <= j < |s| ==> cmp(key, s[j]) < 0
  {
    forall j | i <= j < |s| ensures cmp(key, s[j]) < 0 { assert i < j ==> cmp(s[i], s[j]) < 0; }
  }

  lemma {:induction false} MatchIsPlace<E(!new)>(cmp: (E, E) -> int, s: seq<E>, key: E, i: nat)
    requires Orders(cmp) && Increasing(cmp, s) && i < |s| && cmp(key, s[i]) == 0
    ensures IsPlace(cmp, s, key, i, true)
  {
    forall j | 0 <= j < i ensures cmp(s[j], key) < 0 { assert cmp(s[j], s[i]) < 0 && cmp(s[i], key) == 0; }
    forall j | i < j < |s| ensures cmp(key, s[j]) < 0 { assert cmp(s[i], s[j]) < 0; }
  }

  /** These are the places that a search has looked at, and no comparison failed there. */
  ghost predicate Passed<E(!new)>(fails: (E, E) -> bool, s: seq<E>, key: E, seen: seq<nat>) {
    forall i :: i in seen && i < |s| ==> !fails(key, s[i])
  }

  lemma {:induction false} FailsThere<E(!new)>(cmp: (E, E) -> int, fails: (E, E) -> bool, s: seq<E>, key: E,
          seen: seq<nat>, rest: seq<nat>)
    requires Probed(cmp, s, key, 0, |s|) == seen + rest && Passed(fails, s, key, seen)
    ensures rest == [] ==> !SearchFails(cmp, fails, s, key)
    ensures rest != [] && rest[0] < |s| && fails(key, s[rest[0]]) ==> SearchFails(cmp, fails, s, key)
  {
    if rest != [] { assert rest[0] in Probed(cmp, s, key, 0, |s|); }
  }

  /**
   * Search a sorted array for a key by halving what is left of it.  Comparing may fail
   * for some pairs, and then the search does, if it comes to one.
   */
  method FindKey<E(!new)>(cmp: (E, E) -> int, fails: (E, E) -> bool, s: seq<E>, key: E) returns (r: Found)
    requires Orders(cmp) && Increasing(cmp, s)
    ensures r.At? ==> IsPlace(cmp, s, key, r.pos, r.found)
    ensures r.Failed? <==> SearchFails(cmp, fails, s, key)
    ensures r.Failed? ==> exists i :: 0 <= i < |s| && fails(key, s[i])
  {
    hide Orders, Increasing, Probed, SearchFails;
    var pos: nat, lim: nat := 0, |s|;
    ghost var seen: seq<nat> := [];
    while lim > 0
      invariant pos + lim <= |s|
      invariant Probed(cmp, s, key, 0, |s|) == seen + Probed(cmp, s, key, pos, lim) && Passed(fails, s, key, seen)
      invariant forall i :: 0 <= i < pos ==> cmp(s[i], key) < 0
      invariant forall i :: pos + lim <= i < |s| ==> cmp(key, s[i]) < 0
    {
      var i := pos + lim / 2;
      var c := cmp(key, s[i]);
      ProbedStep(cmp, s, key, pos, lim);
      FailsThere(cmp, fails, s, key, seen, Probed(cmp, s, key, pos, lim));
      if fails(key, s[i]) {
        return Failed;
      }
      seen := seen + [i];
      if c == 0 {
        MatchIsPlace(cmp, s, key, i);
        FailsThere(cmp, fails, s, key, seen, []);
        return At(i, true);
      }
      if c > 0 {
        Below(cmp, s, key, i);
        pos := i + 1;
        lim := lim - 1;
      } else {
        Above(cmp, s, key, i);
      }
      lim := lim / 2;
    }
    NoneLeft(cmp, s, key, pos);
    FailsThere(cmp, fails, s, key, seen, []);
    return At(pos, false);
  }

  lemma {:induction false} NoneLeft<E(!new)>(cmp: (E, E) -> int, s: seq<E>, key: E, pos: nat)
    requires pos <= |s|
    ensures Probed(cmp, s, key, pos, 0) == []
  {
  }

  // ---------------------------------------------------------------- intersection

  predicate Occurs<E(!new)>(cmp: (E, E) -> int, x: E, s: seq<E>) {
    exists i :: 0 <= i < |s| && cmp(x, s[i]) == 0
  }

  /** The elements of one array that occur in another, by looking for each in turn. */
  function Common<E(!new)>(cmp: (E, E) -> int, left: seq<E>, right: seq<E>): seq<E> {
    if left == [] then [] else (if Occurs(cmp, left[0], right) then [left[0]] else []) + Common(cmp, left[1..], right)
  }

  lemma {:induction false} CommonFirst<E(!new)>(cmp: (E, E) -> int, s: seq<E>, right: seq<E>)
    requires s != []
    ensures Common(cmp, s, right) == (if Occurs(cmp, s[0], right) then [s[0]] else []) + Common(cmp, s[1..], right)
  {
  }

  lemma {:induction false} CommonSplits<E(!new)>(cmp: (E, E) -> int, a: seq<E>, b: seq<E>, right: seq<E>)
    ensures Common(cmp, a + b, right) == Common(cmp, a, right) + Common(cmp, b, right)
  {
    if a == [] {
      assert a + b == b;
    } else {
      hide Occurs, Common;
      assert (a + b)[0] == a[0] && (a + b)[1..] == a[1..] + b;
      CommonFirst(cmp, a, right);
      CommonFirst(cmp, a + b, right);
      CommonSplits(cmp, a[1..], b, right);
      Regroup(if Occurs(cmp, a[0], right) then [a[0]] else [], Common(cmp, a[1..], right), Common(cmp, b, right));
    }
  }

  lemma {:induction false} CommonSame<E(!new)>(cmp: (E, E) -> int, left: seq<E>, right: seq<E>, right': seq<E>)
    requires forall i :: 0 <= i < |left| ==> (Occurs(cmp, left[i], right) <==> Occurs(cmp, left[i], right'))
    ensures Common(cmp, left, right) == Common(cmp, left, right')
  {
    if left != [] {
      assert forall i :: 0 <= i < |left[1..]| ==> left[1..][i] == left[i + 1];
      CommonSame(cmp, left[1..], right, right');
    }
  }

  lemma {:induction false} CommonNone<E(!new)>(cmp: (E, E) -> int, left: seq<E>)
    ensures Common(cmp, left, []) == []
  {
    if left != [] { CommonNone(cmp, left[1..]); }
  }

  lemma {:induction false} OccursInSlice<E(!new)>(cmp: (E, E) -> int, x: E, s: seq<E>, a: nat, b: nat, i: nat)
    requires a <= b <= |s|
    ensures Occurs(cmp, x, s[a..b]) ==> Occurs(cmp, x, s)
    ensures a <= i < b && cmp(x, s[i]) == 0 ==> Occurs(cmp, x, s[a..b])
  {
    var t := s[a..b];
    if Occurs(cmp, x, t) {
      var k :| 0 <= k < |t| && cmp(x, t[k]) == 0;
      assert t[k] == s[a + k];
    }
    if a <= i < b && cmp(x, s[i]) == 0 { assert t[i - a] == s[i]; }
  }

  /** An element before the key occurs only before the key's place. */
  lemma {:induction false} OccursBefore<E(!new)>(cmp: (E, E) -> int, right: seq<E>, key: E, pos: nat, found: bool, x: E)
    requires Orders(cmp) && Increasing(cmp, right) && IsPlace(cmp, right, key, pos, found) && cmp(x, key) < 0
    ensures Occurs(cmp, x, right) <==> Occurs(cmp, x, right[..pos])
  {
    OccursInSlice(cmp, x, right, 0, pos, 0);
    assert right[0..pos] == right[..pos];
    if Occurs(cmp, x, right) {
      var i :| 0 <= i < |right| && cmp(x, right[i]) == 0;
      assert cmp(right[i], x) == 0 && cmp(x, key) < 0;
      assert cmp(right[i], key) < 0;
      OccursInSlice(cmp, x, right, 0, pos, i);
    }
  }

  /** An element after the key occurs only behind the key's place. */
  lemma {:induction false} OccursBehind<E(!new)>(cmp: (E, E) -> int, right: seq<E>, key: E, pos: nat, found: bool, x: E)
    requires Orders(cmp) && Increasing(cmp, right) && IsPlace(cmp, right, key, pos, found) && cmp(key, x) < 0
    ensures Occurs(cmp, x, right) <==> Occurs(cmp, x, right[if found then pos + 1 else pos..])
  {
    var p := if found then pos + 1 else pos;
    OccursInSlice(cmp, x, right, p, |right|, 0);
    assert right[p..|right|] == right[p..];
    if Occurs(cmp, x, right) {
      var i :| 0 <= i < |right| && cmp(x, right[i]) == 0;
      assert cmp(key, x) < 0 && cmp(x, right[i]) == 0;
      assert cmp(key, right[i]) < 0;
      hide Orders, Increasing, Occurs;
      OccursInSlice(cmp, x, right, p, |right|, i);
    }
  }

  lemma {:induction false} OccursAt<E(!new)>(cmp: (E, E) -> int, right: seq<E>, key: E, pos: nat, found: bool)
    requires Orders(cmp) && Increasing(cmp, right) && IsPlace(cmp, right, key, pos, found)
    ensures Occurs(cmp, key, right) <==> found
  {
    forall i | 0 <= i < |right| && !found ensures cmp(key, right[i]) != 0 { assert i < pos ==> cmp(right[i], key) < 0; }
  }

  /** The intersection falls into what is before the median, the median, and what is behind it. */
  lemma {:induction false} CommonAround<E(!new)>(cmp: (E, E) -> int, left: seq<E>, right: seq<E>, m: nat, pos: nat,
          found: bool)
    requires Orders(cmp) && Increasing(cmp, left) && Increasing(cmp, right) && m < |left|
    requires IsPlace(cmp, right, left[m], pos, found)
    ensures var p := if found then pos + 1 else pos;
            Common(cmp, left, right) ==
            Common(cmp, left[..m], right[..pos]) + ((if found then [left[m]] else []) + Common(cmp, left[m + 1..], right[p..]))
  {
    var a, key, b := left[..m], left[m], left[m + 1..];
    assert left == a + ([key] + b);
    CommonSplits(cmp, a, [key] + b, right);
    CommonSplits(cmp, [key], b, right);
    OccursAt(cmp, right, key, pos, found);
    assert [key][1..] == [];
    forall i | 0 <= i < |a| ensures Occurs(cmp, a[i], right) <==> Occurs(cmp, a[i], right[..pos]) {
      assert cmp(left[i], left[m]) < 0;
      OccursBefore(cmp, right, key, pos, found, a[i]);
    }
    CommonSame(cmp, a, right, right[..pos]);
    var p := if found then pos + 1 else pos;
    forall i | 0 <= i < |b| ensures Occurs(cmp, b[i], right) <==> Occurs(cmp, b[i], right[p..]) {
      assert b[i] == left[m + 1 + i] && cmp(left[m], left[m + 1 + i]) < 0;
      OccursBehind(cmp, right, key, pos, found, b[i]);
    }
    CommonSame(cmp, b, right, right[p..]);
  }

  /**
   * How an intersection ends: with all common elements visited, or after a refused visit,
   * or, when a comparison failed, after some of them were visited and accepted.
   */
  ghost predicate IsTour<E(!new)>(accepts: (seq<E>, E) -> bool, seen: seq<E>, todo: seq<E>, t: Tour<E>, failed: bool) {
    if failed then !t.ok && exists n :: 0 <= n <= |todo| && Visit(accepts, seen, todo[..n]) == Tour(t.seen, true)
    else t == Visit(accepts, seen, todo)
  }

  /** A tour of the first part that was cut short is a cut-short tour of the whole. */
  lemma {:induction false} FirstPartOfTour<E(!new)>(accepts: (seq<E>, E) -> bool, seen: seq<E>, a: seq<E>, b: seq<E>,
          t: Tour<E>, failed: bool)
    requires IsTour(accepts, seen, a, t, failed) && !t.ok
    ensures IsTour(accepts, seen, a + b, t, failed)
  {
    VisitSplits(accepts, seen, a, b);
    if failed {
      var n :| 0 <= n <= |a| && Visit(accepts, seen, a[..n]) == Tour(t.seen, true);
      assert (a + b)[..n] == a[..n];
    }
  }

  /** A tour of the second part completes the tour of the first. */
  lemma {:induction false} SecondPartOfTour<E(!new)>(accepts: (seq<E>, E) -> bool, seen: seq<E>, a: seq<E>,
          b: seq<E>, t: Tour<E>, t': Tour<E>, failed: bool)
    requires t == Visit(accepts, seen, a) && t.ok && IsTour(accepts, t.seen, b, t', failed)
    ensures IsTour(accepts, seen, a + b, t', failed)
  {
    VisitSplits(accepts, seen, a, b);
    if failed {
      var n :| 0 <= n <= |b| && Visit(accepts, t.seen, b[..n]) == Tour(t'.seen, true);
      VisitSplits(accepts, seen, a, b[..n]);
      assert (a + b)[..|a| + n] == a + b[..n];
    }
  }

  lemma {:induction false} VisitOne<E(!new)>(accepts: (seq<E>, E) -> bool, seen: seq<E>, x: E)
    ensures Visit(accepts, seen, [x]) == Tour(seen + [x], accepts(seen, x))
  {
    assert [x][1..] == [];
  }

  lemma {:induction false} NoTourYet<E(!new)>(accepts: (seq<E>, E) -> bool, seen: seq<E>, todo: seq<E>)
    ensures IsTour(accepts, seen, todo, Tour(seen, false), true)
  {
    assert todo[..0] == [];
  }

  lemma {:induction false} Slices<E(!new)>(cmp: (E, E) -> int, s: seq<E>, a: nat, b: nat)
    requires Increasing(cmp, s) && a <= b <= |s|
    ensures Increasing(cmp, s[a..b])
  {
    var t := s[a..b];
    forall i, j | 0 <= i < j < |t| ensures cmp(t[i], t[j]) < 0 { assert t[i] == s[a + i] && t[j] == s[a + j]; }
  }

  ghost predicate SomePairFails<E(!new)>(fails: (E, E) -> bool, left: seq<E>, right: seq<E>) {
    exists i, j :: 0 <= i < |left| && 0 <= j < |right| && fails(left[i], right[j])
  }

  lemma {:induction false} FailsIn<E(!new)>(fails: (E, E) -> bool, left: seq<E>, right: seq<E>, a: nat, b: nat,
          c: nat, d: nat)
    requires a <= b <= |left| && c <= d <= |right| && SomePairFails(fails, left[a..b], right[c..d])
    ensures SomePairFails(fails, left, right)
  {
    var i, j :| 0 <= i < |left[a..b]| && 0 <= j < |right[c..d]| && fails(left[a..b][i], right[c..d][j]);
    assert fails(left[a + i], right[c + j]);
  }

  /** Visit the one element of left if it occurs in right. */
  method VisitIfFound<E(!new)>(cmp: (E, E) -> int, fails: (E, E) -> bool, accepts: (seq<E>, E) -> bool,
                               x: E, right: seq<E>, seen: seq<E>)
    returns (t: Tour<E>, failed: bool)
    requires Orders(cmp) && Increasing(cmp, right)
    ensures IsTour(accepts, seen, Common(cmp, [x], right), t, failed)
    ensures failed ==> SomePairFails(fails, [x], right)
  {
    var r := FindKey(cmp, fails, right, x);
    assert [x][1..] == [];
    if r.Failed? {
      NoTourYet(accepts, seen, Common(cmp, [x], right));
      assert exists j :: 0 <= j < |right| && fails([x][0], right[j]);
      return Tour(seen, false), true;
    }
    OccursAt(cmp, right, x, r.pos, r.found);
    VisitOne(accepts, seen, x);
    if r.found {
      t := Tour(seen + [x], accepts(seen, x));
    } else {
      t := Tour(seen, true);
    }
    failed := false;
  }

  /**
   * Visit the elements of left that occur in right, in order and each once, until a visit
   * is refused or a comparison fails.
   */
  method Intersect<E(!new)>(cmp: (E, E) -> int, fails: (E, E) -> bool, accepts: (seq<E>, E) -> bool,
                            left: seq<E>, right: seq<E>, seen: seq<E>)
    returns (t: Tour<E>, failed: bool)
    requires Orders(cmp) && Increasing(cmp, left) && Increasing(cmp, right)
    ensures IsTour(accepts, seen, Common(cmp, left, right), t, failed)
    ensures failed ==> SomePairFails(fails, left, right)
    decreases |left|, 2
  {
    hide Orders, Increasing, IsPlace, Common, IsTour, Visit, SomePairFails;
    if |left| == 0 || |right| == 0 {
      NothingCommon(cmp, accepts, left, right, seen);
      return Tour(seen, true), false;
    }
    if |left| == 1 {
      assert left == [left[0]];
      t, failed := VisitIfFound(cmp, fails, accepts, left[0], right, seen);
      return;
    }
    var median := |left| / 2;
    var r := FindKey(cmp, fails, right, left[median]);
    if r.Failed? {
      NoTourYet(accepts, seen, Common(cmp, left, right));
      PairFails(fails, left, right, median);
      return Tour(seen, false), true;
    }
    PlaceInside(cmp, right, left[median], r.pos, r.found);
    CommonAround(cmp, left, right, median, r.pos, r.found);
    ghost var p := if r.found then r.pos + 1 else r.pos;
    ghost var a := Common(cmp, left[..median], right[..r.pos]);
    ghost var b := (if r.found then [left[median]] else []) + Common(cmp, left[median + 1..], right[p..]);
    t, failed := IntersectBefore(cmp, fails, accepts, left, right, seen, median, r.pos);
    if !t.ok {
      FirstPartOfTour(accepts, seen, a, b, t, failed);
    } else {
      WholeTour(accepts, seen, a, t, failed);
      ghost var t0 := t;
      t, failed := IntersectBehind(cmp, fails, accepts, left, right, t.seen, median, r.pos, r.found);
      SecondPartOfTour(accepts, seen, a, b, t0, t, failed);
    }
  }

  /** The part of an intersection that is before the median. */
  method IntersectBefore<E(!new)>(cmp: (E, E) -> int, fails: (E, E) -> bool, accepts: (seq<E>, E) -> bool,
                                  left: seq<E>, right: seq<E>, seen: seq<E>, median: nat, idx: nat)
    returns (t: Tour<E>, failed: bool)
    requires Orders(cmp) && Increasing(cmp, left) && Increasing(cmp, right) && median < |left| && idx <= |right|
    ensures IsTour(accepts, seen, Common(cmp, left[..median], right[..idx]), t, failed)
    ensures failed ==> SomePairFails(fails, left, right)
    decreases |left|, 0
  {
    hide Orders, Increasing, Common, IsTour, Visit, SomePairFails;
    if median > 0 && idx > 0 {
      Slices(cmp, left, 0, median);
      Slices(cmp, right, 0, idx);
      t, failed := Intersect(cmp, fails, accepts, left[..median], right[..idx], seen);
      if failed { FailsIn(fails, left, right, 0, median, 0, idx); }
    } else {
      NothingCommon(cmp, accepts, left[..median], right[..idx], seen);
      t, failed := Tour(seen, true), false;
    }
  }

  /** The median, if it was found, and the part of an intersection that is behind it. */
  method IntersectBehind<E(!new)>(cmp: (E, E) -> int, fails: (E, E) -> bool, accepts: (seq<E>, E) -> bool,
                                  left: seq<E>, right: seq<E>, seen: seq<E>, m: nat, pos: nat, found: bool)
    returns (t: Tour<E>, failed: bool)
    requires Orders(cmp) && Increasing(cmp, left) && Increasing(cmp, right) && m < |left|
    requires pos <= |right| && (found ==> pos < |right|)
    ensures var p := if found then pos + 1 else pos;
            IsTour(accepts, seen, (if found then [left[m]] else []) + Common(cmp, left[m + 1..], right[p..]), t, failed)
    ensures failed ==> SomePairFails(fails, left, right)
    decreases |left|, 1
  {
    hide Orders, Increasing, Common, IsTour, Visit, SomePairFails;
    var median, idx := m, pos;
    if found {
      VisitOne(accepts, seen, left[m]);
      ghost var rest := Common(cmp, left[m + 1..], right[pos + 1..]);
      if !accepts(seen, left[m]) {
        t, failed := Tour(seen + [left[m]], false), false;
        TourIs(accepts, seen, [left[m]], t);
        FirstPartOfTour(accepts, seen, [left[m]], rest, t, false);
      } else {
        t, failed := IntersectRest(cmp, fails, accepts, left, right, seen + [left[m]], m + 1, pos + 1, true);
        SecondPartOfTour(accepts, seen, [left[m]], rest, Tour(seen + [left[m]], true), t, failed);
      }
    } else {
      t, failed := IntersectRest(cmp, fails, accepts, left, right, seen, m + 1, pos, false);
      assert [] + Common(cmp, left[m + 1..], right[pos..]) == Common(cmp, left[m + 1..], right[pos..]);
    }
  }

  /** The part of an intersection from a place of each array on. */
  method IntersectRest<E(!new)>(cmp: (E, E) -> int, fails: (E, E) -> bool, accepts: (seq<E>, E) -> bool,
                                left: seq<E>, right: seq<E>, seen: seq<E>, median: nat, idx: nat, matched: bool)
    returns (t: Tour<E>, failed: bool)
    requires Orders(cmp) && Increasing(cmp, left) && Increasing(cmp, right) && 0 < median <= |left| && idx <= |right|
    ensures IsTour(accepts, seen, Common(cmp, left[median..], right[idx..]), t, failed)
    ensures failed ==> SomePairFails(fails, left, right)
    decreases |left|, 0
  {
    hide Orders, Increasing, Common, IsTour, Visit, SomePairFails;
    Slices(cmp, left, median, |left|);
    Slices(cmp, right, idx, |right|);
    assert left[median..|left|] == left[median..] && right[idx..|right|] == right[idx..];
    if idx < |right| {
      if matched && median == |left| - 1 {
        assert left[median..] == [left[median]];
        t, failed := VisitIfFound(cmp, fails, accepts, left[median], right[idx..], seen);
      } else {
        t, failed := Intersect(cmp, fails, accepts, left[median..], right[idx..], seen);
      }
      if failed { FailsIn(fails, left, right, median, |left|, idx, |right|); }
    } else {
      NothingCommon(cmp, accepts, left[median..], right[idx..], seen);
      t, failed := Tour(seen, true), false;
    }
  }

  lemma {:induction false} NothingCommon<E(!new)>(cmp: (E, E) -> int, accepts: (seq<E>, E) -> bool, left: seq<E>,
          right: seq<E>, seen: seq<E>)
    requires left == [] || right == []
    ensures IsTour(accepts, seen, Common(cmp, left, right), Tour(seen, true), false)
  {
    if right == [] { CommonNone(cmp, left); }
  }

  lemma {:induction false} PairFails<E(!new)>(fails: (E, E) -> bool, left: seq<E>, right: seq<E>, m: nat)
    requires m < |left| && exists i :: 0 <= i < |right| && fails(left[m], right[i])
    ensures SomePairFails(fails, left, right)
  {
  }

  lemma {:induction false} PlaceInside<E(!new)>(cmp: (E, E) -> int, s: seq<E>, key: E, pos: nat, found: bool)
    requires IsPlace(cmp, s, key, pos, found)
    ensures pos <= |s| && (found ==> pos < |s|)
  {
  }

  lemma {:induction false} WholeTour<E(!new)>(accepts: (seq<E>, E) -> bool, seen: seq<E>, todo: seq<E>, t: Tour<E>,
          failed: bool)
    requires IsTour(accepts, seen, todo, t, failed) && t.ok
    ensures t == Visit(accepts, seen, todo)
  {
  }

  lemma {:induction false} TourIs<E(!new)>(accepts: (seq<E>, E) -> bool, seen: seq<E>, todo: seq<E>, t: Tour<E>)
    requires t == Visit(accepts, seen, todo)
    ensures IsTour(accepts, seen, todo, t, false)
  {
  }
}
