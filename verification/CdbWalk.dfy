module CdbWalk {
  // Walking one counts list.  A position is a count node and a key of its chain; each
  // call visits that key and moves on.  Repeated calls visit every key of the list once.

  import opened CdbCounts
  import opened CdbOrder

  /** Where a walk stands; Pos(NONE, NONE) is both "start of list" and "end of list". */
  datatype Pos = Pos(cnt: nat, hkv: nat)

  const END := Pos(NONE, NONE)

  /** Where a walk of list l begins: at its high end when `down`, at its low end otherwise. */
  function Start(g: Graph, l: nat, down: bool): Pos
    requires l < |g.lo| == |g.hi|
  {
    AtNode(g, if down then g.hi[l] else g.lo[l])
  }

  function AtNode(g: Graph, c: nat): Pos {
    if c == NONE || c >= |g.counts| then END else Pos(c, g.counts[c].hkv1)
  }

  /** Where a walk goes after visiting its key. */
  function Next(g: Graph, down: bool, w: Pos): Pos
    requires w.hkv in g.links && w.cnt < |g.counts|
  {
    var k := g.links[w.hkv].next;
    if k != NONE then Pos(w.cnt, k)
    else AtNode(g, if down then g.counts[w.cnt].last else g.counts[w.cnt].next)
  }

  /** A position some walk of list l can stand at. */
  ghost predicate PosOk(g: Graph, l: nat, w: Pos)
    requires GraphOk(g)
  {
    w == END ||
    (&& w.cnt in g.owner && g.owner[w.cnt] == l && w.cnt < |g.counts| && w.cnt != NONE
     && w.hkv in g.links && w.hkv in g.stamp && g.links[w.hkv].slot == w.cnt && w.hkv != NONE)
  }

  /** Whether key q of list l comes at or after position w. */
  ghost predicate AtOrAfter(g: Graph, l: nat, down: bool, w: Pos, q: nat)
    requires GraphOk(g) && PosOk(g, l, w) && w != END
  {
    && q in g.links && q in g.stamp
    && Tally(g, q).0 == l
    && ((g.links[q].slot == w.cnt && g.stamp[q] <= g.stamp[w.hkv])
        || (if down then Tally(g, q).1 < g.counts[w.cnt].count else Tally(g, q).1 > g.counts[w.cnt].count))
  }

  /** The keys still to be visited from position w. */
  ghost function Ahead(g: Graph, l: nat, down: bool, w: Pos): set<nat>
    requires GraphOk(g) && PosOk(g, l, w)
  {
    if w == END then {} else set q | q in g.links.Keys && AtOrAfter(g, l, down, w, q)
  }

  /** The counter keys of list l. */
  ghost function KeysOf(g: Graph, l: nat): set<nat>
    requires GraphOk(g)
  {
    set q | q in g.links.Keys && Tally(g, q).0 == l
  }

  lemma {:induction false} AtNodeAll(g: Graph, l: nat, down: bool, c: nat, q: nat)
    requires GraphOk(g) && c in g.owner && g.owner[c] == l && q in g.links
    requires Tally(g, q).0 == l && c < |g.counts|
    requires if down then Tally(g, q).1 <= g.counts[c].count else Tally(g, q).1 >= g.counts[c].count
    ensures PosOk(g, l, AtNode(g, c)) && AtNode(g, c) != END
    ensures AtOrAfter(g, l, down, AtNode(g, c), q)
  {
    assert SlotOk(g, c);
    assert KeyOk(g, g.counts[c].hkv1);
    assert KeyOk(g, q);
    ChainUp(g, q);
    if Tally(g, q).1 == g.counts[c].count { CountNamesNode(g, g.links[q].slot, c); }
  }

  lemma {:induction false} AtNodeOk(g: Graph, l: nat, c: nat)
    requires GraphOk(g) && c in g.owner && g.owner[c] == l
    ensures PosOk(g, l, AtNode(g, c)) && AtNode(g, c) != END && AtNode(g, c).cnt == c
  {
    assert SlotOk(g, c);
    assert KeyOk(g, g.counts[c].hkv1);
  }

  /** A walk starts with the whole list ahead of it. */
  lemma {:induction false} StartSeesAll(g: Graph, l: nat, down: bool)
    requires GraphOk(g) && l < |g.lo|
    ensures PosOk(g, l, Start(g, l, down))
    ensures Ahead(g, l, down, Start(g, l, down)) == KeysOf(g, l)
  {
    assert EndsOk(g, l);
    var c := if down then g.hi[l] else g.lo[l];
    if c != NONE { AtNodeOk(g, l, c); }
    forall q | q in KeysOf(g, l) ensures q in Ahead(g, l, down, Start(g, l, down)) {
      assert KeyOk(g, q);
      var s := g.links[q].slot;
      LoIsLeast(g, s);
      HiIsGreatest(g, s);
      AtNodeAll(g, l, down, c, q);
    }
  }

  /** Keys behind the node of a position are exactly those from the neighbouring node on. */
  lemma {:induction false} NeighbourIsNext(g: Graph, l: nat, down: bool, c: nat, q: nat)
    requires GraphOk(g) && c in g.owner && g.owner[c] == l && c < |g.counts| && q in g.links
    requires Tally(g, q).0 == l
    requires if down then Tally(g, q).1 < g.counts[c].count else Tally(g, q).1 > g.counts[c].count
    ensures var n := if down then g.counts[c].last else g.counts[c].next;
            && n in g.owner && g.owner[n] == l && n < |g.counts|
            && (if down then Tally(g, q).1 <= g.counts[n].count else Tally(g, q).1 >= g.counts[n].count)
  {
    assert SlotOk(g, c);
    assert KeyOk(g, q);
    var s := g.links[q].slot;
    if down {
      LowerIsBelow(g, s, c);
      var b := g.counts[c].last;
      assert b != NONE;
      assert SlotOk(g, b);
      UpToAscends(g, b);
      assert s in UpTo(g, b);
    } else {
      LowerIsBelow(g, c, s);
      StepUpStays(g, c, s);
      UpToAscends(g, s);
    }
  }

  lemma {:induction false} OlderFollows(g: Graph, l: nat, down: bool, w: Pos, q: nat)
    requires GraphOk(g) && PosOk(g, l, w) && w != END
    requires AtOrAfter(g, l, down, w, q) && q != w.hkv
    ensures PosOk(g, l, Next(g, down, w)) && Next(g, down, w) != END
    ensures AtOrAfter(g, l, down, Next(g, down, w), q)
  {
    assert KeyOk(g, w.hkv);
    assert KeyOk(g, q);
    if g.links[q].slot == w.cnt {
      OlderIsBehind(g, w.hkv, q);
      var k := g.links[w.hkv].next;
      assert q in Chain(g, k);
      ChainDescends(g, k);
    } else {
      NeighbourIsNext(g, l, down, w.cnt, q);
      if g.links[w.hkv].next == NONE {
        AtNodeAll(g, l, down, if down then g.counts[w.cnt].last else g.counts[w.cnt].next, q);
      }
    }
  }

  lemma {:induction false} NextOk(g: Graph, l: nat, down: bool, w: Pos)
    requires GraphOk(g) && PosOk(g, l, w) && w != END
    ensures PosOk(g, l, Next(g, down, w))
    ensures var w' := Next(g, down, w);
            w' != END ==>
              if w'.cnt == w.cnt then w'.hkv == g.links[w.hkv].next && g.stamp[w'.hkv] < g.stamp[w.hkv]
              else if down then g.counts[w'.cnt].count < g.counts[w.cnt].count
              else g.counts[w'.cnt].count > g.counts[w.cnt].count
  {
    assert KeyOk(g, w.hkv);
    assert SlotOk(g, w.cnt);
    if g.links[w.hkv].next == NONE {
      var c := if down then g.counts[w.cnt].last else g.counts[w.cnt].next;
      if c != NONE { AtNodeOk(g, l, c); assert SlotOk(g, c); }
    }
  }

  /** One call takes exactly its own key off what is ahead. */
  lemma {:induction false} StepTakesOne(g: Graph, l: nat, down: bool, w: Pos)
    requires GraphOk(g) && PosOk(g, l, w) && w != END
    ensures PosOk(g, l, Next(g, down, w))
    ensures w.hkv in Ahead(g, l, down, w)
    ensures Ahead(g, l, down, Next(g, down, w)) == Ahead(g, l, down, w) - {w.hkv}
  {
    NextOk(g, l, down, w);
    assert KeyOk(g, w.hkv);
    var w' := Next(g, down, w);
    forall q | q in Ahead(g, l, down, w) && q != w.hkv ensures q in Ahead(g, l, down, w') {
      OlderFollows(g, l, down, w, q);
    }
    forall q | q in Ahead(g, l, down, w') ensures q in Ahead(g, l, down, w) && q != w.hkv {
      assert KeyOk(g, q);
    }
  }

  /** The keys that calls visit from position w until the walk returns to END. */
  ghost function Visits(g: Graph, l: nat, down: bool, w: Pos): seq<nat>
    requires GraphOk(g) && PosOk(g, l, w)
    decreases Ahead(g, l, down, w)
  {
    if w == END then [] else
    StepTakesOne(g, l, down, w);
    [w.hkv] + Visits(g, l, down, Next(g, down, w))
  }

  /** a before b in the order of a walk: by count in the walk's direction, newest first within a count. */
  ghost predicate InWalkOrder(g: Graph, down: bool, a: nat, b: nat)
    requires GraphOk(g)
  {
    && a in g.links && b in g.links
    && a in g.stamp && b in g.stamp
    && (if Tally(g, a).1 == Tally(g, b).1 then g.stamp[a] > g.stamp[b]
        else if down then Tally(g, a).1 > Tally(g, b).1
        else Tally(g, a).1 < Tally(g, b).1)
  }

  lemma {:induction false} VisitsCover(g: Graph, l: nat, down: bool, w: Pos)
    requires GraphOk(g) && PosOk(g, l, w)
    ensures var v := Visits(g, l, down, w);
            && (forall q :: q in v <==> q in Ahead(g, l, down, w))
            && (forall i, j :: 0 <= i < j < |v| ==> InWalkOrder(g, down, v[i], v[j]))
    decreases Ahead(g, l, down, w)
  {
    if w != END {
      StepTakesOne(g, l, down, w);
      var w' := Next(g, down, w);
      VisitsCover(g, l, down, w');
      var v, v' := Visits(g, l, down, w), Visits(g, l, down, w');
      assert v == [w.hkv] + v';
      forall j | 0 <= j < |v'| ensures InWalkOrder(g, down, w.hkv, v'[j]) {
        var q := v'[j];
        assert q in Ahead(g, l, down, w');
        assert q in Ahead(g, l, down, w);
        assert KeyOk(g, q);
        assert KeyOk(g, w.hkv);
        BehindHead(g, l, down, w, q);
      }
    }
  }

  lemma {:induction false} BehindHead(g: Graph, l: nat, down: bool, w: Pos, q: nat)
    requires GraphOk(g) && PosOk(g, l, w) && w != END
    requires AtOrAfter(g, l, down, w, q) && q != w.hkv
    ensures InWalkOrder(g, down, w.hkv, q)
  {
    assert KeyOk(g, q);
    assert KeyOk(g, w.hkv);
    if g.links[q].slot == w.cnt {
      OlderIsBehind(g, w.hkv, q);
      ChainDescends(g, w.hkv);
      var r := Chain(g, w.hkv);
      var i :| 0 <= i < |r| && r[i] == q;
      assert r[0] == w.hkv;
    }
  }

  /**
   * A whole walk of list l, in either direction, visits every counter key of the list
   * exactly once, in the order of the counts.
   */
  lemma {:induction false} WalkVisitsEachKeyOnce(g: Graph, l: nat, down: bool)
    requires GraphOk(g) && l < |g.lo|
    ensures PosOk(g, l, Start(g, l, down))
    ensures var v := Visits(g, l, down, Start(g, l, down));
            && (forall q :: q in v <==> q in KeysOf(g, l))
            && (forall i, j :: 0 <= i < j < |v| ==> v[i] != v[j] && InWalkOrder(g, down, v[i], v[j]))
  {
    StartSeesAll(g, l, down);
    VisitsCover(g, l, down, Start(g, l, down));
  }
}
