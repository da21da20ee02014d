module CdbOrder {
  // What the pointwise invariant of CdbCounts means for a whole list: the nodes of a
  // list form one strictly ascending sequence from counts_lo to counts_hi, the chain of
  // a node holds exactly the keys with its count, and the walk visits every key once.

  import opened CdbCounts

  // ---------------------------------------------------------------- one list

  /** The nodes of a list from its low end up to node s. */
  ghost function UpTo(g: Graph, s: nat): (r: seq<nat>)
    requires GraphOk(g) && s in g.owner && s < |g.counts|
    ensures |r| > 0 && r[|r| - 1] == s
    decreases g.counts[s].count
  {
    assert SlotOk(g, s);
    var b := g.counts[s].last;
    if b == NONE then [s] else
    assert SlotOk(g, b);
    UpTo(g, b) + [s]
  }

  /** All nodes of a list, low to high, found by following `last` from its high end. */
  ghost function Nodes(g: Graph, l: nat): seq<nat>
    requires GraphOk(g) && l < |g.lo|
  {
    assert EndsOk(g, l);
    if g.hi[l] == NONE then [] else
    assert SlotOk(g, g.hi[l]);
    UpTo(g, g.hi[l])
  }

  ghost predicate Ascending(g: Graph, l: nat, r: seq<nat>)
    requires |g.lo| == |g.hi|
  {
    && l < |g.lo|
    && (forall i :: 0 <= i < |r| ==> r[i] in g.owner && g.owner[r[i]] == l && r[i] < |g.counts|)
    && (forall i, j :: 0 <= i < j < |r| ==> g.counts[r[i]].count < g.counts[r[j]].count)
    && (forall i :: 0 <= i < |r| - 1 ==> g.counts[r[i]].next == r[i + 1])
    && (forall i :: 0 < i < |r| ==> g.counts[r[i]].last == r[i - 1])
    && (|r| > 0 ==> r[0] == g.lo[l] && g.counts[r[0]].last == NONE)
  }

  lemma {:induction false} UpToAscends(g: Graph, s: nat)
    requires GraphOk(g) && s in g.owner && s < |g.counts|
    ensures Ascending(g, g.owner[s], UpTo(g, s))
    decreases g.counts[s].count
  {
    assert SlotOk(g, s);
    var b := g.counts[s].last;
    if b != NONE {
      assert SlotOk(g, b);
      UpToAscends(g, b);
    }
  }

  /** The low end has the least count of its list. */
  lemma {:induction false} LoIsLeast(g: Graph, s: nat)
    requires GraphOk(g) && s in g.owner && s < |g.counts|
    ensures g.owner[s] < |g.lo|
    ensures var lo := g.lo[g.owner[s]];
            lo in g.owner && lo < |g.counts| && g.counts[lo].count <= g.counts[s].count
            && (lo == s || g.counts[lo].count < g.counts[s].count)
    decreases g.counts[s].count
  {
    assert SlotOk(g, s);
    var b := g.counts[s].last;
    if b != NONE {
      assert SlotOk(g, b);
      LoIsLeast(g, b);
    }
  }

  /** Nodes below s on the way down to the low end have s's list above them. */
  lemma {:induction false} StepUpStays(g: Graph, r: nat, s: nat)
    requires GraphOk(g) && s in g.owner && s < |g.counts|
    requires r in UpTo(g, s) && r != s
    ensures r < |g.counts| && g.counts[r].next != NONE && g.counts[r].next in UpTo(g, s)
    decreases g.counts[s].count
  {
    assert SlotOk(g, s);
    var b := g.counts[s].last;
    assert SlotOk(g, b);
    if r != b { StepUpStays(g, r, b); }
  }

  /** Of two nodes of one list the lower is on the way down from the higher. */
  lemma {:induction false} LowerIsBelow(g: Graph, s: nat, t: nat)
    requires GraphOk(g) && s in g.owner && t in g.owner && s < |g.counts| && t < |g.counts|
    requires g.owner[s] == g.owner[t] && g.counts[s].count <= g.counts[t].count
    ensures s in UpTo(g, t)
    decreases g.counts[s].count + g.counts[t].count
  {
    assert SlotOk(g, s);
    assert SlotOk(g, t);
    if s == t { return; }
    var b := g.counts[t].last;
    LoIsLeast(g, s);
    assert b != NONE;
    assert SlotOk(g, b);
    if g.counts[s].count <= g.counts[b].count {
      LowerIsBelow(g, s, b);
    } else {
      LowerIsBelow(g, b, s);
      StepUpStays(g, b, s);
      UpToAscends(g, s);
      assert t in UpTo(g, s);
    }
  }

  /** Counts are unique within a list. */
  lemma {:induction false} CountNamesNode(g: Graph, s: nat, t: nat)
    requires GraphOk(g) && s in g.owner && t in g.owner && s < |g.counts| && t < |g.counts|
    requires g.owner[s] == g.owner[t] && g.counts[s].count == g.counts[t].count
    ensures s == t
  {
    LowerIsBelow(g, s, t);
    UpToAscends(g, t);
  }

  lemma {:induction false} HiIsGreatest(g: Graph, s: nat)
    requires GraphOk(g) && s in g.owner && s < |g.counts|
    ensures g.owner[s] < |g.hi|
    ensures var hi := g.hi[g.owner[s]];
            hi in g.owner && hi < |g.counts| && g.owner[hi] == g.owner[s] && g.counts[s].count <= g.counts[hi].count
  {
    assert SlotOk(g, s);
    assert EndsOk(g, g.owner[s]);
    var hi := g.hi[g.owner[s]];
    LoIsLeast(g, s);
    assert SlotOk(g, hi);
    if g.counts[s].count > g.counts[hi].count {
      LowerIsBelow(g, hi, s);
      StepUpStays(g, hi, s);
    }
  }

  /** The nodes of list l, from counts_lo to counts_hi, in strictly ascending count: all of them, once each. */
  lemma {:induction false} NodesComplete(g: Graph, l: nat)
    requires GraphOk(g) && l < |g.lo|
    ensures Ascending(g, l, Nodes(g, l))
    ensures forall s :: s in g.owner && g.owner[s] == l <==> s in Nodes(g, l)
    ensures g.hi[l] != NONE ==> |Nodes(g, l)| > 0 && Nodes(g, l)[|Nodes(g, l)| - 1] == g.hi[l]
  {
    assert EndsOk(g, l);
    if g.hi[l] != NONE {
      assert SlotOk(g, g.hi[l]);
      UpToAscends(g, g.hi[l]);
    }
    forall s | s in g.owner && g.owner[s] == l ensures s in Nodes(g, l) {
      assert SlotOk(g, s);
      LoIsLeast(g, s);
      HiIsGreatest(g, s);
      LowerIsBelow(g, s, g.hi[l]);
    }
  }

  // ---------------------------------------------------------------- one chain

  /** The keys of a chain from key p on, newest first. */
  ghost function Chain(g: Graph, p: nat): (r: seq<nat>)
    requires GraphOk(g) && p in g.links
    ensures |r| > 0 && r[0] == p
    decreases if p in g.stamp then g.stamp[p] else 0
  {
    assert KeyOk(g, p);
    if g.links[p].next == NONE then [p] else [p] + Chain(g, g.links[p].next)
  }

  ghost predicate Newer(g: Graph, s: nat, r: seq<nat>)
  {
    && (forall i :: 0 <= i < |r| ==> r[i] in g.links && r[i] in g.stamp && g.links[r[i]].slot == s)
    && (forall i, j :: 0 <= i < j < |r| ==> g.stamp[r[i]] > g.stamp[r[j]])
  }

  lemma {:induction false} ChainDescends(g: Graph, p: nat)
    requires GraphOk(g) && p in g.links
    ensures Newer(g, g.links[p].slot, Chain(g, p))
    decreases if p in g.stamp then g.stamp[p] else 0
  {
    assert KeyOk(g, p);
    if g.links[p].next != NONE { ChainDescends(g, g.links[p].next); }
  }

  /** An older key of the same node is further down the chain. */
  lemma {:induction false} OlderIsBehind(g: Graph, p: nat, q: nat)
    requires GraphOk(g) && p in g.links && q in g.links && g.links[p].slot == g.links[q].slot
    requires p in g.stamp && q in g.stamp && g.stamp[q] <= g.stamp[p]
    ensures q in Chain(g, p)
    decreases (MaxStamp(g.stamp) - g.stamp[q]) + (MaxStamp(g.stamp) - g.stamp[p])
  {
    assert KeyOk(g, p);
    assert KeyOk(g, q);
    if p == q { return; }
    ChainUp(g, p);
    var r := g.links[q].last;
    assert r != NONE;
    assert KeyOk(g, r);
    NewestBounds(g, p); NewestBounds(g, q); NewestBounds(g, r);
    if g.stamp[r] <= g.stamp[p] {
      OlderIsBehind(g, p, r);
      ChainStep(g, p, r);
    } else {
      OlderIsBehind(g, r, p);
      ChainDescends(g, r);
      assert Chain(g, r) == [r] + Chain(g, q);
      ChainDescends(g, q);
      assert p in Chain(g, q);
    }
  }

  lemma {:induction false} ChainStep(g: Graph, p: nat, r: nat)
    requires GraphOk(g) && p in g.links && r in Chain(g, p) && r in g.links && g.links[r].next != NONE
    ensures g.links[r].next in Chain(g, p)
    decreases if p in g.stamp then g.stamp[p] else 0
  {
    assert KeyOk(g, p);
    assert KeyOk(g, r);
    if p != r { ChainStep(g, g.links[p].next, r); }
  }

  /**
   * The chain of a node holds exactly the keys of its list with its count, each once.
   */
  lemma {:induction false} ChainIsCount(g: Graph, s: nat)
    requires GraphOk(g) && s in g.owner && s < |g.counts|
    ensures g.counts[s].hkv1 in g.links
    ensures var r := Chain(g, g.counts[s].hkv1);
            && Newer(g, s, r)
            && (forall i, j :: 0 <= i < j < |r| ==> r[i] != r[j])
            && forall q :: q in g.links ==> (Tally(g, q) == (g.owner[s], g.counts[s].count) <==> q in r)
  {
    assert SlotOk(g, s);
    var h := g.counts[s].hkv1;
    var r := Chain(g, h);
    ChainDescends(g, h);
    forall q | q in g.links ensures Tally(g, q) == (g.owner[s], g.counts[s].count) <==> q in r {
      assert KeyOk(g, q);
      if Tally(g, q) == (g.owner[s], g.counts[s].count) {
        CountNamesNode(g, g.links[q].slot, s);
        ChainUp(g, q);
        OlderIsBehind(g, h, q);
      }
    }
  }
}
