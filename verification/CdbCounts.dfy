module CdbCounts {
  // The live-sorted counters of one sxe-cdb instance: count nodes in doubly linked
  // ascending lists, each node owning a doubly linked chain of key records.
  //
  // Everything here is a value.  The class in CdbInstance.dfy keeps the same data in
  // fields and proves each of its steps equal to a function of this module.

  // SXE_CDB_COUNT_NONE and SXE_CDB_HKV_POS_NONE.
  const NONE: nat := 0

  /** A count node: a unique count, its neighbours in the list, and the head of its key chain. */
  datatype Count = Count(count: nat, next: nat, last: nat, hkv1: nat)

  /** The value stored with a counter key: its count node and its neighbours in the chain. */
  datatype Link = Link(slot: nat, next: nat, last: nat)

  /**
   * counts   the node slots, slot 0 unused
   * links    the chain link of every counter key, by the position of its record
   * lo, hi   the ends of each list
   * owner    the list that each live slot belongs to
   * stamp    when each key last entered a chain; not stored by the program
   */
  datatype Graph = Graph(
    counts: seq<Count>,
    links: map<nat, Link>,
    lo: seq<nat>,
    hi: seq<nat>,
    owner: map<nat, nat>,
    stamp: map<nat, nat>)
  {
    /** The count that a counter key has reached. */
    function CountOf(p: nat): nat
      requires p in links && links[p].slot < |counts|
    {
      counts[links[p].slot].count
    }
  }

  // ---------------------------------------------------------------- invariant

  ghost predicate SlotOk(g: Graph, s: nat)
    requires s in g.owner
    requires |g.lo| == |g.hi|
  {
    var l := g.owner[s];
    && 0 < s < |g.counts|
    && l < |g.lo|
    && var n := g.counts[s];
    && n.count >= 1
    && n.hkv1 in g.links && g.links[n.hkv1].slot == s && g.links[n.hkv1].last == NONE
    && (n.next == NONE <==> g.hi[l] == s)
    && (n.next != NONE ==>
          && n.next in g.owner && g.owner[n.next] == l
          && n.next < |g.counts|
          && g.counts[n.next].last == s
          && n.count < g.counts[n.next].count)
    && (n.last == NONE <==> g.lo[l] == s)
    && (n.last != NONE ==>
          && n.last in g.owner && g.owner[n.last] == l
          && n.last < |g.counts|
          && g.counts[n.last].next == s)
  }

  ghost predicate KeyOk(g: Graph, p: nat)
    requires p in g.links
  {
    var k := g.links[p];
    && p != NONE
    && p in g.stamp
    && k.slot in g.owner
    && k.slot < |g.counts|
    && (k.next != NONE ==>
          && k.next in g.links && k.next in g.stamp
          && g.links[k.next].slot == k.slot
          && g.links[k.next].last == p
          && g.stamp[k.next] < g.stamp[p])
    && (k.last != NONE ==>
          && k.last in g.links
          && g.links[k.last].slot == k.slot
          && g.links[k.last].next == p)
    && (k.last == NONE ==> g.counts[k.slot].hkv1 == p)
  }

  ghost predicate EndsOk(g: Graph, l: nat)
    requires l < |g.lo| == |g.hi|
  {
    && (g.lo[l] == NONE <==> g.hi[l] == NONE)
    && (g.lo[l] != NONE ==> g.lo[l] in g.owner && g.owner[g.lo[l]] == l)
    && (g.hi[l] != NONE ==> g.hi[l] in g.owner && g.owner[g.hi[l]] == l)
  }

  /** The invariant of every reachable set of counter lists. */
  ghost predicate GraphOk(g: Graph)
  {
    && |g.lo| == |g.hi|
    && (forall s {:trigger SlotOk(g, s)} :: s in g.owner ==> SlotOk(g, s))
    && (forall p {:trigger KeyOk(g, p)} :: p in g.links ==> KeyOk(g, p))
    && (forall l {:trigger EndsOk(g, l)} :: 0 <= l < |g.lo| ==> EndsOk(g, l))
  }

  /** What a counter key stands for: the list it is in and its count. */
  ghost function Tally(g: Graph, p: nat): (nat, nat)
    requires GraphOk(g) && p in g.links
  {
    assert KeyOk(g, p);
    (g.owner[g.links[p].slot], g.CountOf(p))
  }

  /** The counters as their users see them: for every counter key, its list and its count. */
  ghost function Tallies(g: Graph): map<nat, (nat, nat)> {
    map p | p in g.links && g.links[p].slot in g.owner && g.links[p].slot < |g.counts| ::
      (g.owner[g.links[p].slot], g.counts[g.links[p].slot].count)
  }

  lemma {:induction false} TalliesAreTally(g: Graph)
    requires GraphOk(g)
    ensures Tallies(g).Keys == g.links.Keys
    ensures forall p {:trigger Tally(g, p)} {:trigger Tallies(g)[p]} :: p in g.links ==> Tallies(g)[p] == Tally(g, p)
  {
    var t := Tallies(g);
    forall p | p in g.links ensures p in t && t[p] == Tally(g, p) { assert KeyOk(g, p); }
    assert t.Keys == g.links.Keys;
  }

  lemma {:induction false} TalliesAgree(g: Graph, t: map<nat, (nat, nat)>)
    requires GraphOk(g) && t.Keys == g.links.Keys
    requires forall q {:trigger Tally(g, q)} {:trigger t[q]} :: q in t ==> Tally(g, q) == t[q]
    ensures Tallies(g) == t
  {
    TalliesAreTally(g);
  }

  lemma {:induction false} TallyAt(g: Graph, p: nat)
    requires GraphOk(g) && p in g.links
    ensures g.links[p].slot in g.owner && g.links[p].slot < |g.counts|
    ensures p in Tallies(g) && Tallies(g)[p] == (g.owner[g.links[p].slot], g.CountOf(p))
  {
    assert KeyOk(g, p);
  }

  /** Slots that no list owns may hold anything. */
  lemma {:induction false} FrameOk(g: Graph, counts: seq<Count>)
    requires GraphOk(g) && |counts| >= |g.counts|
    requires forall s :: s in g.owner && s < |g.counts| ==> counts[s] == g.counts[s]
    ensures GraphOk(g.(counts := counts))
  {
    var g' := g.(counts := counts);
    forall r | r in g'.owner ensures SlotOk(g', r) { assert SlotOk(g, r); }
    forall q | q in g'.links ensures KeyOk(g', q) { assert KeyOk(g, q); assert SlotOk(g, g.links[q].slot); }
    forall l | 0 <= l < |g'.lo| ensures EndsOk(g', l) { assert EndsOk(g, l); }
  }

  lemma {:induction false} FrameKeeps(g: Graph, counts: seq<Count>)
    requires GraphOk(g) && |counts| >= |g.counts|
    requires forall s :: s in g.owner && s < |g.counts| ==> counts[s] == g.counts[s]
    ensures var g' := g.(counts := counts);
            GraphOk(g') && Tallies(g') == Tallies(g)
  {
    var g', t := g.(counts := counts), Tallies(g);
    FrameOk(g, counts);
    TalliesAreTally(g);
    hide Tallies;
    forall q | q in t ensures Tally(g', q) == t[q] { assert KeyOk(g, q); }
    TalliesAgree(g', t);
  }

  // ---------------------------------------------------------------- the four moves

  ghost predicate FreshStamp(g: Graph, t: nat)
  {
    forall q :: q in g.stamp ==> g.stamp[q] < t
  }

  /** Put key p at the head of the chain of node s. */
  function PushKey(g: Graph, s: nat, p: nat, t: nat): Graph
    requires s < |g.counts| && g.counts[s].hkv1 in g.links
  {
    var h := g.counts[s].hkv1;
    g.(links := g.links[h := g.links[h].(last := p)][p := Link(s, h, NONE)],
       counts := g.counts[s := g.counts[s].(hkv1 := p)],
       stamp := g.stamp[p := t])
  }

  ghost predicate CanPush(g: Graph, s: nat, p: nat, t: nat)
  {
    && GraphOk(g)
    && s in g.owner && s < |g.counts|
    && p != NONE && p !in g.links && FreshStamp(g, t)
    && g.counts[s].hkv1 in g.links
  }

  lemma {:induction false} CanPushHere(g: Graph, s: nat, p: nat, t: nat)
    requires GraphOk(g) && s in g.owner
    requires p != NONE && p !in g.links && FreshStamp(g, t)
    ensures CanPush(g, s, p, t) && 0 < s
    ensures g.counts[s].hkv1 != p && g.counts[s].hkv1 != NONE
  {
    assert SlotOk(g, s);
    assert KeyOk(g, g.counts[s].hkv1);
  }

  lemma {:induction false} PushKeySlot(g: Graph, s: nat, p: nat, t: nat, r: nat)
    requires CanPush(g, s, p, t) && r in g.owner
    ensures SlotOk(PushKey(g, s, p, t), r)
  {
    assert SlotOk(g, r);
    assert SlotOk(g, s);
  }

  lemma {:induction false} PushKeyKey(g: Graph, s: nat, p: nat, t: nat, q: nat)
    requires CanPush(g, s, p, t) && q in PushKey(g, s, p, t).links
    ensures KeyOk(PushKey(g, s, p, t), q)
  {
    assert SlotOk(g, s);
    assert KeyOk(g, g.counts[s].hkv1);
    if q != p { assert KeyOk(g, q); }
  }

  lemma {:induction false} PushKeyOk(g: Graph, s: nat, p: nat, t: nat)
    requires CanPush(g, s, p, t)
    ensures GraphOk(PushKey(g, s, p, t))
  {
    hide SlotOk, KeyOk;
    var g' := PushKey(g, s, p, t);
    forall r | r in g'.owner ensures SlotOk(g', r) { PushKeySlot(g, s, p, t, r); }
    forall q | q in g'.links ensures KeyOk(g', q) { PushKeyKey(g, s, p, t, q); }
    forall l | 0 <= l < |g'.lo| ensures EndsOk(g', l) { assert EndsOk(g, l); }
  }

  lemma {:induction false} PushKeyKeeps(g: Graph, s: nat, p: nat, t: nat)
    requires CanPush(g, s, p, t)
    ensures var g' := PushKey(g, s, p, t);
            && GraphOk(g') && FreshStamp(g', t + 1)
            && Tallies(g') == Tallies(g)[p := (g.owner[s], g.counts[s].count)]
  {
    PushKeyOk(g, s, p, t);
    var g', u := PushKey(g, s, p, t), Tallies(g)[p := (g.owner[s], g.counts[s].count)];
    TalliesAreTally(g);
    hide Tallies;
    forall q | q in u ensures q in g'.links && Tally(g', q) == u[q] { if q != p { assert KeyOk(g, q); } }
    TalliesAgree(g', u);
  }

  /** Whether a node with count c may be placed between prev and next in list l (either may be NONE). */
  ghost predicate Gap(g: Graph, l: nat, prev: nat, next: nat, c: nat)
  {
    && l < |g.lo| == |g.hi|
    && c >= 1
    && (if prev == NONE then g.lo[l] == next
        else prev in g.owner && g.owner[prev] == l && prev < |g.counts| && g.counts[prev].next == next && g.counts[prev].count < c)
    && (if next == NONE then g.hi[l] == prev
        else next in g.owner && g.owner[next] == l && next < |g.counts| && g.counts[next].last == prev && c < g.counts[next].count)
  }

  lemma {:induction false} GapFrame(g: Graph, g': Graph, l: nat, prev: nat, next: nat, c: nat)
    requires Gap(g, l, prev, next, c)
    requires g'.owner == g.owner && g'.lo == g.lo && g'.hi == g.hi && |g'.counts| >= |g.counts| && |g'.counts| > 0
    requires forall s :: s in g.owner && s < |g.counts| ==> g'.counts[s] == g.counts[s]
    ensures Gap(g', l, prev, next, c)
    ensures l < |g'.lo| == |g'.hi| && prev < |g'.counts| && next < |g'.counts|
    ensures (prev != NONE ==> prev in g'.owner) && (next != NONE ==> next in g'.owner)
  {
  }

  /** Link a fresh node s, owning just key p, between prev and next in list l. */
  function NewNode(g: Graph, l: nat, prev: nat, next: nat, s: nat, c: nat, p: nat, t: nat): Graph
    requires l < |g.lo| == |g.hi| && s < |g.counts| && prev < |g.counts| && next < |g.counts|
  {
    var c1 := g.counts[s := Count(c, next, prev, p)];
    var c2 := if prev == NONE then c1 else c1[prev := c1[prev].(next := s)];
    var c3 := if next == NONE then c2 else c2[next := c2[next].(last := s)];
    g.(counts := c3,
       links := g.links[p := Link(s, NONE, NONE)],
       lo := if prev == NONE then g.lo[l := s] else g.lo,
       hi := if next == NONE then g.hi[l := s] else g.hi,
       owner := g.owner[s := l],
       stamp := g.stamp[p := t])
  }

  ghost predicate CanAdd(g: Graph, l: nat, prev: nat, next: nat, s: nat, c: nat, p: nat, t: nat)
  {
    && GraphOk(g) && Gap(g, l, prev, next, c)
    && 0 < s < |g.counts| && s !in g.owner
    && p != NONE && p !in g.links && FreshStamp(g, t)
  }

  lemma {:induction false} NewNodeSelf(g: Graph, l: nat, prev: nat, next: nat, s: nat, c: nat, p: nat, t: nat)
    requires CanAdd(g, l, prev, next, s, c, p, t)
    ensures SlotOk(NewNode(g, l, prev, next, s, c, p, t), s)
  {
    assert EndsOk(g, l);
  }

  lemma {:induction false} NewNodeSlot(g: Graph, l: nat, prev: nat, next: nat, s: nat, c: nat, p: nat, t: nat, r: nat)
    requires CanAdd(g, l, prev, next, s, c, p, t) && r in g.owner
    ensures SlotOk(NewNode(g, l, prev, next, s, c, p, t), r)
  {
    assert SlotOk(g, r);
    hide GraphOk;
    var g' := NewNode(g, l, prev, next, s, c, p, t);
    var n, n' := g.counts[r], g'.counts[r];
    assert n' == n.(next := if r == prev then s else n.next, last := if r == next then s else n.last);
    assert g'.counts[s].next == next && g'.counts[s].last == prev && g'.counts[s].count == c;
    assert n'.next != NONE && n'.next != s ==> g'.counts[n.next].count == g.counts[n.next].count;
  }

  lemma {:induction false} NewNodeKey(g: Graph, l: nat, prev: nat, next: nat, s: nat, c: nat, p: nat, t: nat, q: nat)
    requires CanAdd(g, l, prev, next, s, c, p, t) && (q == p || q in g.links)
    ensures KeyOk(NewNode(g, l, prev, next, s, c, p, t), q)
  {
    if q != p { assert KeyOk(g, q); }
  }

  lemma {:induction false} NewNodeOk(g: Graph, l: nat, prev: nat, next: nat, s: nat, c: nat, p: nat, t: nat)
    requires CanAdd(g, l, prev, next, s, c, p, t)
    ensures GraphOk(NewNode(g, l, prev, next, s, c, p, t))
  {
    hide SlotOk, KeyOk;
    var g' := NewNode(g, l, prev, next, s, c, p, t);
    forall r | r in g'.owner ensures SlotOk(g', r) {
      if r == s { NewNodeSelf(g, l, prev, next, s, c, p, t); } else { NewNodeSlot(g, l, prev, next, s, c, p, t, r); }
    }
    forall q | q in g'.links ensures KeyOk(g', q) { NewNodeKey(g, l, prev, next, s, c, p, t, q); }
    forall m | 0 <= m < |g'.lo| ensures EndsOk(g', m) { assert EndsOk(g, m); }
  }

  lemma {:induction false} NewNodeKeeps(g: Graph, l: nat, prev: nat, next: nat, s: nat, c: nat, p: nat, t: nat)
    requires CanAdd(g, l, prev, next, s, c, p, t)
    ensures var g' := NewNode(g, l, prev, next, s, c, p, t);
            && GraphOk(g') && FreshStamp(g', t + 1)
            && Tallies(g') == Tallies(g)[p := (l, c)]
  {
    NewNodeOk(g, l, prev, next, s, c, p, t);
    var g', u := NewNode(g, l, prev, next, s, c, p, t), Tallies(g)[p := (l, c)];
    TalliesAreTally(g);
    hide Tallies;
    forall q | q in u ensures q in g'.links && Tally(g', q) == u[q] { if q != p { assert KeyOk(g, q); } }
    TalliesAgree(g', u);
  }

  /** Raise the count of node s by one in place. */
  function Bump(g: Graph, s: nat): Graph
    requires s < |g.counts|
  {
    g.(counts := g.counts[s := g.counts[s].(count := g.counts[s].count + 1)])
  }

  /** Node s owns only key p and the next count up is still higher than its successor. */
  ghost predicate CanBump(g: Graph, s: nat, p: nat)
  {
    && GraphOk(g) && s in g.owner && s < |g.counts|
    && g.counts[s].hkv1 == p && p in g.links && g.links[p].next == NONE
    && (g.counts[s].next != NONE ==>
          g.counts[s].next < |g.counts| && g.counts[g.counts[s].next].count > g.counts[s].count + 1)
  }

  lemma {:induction false} BumpOk(g: Graph, s: nat, p: nat)
    requires CanBump(g, s, p)
    ensures GraphOk(Bump(g, s))
  {
    var g' := Bump(g, s);
    assert SlotOk(g, s);
    forall r | r in g'.owner ensures SlotOk(g', r) { assert SlotOk(g, r); }
    forall q | q in g'.links ensures KeyOk(g', q) { assert KeyOk(g, q); }
    forall l | 0 <= l < |g'.lo| ensures EndsOk(g', l) { assert EndsOk(g, l); }
  }

  lemma {:induction false} BumpKeeps(g: Graph, s: nat, p: nat)
    requires CanBump(g, s, p)
    ensures var g' := Bump(g, s);
            && GraphOk(g')
            && Tallies(g') == Tallies(g)[p := (Tally(g, p).0, Tally(g, p).1 + 1)]
  {
    BumpOk(g, s, p);
    var g', u := Bump(g, s), Tallies(g)[p := (Tally(g, p).0, Tally(g, p).1 + 1)];
    assert SlotOk(g, s);
    TalliesAreTally(g);
    hide Tallies;
    forall q | q in u ensures Tally(g', q) == u[q] {
      assert KeyOk(g, q);
      if q != p && g.links[q].slot == s { SoleKey(g, s, q); }
    }
    TalliesAgree(g', u);
  }

  /** The first key of a chain without a successor is the only key of its node. */
  lemma {:induction false} SoleKey(g: Graph, s: nat, q: nat)
    requires GraphOk(g) && s in g.owner && s < |g.counts|
    requires q in g.links && g.links[q].slot == s
    requires g.counts[s].hkv1 in g.links && g.links[g.counts[s].hkv1].next == NONE
    ensures q == g.counts[s].hkv1
  {
    ChainUp(g, q);
  }

  /** Walking a chain towards its head ends at the head: every key but the head has a newer successor of the head. */
  lemma {:induction false} ChainUp(g: Graph, q: nat)
    requires GraphOk(g) && q in g.links
    ensures g.links[q].slot in g.owner && g.links[q].slot < |g.counts|
    ensures var h := g.counts[g.links[q].slot].hkv1;
            && h in g.links && h in g.stamp && q in g.stamp && g.stamp[q] <= g.stamp[h]
            && (q != h ==> g.links[h].next != NONE && g.stamp[q] < g.stamp[h])
    decreases MaxStamp(g.stamp) - (if q in g.stamp then g.stamp[q] else 0)
  {
    assert KeyOk(g, q);
    var s := g.links[q].slot;
    assert SlotOk(g, s);
    var r := g.links[q].last;
    if r != NONE {
      assert KeyOk(g, r);
      NewestBounds(g, q); NewestBounds(g, r);
      ChainUp(g, r);
    }
  }

  /** A bound on all stamps, for termination. */
  ghost function MaxStamp(m: map<nat, nat>): (b: nat)
    ensures forall q :: q in m ==> m[q] <= b
  {
    if m == map[] then 0 else
    var q :| q in m;
    var rest := MaxStamp(m - {q});
    assert forall r :: r in m && r != q ==> r in m - {q} && m[r] == (m - {q})[r];
    if rest < m[q] then m[q] else rest
  }

  lemma {:induction false} NewestBounds(g: Graph, q: nat)
    requires GraphOk(g) && q in g.links
    ensures q in g.stamp && g.stamp[q] <= MaxStamp(g.stamp)
  {
    assert KeyOk(g, q);
  }

  /** The neighbours of p in its chain are other keys. */
  predicate InChain(links: map<nat, Link>, p: nat) {
    && p in links
    && (links[p].next != NONE ==> links[p].next in links && links[p].next != p)
    && (links[p].last != NONE ==> links[p].last in links && links[p].last != p && links[p].last != links[p].next)
  }

  /** The links without p, its neighbours joined to one another. */
  function Around(links: map<nat, Link>, p: nat): map<nat, Link>
    requires InChain(links, p)
  {
    var k := links[p];
    var l1 := if k.next == NONE then links else links[k.next := links[k.next].(last := k.last)];
    var l2 := if k.last == NONE then l1 else l1[k.last := l1[k.last].(next := k.next)];
    l2 - {p}
  }

  /** Take key p out of its chain. */
  function UnlinkKey(g: Graph, p: nat): (r: Graph)
    requires InChain(g.links, p) && g.links[p].slot < |g.counts|
  {
    var k := g.links[p];
    var n := g.counts[k.slot];
    g.(links := Around(g.links, p),
       counts := if n.hkv1 == p then g.counts[k.slot := n.(hkv1 := k.next)] else g.counts,
       stamp := g.stamp - {p})
  }

  /** Take node s out of its list. */
  function UnlinkNode(g: Graph, s: nat): Graph
    requires s in g.owner && s < |g.counts| && |g.lo| == |g.hi| && g.owner[s] < |g.lo|
    requires g.counts[s].next < |g.counts| && g.counts[s].last < |g.counts|
  {
    var n := g.counts[s];
    var l := g.owner[s];
    var c1 := if n.next == NONE then g.counts else g.counts[n.next := g.counts[n.next].(last := n.last)];
    var c2 := if n.last == NONE then c1 else c1[n.last := c1[n.last].(next := n.next)];
    g.(counts := c2,
       lo := if n.last == NONE then g.lo[l := n.next] else g.lo,
       hi := if n.next == NONE then g.hi[l := n.last] else g.hi,
       owner := g.owner - {s})
  }

  /** What the fields around a key look like when it is about to leave its chain. */
  ghost predicate LeaveShape(g: Graph, p: nat) {
    && InChain(g.links, p)
    && var k := g.links[p];
    && k.slot in g.owner && 0 < k.slot < |g.counts|
    && |g.lo| == |g.hi| && g.owner[k.slot] < |g.lo|
    && var n := g.counts[k.slot];
    && (n.hkv1 == p <==> k.last == NONE) && n.hkv1 != NONE
    && n.next < |g.counts| && n.last < |g.counts|
    && (n.next != NONE ==> n.next in g.owner && n.next != k.slot)
    && (n.last != NONE ==> n.last in g.owner && n.last != k.slot && n.last != n.next)
    && (n.last == NONE ==> g.lo[g.owner[k.slot]] == k.slot)
  }

  lemma {:induction false} LeaveReady(g: Graph, p: nat)
    requires GraphOk(g) && p in g.links
    ensures LeaveShape(g, p)
    ensures g.links[p].slot in g.owner && g.links[p].slot < |g.counts| && g.counts[g.links[p].slot].next < |g.counts|
    ensures if g.links[p].next == NONE && g.links[p].last == NONE then CanDrop(g, p) else CanUnlink(g, p)
  {
    assert KeyOk(g, p);
    var k := g.links[p];
    assert SlotOk(g, k.slot);
    assert KeyOk(g, g.counts[k.slot].hkv1);
    if k.next != NONE { assert KeyOk(g, k.next); }
    if k.last != NONE { assert KeyOk(g, k.last); }
    var n := g.counts[k.slot];
    if n.next != NONE { assert SlotOk(g, n.next); }
    if n.last != NONE { assert SlotOk(g, n.last); }
  }

  /** Key p is alone in the highest node of its list. */
  predicate IsTopAlone(g: Graph, p: nat)
    requires p in g.links && g.links[p].slot < |g.counts|
  {
    g.links[p].next == NONE && g.links[p].last == NONE && g.counts[g.links[p].slot].next == NONE
  }

  /** The same graph, apart from slots that no list owns. */
  ghost predicate SameLive(g: Graph, g': Graph) {
    && g'.links == g.links && g'.lo == g.lo && g'.hi == g.hi && g'.owner == g.owner && g'.stamp == g.stamp
    && |g'.counts| == |g.counts|
    && forall s :: s in g.owner && s < |g.counts| ==> g'.counts[s] == g.counts[s]
  }

  lemma {:induction false} SameLiveKeeps(g: Graph, g': Graph)
    requires GraphOk(g) && SameLive(g, g')
    ensures GraphOk(g') && Tallies(g') == Tallies(g)
  {
    FrameKeeps(g, g'.counts);
    assert g' == g.(counts := g'.counts);
  }

  ghost predicate CanUnlink(g: Graph, p: nat)
  {
    && GraphOk(g) && InChain(g.links, p) && KeyOk(g, p)
    && (g.links[p].next != NONE || g.links[p].last != NONE)
  }

  lemma {:induction false} UnlinkKeySlot(g: Graph, p: nat, r: nat)
    requires CanUnlink(g, p) && r in g.owner
    ensures SlotOk(UnlinkKey(g, p), r)
  {
    assert SlotOk(g, r);
    assert KeyOk(g, g.counts[r].hkv1);
    if g.links[p].next != NONE { assert KeyOk(g, g.links[p].next); }
  }

  lemma {:induction false} UnlinkKeyKey(g: Graph, p: nat, q: nat)
    requires CanUnlink(g, p) && q in g.links && q != p
    ensures KeyOk(UnlinkKey(g, p), q)
  {
    assert KeyOk(g, q);
    var k := g.links[p];
    if k.next != NONE { assert KeyOk(g, k.next); }
    if k.last != NONE { assert KeyOk(g, k.last); }
  }

  lemma {:induction false} UnlinkKeyOk(g: Graph, p: nat)
    requires CanUnlink(g, p)
    ensures GraphOk(UnlinkKey(g, p))
  {
    var g' := UnlinkKey(g, p);
    hide SlotOk, KeyOk;
    forall r | r in g'.owner ensures SlotOk(g', r) { UnlinkKeySlot(g, p, r); }
    forall q | q in g'.links ensures KeyOk(g', q) { UnlinkKeyKey(g, p, q); }
    forall l | 0 <= l < |g'.lo| ensures EndsOk(g', l) { assert EndsOk(g, l); }
  }

  lemma {:induction false} UnlinkKeyKeeps(g: Graph, p: nat)
    requires CanUnlink(g, p)
    ensures var g' := UnlinkKey(g, p);
            && GraphOk(g')
            && Tallies(g') == Tallies(g) - {p}
  {
    UnlinkKeyOk(g, p);
    var g', u := UnlinkKey(g, p), Tallies(g) - {p};
    TalliesAreTally(g);
    hide Tallies;
    forall q | q in u ensures q in g'.links && Tally(g', q) == u[q] { assert KeyOk(g, q); }
    TalliesAgree(g', u);
  }

  /** Key p is the only key of its node. */
  ghost predicate CanDrop(g: Graph, p: nat)
  {
    && GraphOk(g) && p in g.links && KeyOk(g, p) && SlotOk(g, g.links[p].slot)
    && g.links[p].next == NONE && g.links[p].last == NONE
    && g.counts[g.links[p].slot].next < |g.counts| && g.counts[g.links[p].slot].last < |g.counts|
  }

  function DropNode(g: Graph, p: nat): Graph
    requires p in g.links && g.links[p].slot < |g.counts| && g.links[p].slot in g.owner
    requires g.links[p].next == NONE && g.links[p].last == NONE
    requires |g.lo| == |g.hi| && g.owner[g.links[p].slot] < |g.lo|
    requires g.counts[g.links[p].slot].next < |g.counts| && g.counts[g.links[p].slot].last < |g.counts|
  {
    UnlinkNode(UnlinkKey(g, p), g.links[p].slot)
  }

  lemma {:induction false} DropNodeSlot(g: Graph, p: nat, r: nat)
    requires CanDrop(g, p) && r in g.owner && r != g.links[p].slot
    ensures SlotOk(DropNode(g, p), r)
  {
    assert SlotOk(g, r);
    var s := g.links[p].slot;
    var n := g.counts[s];
    if n.next != NONE { assert SlotOk(g, n.next); }
    if n.last != NONE { assert SlotOk(g, n.last); }
    hide GraphOk;
    var g' := DropNode(g, p);
    var m := g.counts[r];
    assert g'.counts[r] == m.(next := if r == n.last then n.next else m.next, last := if r == n.next then n.last else m.last);
  }

  lemma {:induction false} DropNodeKey(g: Graph, p: nat, q: nat)
    requires CanDrop(g, p) && q in g.links && q != p
    ensures KeyOk(DropNode(g, p), q)
    ensures g.links[q].slot != g.links[p].slot
  {
    assert KeyOk(g, q);
    var s := g.links[p].slot;
    if g.links[q].slot == s { SoleKey(g, s, q); }
  }

  lemma {:induction false} DropNodeEnds(g: Graph, p: nat, l: nat)
    requires CanDrop(g, p) && l < |g.lo|
    ensures EndsOk(DropNode(g, p), l)
  {
    assert EndsOk(g, l);
  }

  lemma {:induction false} DropNodeOk(g: Graph, p: nat)
    requires CanDrop(g, p)
    ensures GraphOk(DropNode(g, p))
  {
    var g' := DropNode(g, p);
    hide SlotOk, KeyOk;
    forall r | r in g'.owner ensures SlotOk(g', r) { DropNodeSlot(g, p, r); }
    forall q | q in g'.links ensures KeyOk(g', q) { DropNodeKey(g, p, q); }
    forall l | 0 <= l < |g'.lo| ensures EndsOk(g', l) { DropNodeEnds(g, p, l); }
  }

  lemma {:induction false} DropNodeKeeps(g: Graph, p: nat)
    requires CanDrop(g, p)
    ensures var g' := DropNode(g, p);
            && GraphOk(g')
            && Tallies(g') == Tallies(g) - {p}
  {
    DropNodeOk(g, p);
    var g', u := DropNode(g, p), Tallies(g) - {p};
    TalliesAreTally(g);
    hide Tallies;
    forall q | q in u ensures q in g'.links && Tally(g', q) == u[q] { assert KeyOk(g, q); DropNodeKey(g, p, q); }
    TalliesAgree(g', u);
  }

  // ---------------------------------------------------------------- climbing one count

  /** Key p is alone in its node, and no node has the next count up: raising the node in place will do. */
  predicate CanClimbAlone(g: Graph, p: nat)
    requires p in g.links && g.links[p].slot < |g.counts| && g.counts[g.links[p].slot].next < |g.counts|
  {
    var n := g.counts[g.links[p].slot];
    && n.hkv1 == p && g.links[p].next == NONE
    && (n.next == NONE || g.counts[n.next].count > n.count + 1)
  }

  lemma {:induction false} ClimbAloneOk(g: Graph, p: nat)
    requires GraphOk(g) && LeaveShape(g, p) && CanClimbAlone(g, p)
    ensures CanBump(g, g.links[p].slot, p)
  {
  }

  /** After a key has left other keys behind, there is room above their node for one with the next count, unless it exists. */
  lemma {:induction false} RoomAfterUnlink(g: Graph, p: nat)
    requires CanUnlink(g, p) && LeaveShape(g, p)
    ensures var c := g.links[p].slot;
            var next, up := g.counts[c].next, g.counts[c].count + 1;
            var g' := UnlinkKey(g, p);
            if next != NONE && g.counts[next].count == up then
              next in g'.owner && g'.owner[next] == g.owner[c] && g'.counts[next].count == up
            else
              Gap(g', g.owner[c], c, next, up)
  {
    var c := g.links[p].slot;
    assert SlotOk(g, c);
  }

  /** A node that is taken out has a successor with exactly the next count up. */
  lemma {:induction false} NextAfterDrop(g: Graph, p: nat)
    requires CanDrop(g, p) && LeaveShape(g, p) && !IsTopAlone(g, p) && !CanClimbAlone(g, p)
    ensures var c := g.links[p].slot;
            var next, up := g.counts[c].next, g.counts[c].count + 1;
            var g' := DropNode(g, p);
            next != NONE && g.counts[next].count == up
            && next in g'.owner && g'.owner[next] == g.owner[c] && g'.counts[next].count == up
  {
    var c := g.links[p].slot;
    assert SlotOk(g, c);
  }

  /** Below the low end of a list there is room for a node with count 1, unless the low end has that count. */
  lemma {:induction false} LowEnd(g: Graph, l: nat)
    requires GraphOk(g) && l < |g.lo|
    ensures var low := g.lo[l];
            if low == NONE then Gap(g, l, NONE, NONE, 1)
            else
              && low in g.owner && g.owner[low] == l && low < |g.counts|
              && (if g.counts[low].count > 1 then Gap(g, l, NONE, low, 1) else g.counts[low].count == 1)
  {
    assert EndsOk(g, l);
    if g.lo[l] != NONE { assert SlotOk(g, g.lo[l]); }
  }
}
