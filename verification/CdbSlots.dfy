module CdbSlots {
  // The slot allocator of count nodes: pages of slots, and a singly linked list of free
  // slots threaded through the `next` field.  The list is only as long as its count
  // says; what the `next` of its last slot holds is stale.

  import opened Sequences
  import opened CdbCounts

  const PAGE: nat := 4096
  const COUNT_BYTES: nat := 18

  /** The slots that fit in so many pages, slot 0 included. */
  function Capacity(pages: nat): nat {
    PAGE * pages / COUNT_BYTES
  }

  /** As many slots of 18 bytes as fit in the pages, and no more. */
  lemma {:induction false} CapacityIsMost(pages: nat)
    ensures 18 * Capacity(pages) <= 4096 * pages < 18 * (Capacity(pages) + 1)
  {
  }

  ghost predicate Threaded(counts: seq<Count>, free: seq<nat>, i: nat) {
    i + 1 < |free| && free[i] < |counts| && counts[free[i]].next == free[i + 1]
  }

  /** The free list as the program sees it: its first slot, its length, and the slots it runs through. */
  ghost predicate FreeListOk(counts: seq<Count>, first: nat, n: nat, free: seq<nat>) {
    && |free| == n
    && (n > 0 ==> first == free[0])
    && (forall i :: 0 <= i < n ==> 0 < free[i] < |counts|)
    && (forall i {:trigger Threaded(counts, free, i)} :: 0 <= i < n - 1 ==> Threaded(counts, free, i))
    && (forall i, j :: 0 <= i < j < n ==> free[i] != free[j])
  }

  /** Every slot but slot 0 is either live or free, never both, and the two totals say how many of each. */
  ghost predicate SlotsOk(counts: seq<Count>, owner: map<nat, nat>, first: nat, n: nat, used: nat, pages: nat,
          free: seq<nat>) {
    && FreeListOk(counts, first, n, free)
    && |counts| == Capacity(pages)
    && (forall s :: s in owner ==> 0 < s < |counts| && s !in free)
    && (forall s :: 0 < s < |counts| ==> s in owner || s in free)
    && used == |owner|
  }

  /** Used plus free slots are all slots but slot 0. */
  lemma {:induction false} TotalsAddUp(counts: seq<Count>, owner: map<nat, nat>, first: nat, n: nat, used: nat,
          pages: nat, free: seq<nat>)
    requires SlotsOk(counts, owner, first, n, used, pages, free)
    ensures pages > 0 ==> used + n == |counts| - 1
    ensures pages == 0 ==> used == 0 && n == 0
  {
    if pages > 0 { CapacityGrows(pages - 1); }
    DistinctSize(free);
    PartitionSize(owner.Keys, Elements(free), |counts|);
  }

  lemma {:induction false} PartitionSize(a: set<nat>, b: set<nat>, n: nat)
    requires a !! b && forall s :: s in a || s in b <==> 0 < s < n
    ensures |a| + |b| == if n == 0 then 0 else n - 1
  {
    assert a + b == SlotsBelow(n);
    assert |a + b| == |a| + |b|;
  }

  /** Every page holds slots to spare, and there is room for slot 0 in the first. */
  lemma {:induction false} CapacityGrows(pages: nat)
    ensures Capacity(pages) + 227 <= Capacity(pages + 1) <= Capacity(pages) + 228
  {
    assert PAGE * (pages + 1) == PAGE * pages + PAGE;
  }

  lemma {:induction false} CapacityFits(pages: nat)
    requires pages < 0x10_0000
    ensures Capacity(pages) < 0x1_0000_0000
  {
    assert PAGE * pages < PAGE * 0x10_0000;
  }

  ghost function SlotsBelow(n: nat): (r: set<nat>)
    ensures forall s :: s in r <==> 0 < s < n
    ensures |r| == if n == 0 then 0 else n - 1
  {
    if n <= 1 then {} else SlotsBelow(n - 1) + {n - 1}
  }

  /** The counts after slot s is put at the front of the free list. */
  function Released(counts: seq<Count>, first: nat, s: nat): seq<Count>
    requires s < |counts|
  {
    counts[s := counts[s].(next := first)]
  }

  lemma {:induction false} ReleaseKeeps(counts: seq<Count>, first: nat, n: nat, free: seq<nat>, s: nat)
    requires FreeListOk(counts, first, n, free)
    requires 0 < s < |counts| && s !in free
    ensures FreeListOk(Released(counts, first, s), s, n + 1, [s] + free)
  {
    var counts', free' := Released(counts, first, s), [s] + free;
    forall i | 0 <= i < n ensures Threaded(counts', free', i) {
      if i > 0 { assert Threaded(counts, free, i - 1); }
    }
  }

  lemma {:induction false} TakeKeeps(counts: seq<Count>, first: nat, n: nat, free: seq<nat>)
    requires FreeListOk(counts, first, n, free) && n > 0
    ensures FreeListOk(counts, counts[first].next, n - 1, free[1..])
  {
    var free' := free[1..];
    if n > 1 { assert Threaded(counts, free, 0); }
    forall i | 0 <= i < n - 2 ensures Threaded(counts, free', i) {
      assert Threaded(counts, free, i + 1);
    }
  }

  /** Live slots may change as they like. */
  lemma {:induction false} LiveSlotsAreFree(counts: seq<Count>, counts': seq<Count>, owner: map<nat, nat>,
          first: nat, n: nat, used: nat, pages: nat, free: seq<nat>)
    requires SlotsOk(counts, owner, first, n, used, pages, free)
    requires |counts'| == |counts| && forall s :: s in free ==> counts'[s].next == counts[s].next
    ensures SlotsOk(counts', owner, first, n, used, pages, free)
  {
    forall i | 0 <= i < n - 1 ensures Threaded(counts', free, i) {
      assert Threaded(counts, free, i);
    }
  }

  /** A live slot put on the free list is no longer live. */
  lemma {:induction false} DropKeeps(counts: seq<Count>, owner: map<nat, nat>, first: nat, n: nat, used: nat,
          pages: nat, free: seq<nat>,
                  counts': seq<Count>, first': nat, n': nat, free': seq<nat>, s: nat)
    requires SlotsOk(counts, owner, first, n, used, pages, free) && s in owner
    requires FreeListOk(counts', first', n', free') && |counts'| == |counts|
    requires forall r :: r in free' <==> r in free || r == s
    ensures used > 0 && SlotsOk(counts', owner - {s}, first', n', used - 1, pages, free')
  {
    assert owner.Keys - {s} == (owner - {s}).Keys;
    assert |owner - {s}| == |(owner - {s}).Keys|;
  }
}
