module CdbUse {
  // What a user of an instance sees from start to end: keys are counted as they come, and a
  // walk lists them by how often they came.

  import opened Bytes
  import opened CdbRecord
  import opened CdbCounts
  import opened CdbLog
  import opened CdbIndex
  import opened CdbRuns
  import opened CdbSlots
  import opened CdbInstance
  import opened CdbPositions
  import W = CdbWalk

  /** All keys are counters of list l, and they are the first n of these keys, each with the times it occurs there. */
  ghost predicate Counted(s: Snapshot, l: nat, ks: seq<seq<byte>>, n: nat)
    requires n <= |ks|
  {
    && s.Counters().Keys == s.dir.Keys
    && (forall k {:trigger TimesAsked(ks, k, n)} :: k in s.Counters() <==> TimesAsked(ks, k, n) > 0)
    && (forall k {:trigger TimesAsked(ks, k, n)} :: k in s.Counters() ==> s.Counters()[k] == (l, TimesAsked(ks, k, n)))
  }

  lemma {:induction false} NoMoreThanAll(ks: seq<seq<byte>>, k: seq<byte>, n: nat)
    requires n <= |ks|
    ensures TimesAsked(ks, k, n) <= n
  {
    if n > 0 { NoMoreThanAll(ks, k, n - 1); }
  }

  /** An increment that succeeds counts the next key; one that fails is of a key that cannot be stored. */
  lemma {:induction false} OneMore(a: Snapshot, b: Snapshot, l: nat, ks: seq<seq<byte>>, n: nat, count: nat)
    requires n < |ks| && Counted(a, l, ks, n) && IncStep(a, b, ks[n], l, count)
    ensures if count > 0 then Counted(b, l, ks, n + 1) && count == TimesAsked(ks, ks[n], n + 1)
            else Counted(b, l, ks, n) && ks[n] !in b.dir
  {
    var k := ks[n];
    hide Later;
    assert k in a.Counters() <==> TimesAsked(ks, k, n) > 0;
    if count > 0 {
      var c, c' := a.Counters(), b.Counters();
      assert c' == c[k := (l, count)] && c'.Keys == c.Keys + {k};
      assert b.dir.Keys == a.dir.Keys + {k};
      assert count == TimesAsked(ks, k, n + 1);
      forall j ensures j in c' <==> TimesAsked(ks, j, n + 1) > 0 { assert j in c <==> TimesAsked(ks, j, n) > 0; }
      forall j | j in c' ensures c'[j] == (l, TimesAsked(ks, j, n + 1)) {
        if j != k { assert c[j] == (l, TimesAsked(ks, j, n)); }
      }
    }
  }

  // ---------------------------------------------------------------- counting keys

  /**
   * Why a key is not counted: its size, sizes that wrap at 2^32, or both its rows are full
   * and there are as many sheets as there can be.
   */
  ghost predicate CannotCount(inst: Instance, k: seq<byte>)
    requires inst.IndexPart()
    reads inst
  {
    || inst.countsPages + 1 >= PAGES_MAX || !inst.Fits(|k|, LINK_BYTES)
    || inst.Refuses(|k|, LINK_BYTES) || inst.NoRoom(Prepare(inst.hash, k))
  }

  lemma {:induction false} MayCount(inst: Instance, l: nat, ks: seq<seq<byte>>, n: nat)
    requires inst.Valid() && l < LISTS && n < |ks| < COUNT_MAX
    requires Counted(inst.Snap(), l, ks, n) && inst.countsPages + 1 < PAGES_MAX
    ensures inst.CanInc(ks[n], l)
  {
    hide IndexOk, LogOk, SlotsOk, LinksStored, Keyed, GraphOk, Tallies, HeaderLen, GrownSize;
    var k, s := ks[n], inst.Snap();
    if k in inst.dir {
      NoMoreThanAll(ks, k, n);
      assert k in s.Counters() && TimesAsked(ks, k, n) > 0;
      inst.KeysOfTallies();
      assert s.tallies[inst.dir[k].pos] == s.Counters()[k] == (l, TimesAsked(ks, k, n));
    }
  }

  /** Count the next key, if it can be counted. */
  method CountNext(inst: Instance, l: nat, ks: seq<seq<byte>>, n: nat, junk: seq<byte>) returns (counted: bool)
    requires inst.Valid() && n < |ks| < COUNT_MAX && Counted(inst.Snap(), l, ks, n)
    requires l < LISTS && |junk| == LINK_BYTES
    modifies inst
    ensures inst.Valid() && Counted(inst.Snap(), l, ks, if counted then n + 1 else n)
    ensures !counted ==> CannotCount(inst, ks[n])
  {
    hide IndexOk, LogOk, SlotsOk, LinksStored, Keyed, GraphOk, Tallies, HeaderLen, GrownSize, Counted, IncStep, UsedIn;
    var k := ks[n];
    counted := inst.countsPages + 1 < PAGES_MAX;
    if counted {
      MayCount(inst, l, ks, n);
      ghost var s := inst.Snap();
      var count, ok := inst.Inc(Prepare(inst.hash, k), l, junk);
      OneMore(s, inst.Snap(), l, ks, n, count);
      counted := count > 0;
    }
  }

  /** Count keys as they come, until all are counted or one cannot be. */
  method CountAll(inst: Instance, l: nat, ks: seq<seq<byte>>, junk: seq<byte>) returns (done: nat)
    requires inst.Valid() && Counted(inst.Snap(), l, ks, 0)
    requires l < LISTS && |ks| < COUNT_MAX && |junk| == LINK_BYTES
    modifies inst
    ensures inst.Valid() && done <= |ks| && Counted(inst.Snap(), l, ks, done)
    ensures done < |ks| ==> CannotCount(inst, ks[done])
  {
    hide IndexOk, LogOk, SlotsOk, LinksStored, Keyed, GraphOk, Tallies, Counted, CannotCount;
    done := 0;
    var more := true;
    while done < |ks| && more
      invariant inst.Valid() && done <= |ks| && Counted(inst.Snap(), l, ks, done)
      invariant !more ==> done < |ks| && CannotCount(inst, ks[done])
      decreases |ks| - done, more
    {
      more := CountNext(inst, l, ks, done, junk);
      done := if more then done + 1 else done;
    }
  }

  // ---------------------------------------------------------------- listing them

  lemma {:induction false} VisitsUnfold(g: Graph, l: nat, down: bool, w: W.Pos)
    requires GraphOk(g) && W.PosOk(g, l, w) && w != W.END
    ensures w.hkv != NONE && w.hkv in g.links && w.cnt < |g.counts|
    ensures W.PosOk(g, l, W.Next(g, down, w))
    ensures W.Ahead(g, l, down, W.Next(g, down, w)) < W.Ahead(g, l, down, w)
    ensures W.Visits(g, l, down, w) == [w.hkv] + W.Visits(g, l, down, W.Next(g, down, w))
  {
    W.StepTakesOne(g, l, down, w);
  }

  lemma {:induction false} VisitsEnd(g: Graph, l: nat, down: bool)
    requires GraphOk(g)
    ensures W.PosOk(g, l, W.END) && W.Visits(g, l, down, W.END) == []
  {
  }

  /** What walking list l from w on visits. */
  ghost function Rest(g: Graph, l: nat, down: bool, w: W.Pos): seq<nat>
    requires GraphOk(g)
  {
    if W.PosOk(g, l, w) then W.Visits(g, l, down, w) else []
  }

  /** These keys have been visited, with their true counts, and those are still to be. */
  ghost predicate Visited(g: Graph, l: nat, visits: seq<nat>, counts: seq<nat>, rest: seq<nat>, all: seq<nat>) {
    && |counts| == |visits| && visits + rest == all
    && forall i :: 0 <= i < |visits| ==> visits[i] in Tallies(g) && Tallies(g)[visits[i]] == (l, counts[i])
  }

  lemma {:induction false} OneVisited(g: Graph, l: nat, visits: seq<nat>, counts: seq<nat>, key: nat, count: nat,
          rest: seq<nat>, all: seq<nat>)
    requires Visited(g, l, visits, counts, [key] + rest, all)
    requires key in Tallies(g) && Tallies(g)[key] == (l, count)
    ensures Visited(g, l, visits + [key], counts + [count], rest, all)
  {
    hide Tallies;
    assert visits + ([key] + rest) == visits + [key] + rest;
  }

  /** One call of a walk: the first of what is still to be visited, or the end. */
  method WalkOn(inst: Instance, l: nat, down: bool, at: W.Pos, beyond: Memory, outside: nat -> Count,
          ghost w: W.Pos, ghost g: Graph)
    returns (key: nat, count: nat, next: W.Pos)
    requires inst.LogPart() && inst.CounterPart() && l < LISTS && g == inst.Graph() && W.PosOk(g, l, at)
    requires w == if at == W.END then W.Start(g, l, down) else at
    ensures W.PosOk(g, l, next)
    ensures if key == 0 then next == W.END && Rest(g, l, down, w) == []
            else
              && |Rest(g, l, down, next)| < |Rest(g, l, down, w)| && Rest(g, l, down, w) == [key] + Rest(g, l, down, next)
              && key in Tallies(g) && Tallies(g)[key] == (l, count)
  {
    assert |g.lo| == |g.hi| == LISTS;
    W.StartSeesAll(g, l, down);
    VisitsEnd(g, l, down);
    hide LogOk, SlotsOk, LinksStored, Keyed, Tallies, W.Start, W.Next, W.Visits, W.Ahead, VisitAt;
    hide GraphOk, W.PosOk;
    if at != W.END { StandsAtNode(g, l, at); }
    key, count, next := inst.Walk(down, at, l, beyond, outside);
    if w != W.END { VisitsUnfold(g, l, down, w); }
  }

  lemma {:induction false} StandsAtNode(g: Graph, l: nat, w: W.Pos)
    requires GraphOk(g) && W.PosOk(g, l, w) && w != W.END
    ensures w.cnt != NONE
  {
  }

  /**
   * Call walk until it is back where it began: every counter key of the list, once, with its
   * count, whatever is in the memory behind that of the instance.
   */
  method WalkAll(inst: Instance, l: nat, down: bool, beyond: Memory, outside: nat -> Count)
    returns (visits: seq<nat>, counts: seq<nat>)
    requires inst.LogPart() && inst.CounterPart() && l < LISTS
    ensures Visited(inst.Graph(), l, visits, counts, [], Rest(inst.Graph(), l, down, W.Start(inst.Graph(), l, down)))
  {
    visits, counts := [], [];
    ghost var g := inst.Graph();
    assert |g.lo| == |g.hi| == LISTS;
    VisitsEnd(g, l, down);
    ghost var start := W.Start(g, l, down);
    ghost var w, all := start, Rest(g, l, down, start);
    assert Visited(g, l, visits, counts, all, all);
    hide *;
    var at, more := W.END, true;
    while more
      invariant W.PosOk(g, l, at) && (more ==> w == if at == W.END then start else at)
      invariant !more ==> Rest(g, l, down, w) == []
      invariant Visited(g, l, visits, counts, Rest(g, l, down, w), all)
      decreases more, |Rest(g, l, down, w)|
    {
      var key, count;
      key, count, at := WalkOn(inst, l, down, at, beyond, outside, w, g);
      if key != 0 {
        OneVisited(g, l, visits, counts, key, count, Rest(g, l, down, at), all);
        visits, counts := visits + [key], counts + [count];
        w := at;
      }
      more := at != W.END;
    }
  }

  // ---------------------------------------------------------------- keys by how often they came

  lemma {:induction false} PlaceOfKey(inst: Instance, k: seq<byte>)
    requires inst.Valid() && k in inst.Snap().Counters()
    ensures k in inst.dir && inst.dir[k].pos in inst.log && inst.log[inst.dir[k].pos].key == k
    ensures inst.dir[k].pos in Tallies(inst.Graph()) && Tallies(inst.Graph())[inst.dir[k].pos] == inst.Snap().Counters()[k]
  {
    inst.TalliesInLog();
    assert HomeOk(inst.hash, inst.sheetsIndex, inst.sheets, inst.dir, inst.at, k);
    hide IndexOk, LogOk, SlotsOk, LinksStored, GraphOk, Tallies;
    var r := inst.log[inst.dir[k].pos];
  }

  lemma {:induction false} KeyOfPlace(inst: Instance, p: nat)
    requires inst.Valid() && p in Tallies(inst.Graph())
    ensures p in inst.log && inst.log[p].key in inst.dir && inst.dir[inst.log[p].key].pos == p
    ensures inst.log[p].key in inst.Snap().Counters() && inst.Snap().Counters()[inst.log[p].key] == Tallies(inst.Graph())[p]
  {
    inst.TalliesInLog();
    var r := inst.log[p];
    assert inst.at[p] == r.key;
    assert inst.at[p] in inst.dir && inst.dir[inst.at[p]].pos == p;
    hide IndexOk, LogOk, SlotsOk, LinksStored, GraphOk, Tallies;
  }

  /** The key bytes of the record at a position. */
  method KeyAt(inst: Instance, p: nat) returns (k: seq<byte>)
    requires inst.LogPart() && p in inst.log
    ensures k == inst.log[p].key
  {
    var r := inst.log[p];
    assert EntryOk(inst.kvdata, inst.kvdataUsed, inst.log, p);
    hide LogOk;
    UnpackFindsRecord(inst.kvdata, p, r);
    var part := Unpack(inst.kvdata, p);
    k := inst.kvdata[p + part.headerLen..p + part.headerLen + part.keyLen];
  }

  /** These are the keys of the records at these positions. */
  ghost predicate KeysOfRecords(log: Log, visits: seq<nat>, keys: seq<seq<byte>>) {
    |keys| == |visits| && forall i :: 0 <= i < |visits| ==> visits[i] in log && keys[i] == log[visits[i]].key
  }

  method KeysAt(inst: Instance, visits: seq<nat>) returns (keys: seq<seq<byte>>)
    requires inst.LogPart() && forall i :: 0 <= i < |visits| ==> visits[i] in inst.log
    ensures KeysOfRecords(inst.log, visits, keys)
  {
    hide LogOk, Keyed;
    keys := [];
    while |keys| < |visits|
      invariant |keys| <= |visits| && forall i :: 0 <= i < |keys| ==> keys[i] == inst.log[visits[i]].key
    {
      var k := KeyAt(inst, visits[|keys|]);
      keys := keys + [k];
    }
  }

  /** Keys in the order of how often they are among the first n of ks: all that are, each once, with that number. */
  ghost predicate IsRanking(keys: seq<seq<byte>>, counts: seq<nat>, ks: seq<seq<byte>>, n: nat, down: bool)
    requires n <= |ks|
  {
    && |counts| == |keys|
    && (forall i :: 0 <= i < |keys| ==> counts[i] == TimesAsked(ks, keys[i], n) > 0)
    && (forall i, j :: 0 <= i < j < |keys| ==> keys[i] != keys[j] && if down then counts[i] >= counts[j] else counts[i] <= counts[j])
    && (forall k {:trigger TimesAsked(ks, k, n)} :: TimesAsked(ks, k, n) > 0 ==> k in keys)
  }

  /** What a walk visits is in the order of the counts, each counter once. */
  lemma {:induction false} VisitedInOrder(g: Graph, l: nat, down: bool, visits: seq<nat>, counts: seq<nat>)
    requires GraphOk(g) && l < |g.lo|
    requires Visited(g, l, visits, counts, [], Rest(g, l, down, W.Start(g, l, down)))
    ensures Visited(g, l, visits, counts, [], visits) && |counts| == |visits|
    ensures forall p {:trigger p in visits} :: p in visits <==> p in Tallies(g) && Tallies(g)[p].0 == l
    ensures forall i, j :: 0 <= i < j < |visits| ==>
              visits[i] != visits[j] && if down then counts[i] >= counts[j] else counts[i] <= counts[j]
  {
    W.WalkVisitsEachKeyOnce(g, l, down);
    TalliesAreTally(g);
    var v := W.Visits(g, l, down, W.Start(g, l, down));
    assert visits + [] == v == visits;
    hide GraphOk, Rest, W.Visits, W.Start, W.PosOk, Tallies, W.Ahead;
    forall p ensures p in visits <==> p in Tallies(g) && Tallies(g)[p].0 == l {
      assert p in v <==> p in W.KeysOf(g, l);
      assert p in g.links ==> Tallies(g)[p] == Tally(g, p);
    }
    forall i, j | 0 <= i < j < |visits|
      ensures visits[i] != visits[j] && if down then counts[i] >= counts[j] else counts[i] <= counts[j]
    {
      assert v[i] != v[j] && W.InWalkOrder(g, down, v[i], v[j]);
      assert Tallies(g)[v[i]] == Tally(g, v[i]) && Tallies(g)[v[j]] == Tally(g, v[j]);
    }
  }

  lemma {:induction false} RankedOnce(inst: Instance, l: nat, ks: seq<seq<byte>>, n: nat, visits: seq<nat>,
          counts: seq<nat>, keys: seq<seq<byte>>)
    requires inst.Valid() && n <= |ks| && Counted(inst.Snap(), l, ks, n) && KeysOfRecords(inst.log, visits, keys)
    requires Visited(inst.Graph(), l, visits, counts, [], visits) && forall i, j :: 0 <= i < j < |visits| ==> visits[i] != visits[j]
    ensures |keys| == |counts| && forall i :: 0 <= i < |keys| ==> counts[i] == TimesAsked(ks, keys[i], n) > 0
    ensures forall i, j :: 0 <= i < j < |keys| ==> keys[i] != keys[j]
  {
    hide IndexOk, LogOk, SlotsOk, LinksStored, Keyed, GraphOk, ByKey, Tallies, Counted, TimesAsked;
    forall i | 0 <= i < |keys|
      ensures counts[i] == TimesAsked(ks, keys[i], n) > 0 && keys[i] in inst.dir && inst.dir[keys[i]].pos == visits[i]
    {
      RankedHere(inst, l, ks, n, visits[i]);
    }
  }

  lemma {:induction false} RankedAll(inst: Instance, l: nat, ks: seq<seq<byte>>, n: nat, visits: seq<nat>,
          keys: seq<seq<byte>>)
    requires inst.Valid() && n <= |ks| && Counted(inst.Snap(), l, ks, n) && KeysOfRecords(inst.log, visits, keys)
    requires forall p {:trigger p in visits} :: p in Tallies(inst.Graph()) && Tallies(inst.Graph())[p].0 == l ==> p in visits
    ensures forall k {:trigger TimesAsked(ks, k, n)} :: TimesAsked(ks, k, n) > 0 ==> k in keys
  {
    hide IndexOk, LogOk, SlotsOk, LinksStored, Keyed, GraphOk, ByKey, Tallies, Counted, TimesAsked, KeysOfRecords;
    forall k {:trigger TimesAsked(ks, k, n)} | TimesAsked(ks, k, n) > 0 ensures k in keys {
      var p := ListedAt(inst, l, ks, n, k);
      assert p in visits;
      FoundAt(inst.log, visits, keys, p);
    }
  }

  lemma {:induction false} Ranked(inst: Instance, l: nat, ks: seq<seq<byte>>, n: nat, down: bool,
                                  visits: seq<nat>, counts: seq<nat>, keys: seq<seq<byte>>)
    requires inst.Valid() && l < LISTS && n <= |ks| && Counted(inst.Snap(), l, ks, n)
    requires Visited(inst.Graph(), l, visits, counts, [], Rest(inst.Graph(), l, down, W.Start(inst.Graph(), l, down)))
    requires KeysOfRecords(inst.log, visits, keys)
    ensures IsRanking(keys, counts, ks, n, down)
  {
    var g := inst.Graph();
    assert |g.lo| == LISTS;
    assert GraphOk(g);
    hide *;
    VisitedInOrder(g, l, down, visits, counts);
    RankedOnce(inst, l, ks, n, visits, counts, keys);
    RankedAll(inst, l, ks, n, visits, keys);
    IntoRanking(keys, counts, ks, n, down, visits);
  }

  lemma {:induction false} IntoRanking(keys: seq<seq<byte>>, counts: seq<nat>, ks: seq<seq<byte>>, n: nat,
          down: bool, visits: seq<nat>)
    requires n <= |ks| && |counts| == |visits| == |keys|
    requires forall i :: 0 <= i < |keys| ==> counts[i] == TimesAsked(ks, keys[i], n) > 0
    requires forall i, j :: 0 <= i < j < |keys| ==> keys[i] != keys[j]
    requires forall i, j :: 0 <= i < j < |visits| ==>
               visits[i] != visits[j] && if down then counts[i] >= counts[j] else counts[i] <= counts[j]
    requires forall k {:trigger TimesAsked(ks, k, n)} :: TimesAsked(ks, k, n) > 0 ==> k in keys
    ensures IsRanking(keys, counts, ks, n, down)
  {
  }

  lemma {:induction false} FoundAt(log: Log, visits: seq<nat>, keys: seq<seq<byte>>, p: nat)
    requires KeysOfRecords(log, visits, keys) && p in visits
    ensures p in log && log[p].key in keys
  {
    var i :| 0 <= i < |visits| && visits[i] == p;
    assert keys[i] == log[p].key;
  }

  lemma {:induction false} RankedHere(inst: Instance, l: nat, ks: seq<seq<byte>>, n: nat, p: nat)
    requires inst.Valid() && n <= |ks| && Counted(inst.Snap(), l, ks, n) && p in Tallies(inst.Graph())
    ensures p in inst.log && inst.log[p].key in inst.dir && inst.dir[inst.log[p].key].pos == p
    ensures Tallies(inst.Graph())[p] == (l, TimesAsked(ks, inst.log[p].key, n)) && TimesAsked(ks, inst.log[p].key, n) > 0
  {
    KeyOfPlace(inst, p);
    hide IndexOk, LogOk, SlotsOk, LinksStored, Keyed, GraphOk, ByKey, Tallies;
    var k := inst.log[p].key;
    assert k in inst.Snap().Counters() <==> TimesAsked(ks, k, n) > 0;
  }

  lemma {:induction false} ListedAt(inst: Instance, l: nat, ks: seq<seq<byte>>, n: nat, k: seq<byte>) returns (p: nat)
    requires inst.Valid() && n <= |ks| && Counted(inst.Snap(), l, ks, n) && TimesAsked(ks, k, n) > 0
    ensures p in inst.log && inst.log[p].key == k
    ensures p in Tallies(inst.Graph()) && Tallies(inst.Graph())[p].0 == l
  {
    assert k in inst.Snap().Counters() && inst.Snap().Counters()[k] == (l, TimesAsked(ks, k, n));
    PlaceOfKey(inst, k);
    p := inst.dir[k].pos;
  }

  /**
   * Count keys as they come and list them by how often they came, most or least often first:
   * from a new instance, every key that was counted is listed once, with its exact number.
   * Counting only stops early at a key that cannot be counted.
   */
  method Rank(hash: Hasher, kvdataMaximum: nat, l: nat, ks: seq<seq<byte>>, junk: seq<byte>, down: bool,
          beyond: Memory, outside: nat -> Count)
    returns (inst: Instance, done: nat, keys: seq<seq<byte>>, counts: seq<nat>)
    requires l < LISTS && |ks| < COUNT_MAX && |junk| == LINK_BYTES
    ensures done <= |ks| && IsRanking(keys, counts, ks, done, down)
    ensures fresh(inst) && inst.Valid() && (done < |ks| ==> CannotCount(inst, ks[done]))
  {
    inst := new Instance(hash, 0, kvdataMaximum);
    hide IndexOk, LogOk, SlotsOk, LinksStored, Keyed, GraphOk, Tallies, Visited, Rest, W.Start, IsRanking;
    assert Counted(inst.Snap(), l, ks, 0);
    hide Counted;
    done := CountAll(inst, l, ks, junk);
    var visits;
    visits, counts := WalkAll(inst, l, down, beyond, outside);
    AllStored(inst, l, visits, counts, down);
    keys := KeysAt(inst, visits);
    Ranked(inst, l, ks, done, down, visits, counts, keys);
  }

  lemma {:induction false} AllStored(inst: Instance, l: nat, visits: seq<nat>, counts: seq<nat>, down: bool)
    requires inst.Valid() && l < LISTS
    requires Visited(inst.Graph(), l, visits, counts, [], Rest(inst.Graph(), l, down, W.Start(inst.Graph(), l, down)))
    ensures forall i :: 0 <= i < |visits| ==> visits[i] in inst.log
  {
    forall i | 0 <= i < |visits| ensures visits[i] in inst.log { KeyOfPlace(inst, visits[i]); }
  }

  // ---------------------------------------------------------------- a plain value taken for a counter

  /** While there is a single key, both rows of a query have room. */
  lemma {:induction false} OneKeyLeavesRoom(inst: Instance, q: Query)
    requires inst.IndexPart() && |inst.dir| <= 1
    ensures !inst.NoRoom(q)
  {
    var s, r := inst.sheetsIndex[q.SheetIndex()], q.Row1();
    if UsedIn(inst.sheets[s][r], CELLS) == CELLS {
      var row := inst.sheets[s][r];
      assert row[0].pos != 0 && row[1].pos != 0;
      assert CellOk(inst.hash, inst.sheetsIndex, inst.sheets, inst.dir, inst.at, s, r, 0);
      assert CellOk(inst.hash, inst.sheetsIndex, inst.sheets, inst.dir, inst.at, s, r, 1);
      hide IndexOk, UsedIn;
      TwoKeys(inst.dir, inst.at[row[0].pos], inst.at[row[1].pos]);
    }
  }

  lemma {:induction false} TwoKeys(dir: Dir, k: seq<byte>, k': seq<byte>)
    requires k in dir && k' in dir && dir[k].cell != dir[k'].cell
    ensures |dir| >= 2
  {
    var others := dir.Keys - {k} - {k'};
    assert dir.Keys == others + {k} + {k'};
  }

  const PLAIN: seq<byte> := [98]
  const COUNTER: seq<byte> := [97]

  /** Twelve bytes that begin with the number of count slot 1. */
  function LikeALink(): (s: seq<byte>)
    ensures |s| == LINK_BYTES && Get4(s, 0) == 1
  {
    [1, 0, 0, 0, 0, 0, 0, 0, 0, 0, 0, 0]
  }

  /** Just the plain key is stored, and there is room for another. */
  ghost predicate HoldsPlain(inst: Instance)
    reads inst
  {
    && inst.kvdataMaximum == 0 && |inst.kvdata| == KERNEL_PAGE && inst.kvdataUsed == 15 && inst.countsPages == 0
    && inst.dir.Keys == {PLAIN} && inst.links == map[]
    && inst.dir[PLAIN].pos in inst.log && inst.log[inst.dir[PLAIN].pos] == Rec(PLAIN, LikeALink())
  }

  lemma {:induction false} RoomForTwo(inst: Instance, used: nat)
    requires inst.kvdataMaximum == 0 && |inst.kvdata| == KERNEL_PAGE && inst.kvdataUsed == used <= 15
    ensures inst.Fits(1, LINK_BYTES) && !inst.Refuses(1, LINK_BYTES)
    ensures GrownSize(KERNEL_PAGE, used, Length(1, LINK_BYTES)) == KERNEL_PAGE && Length(1, LINK_BYTES) == 14
  {
  }

  method StorePlain(hash: Hasher) returns (inst: Instance)
    ensures fresh(inst) && inst.Valid() && inst.hash == hash && HoldsPlain(inst)
  {
    hide IndexOk, LogOk, SlotsOk, LinksStored, Keyed, GraphOk, Tallies, ByKey, Later, UsedIn, Prepared;
    hide Length, GrownSize, LikeALink, Instance.Fits, Instance.Refuses, Instance.NoRoom, Packed, UidOk;
    inst := new Instance(hash, 0, 0);
    RoomForTwo(inst, 1);
    var q := Prepare(hash, PLAIN);
    var u, ok := inst.Put(q, LikeALink());
    if u == UID_NONE {
      OneKeyLeavesRoom(inst, q);
      assert false;
    }
  }

  /** What is left of the plain key after the other one was counted. */
  lemma {:induction false} PlainStays(a: Snapshot, b: Snapshot, l: nat, count: nat)
    requires a.dir.Keys == {PLAIN} && a.tallies == map[] && a.dir[PLAIN].pos in a.log
    requires IncStep(a, b, COUNTER, l, count) && COUNTER in b.dir
    ensures b.Counters().Keys == {COUNTER} && b.dir.Keys == {PLAIN, COUNTER}
    ensures b.dir[PLAIN] == a.dir[PLAIN] && a.dir[PLAIN].pos in b.log && b.log[a.dir[PLAIN].pos] == a.log[a.dir[PLAIN].pos]
  {
    ByKeyIsKeyed(a.dir, a.tallies);
    assert a.Counters() == map[];
    hide ByKey;
    var r := a.log[a.dir[PLAIN].pos];
  }

  lemma {:induction false} NotCounted(a: Snapshot, b: Snapshot, k: seq<byte>, l: nat, count: nat)
    requires k !in a.dir && k !in b.dir && IncStep(a, b, k, l, count)
    ensures b.dir == a.dir
  {
    ByKeyIsKeyed(a.dir, a.tallies);
  }

  lemma {:induction false} SlotOfCounter(inst: Instance, k: seq<byte>)
    requires inst.Valid() && k in inst.Snap().Counters()
    ensures |inst.counts| > 1
  {
    PlaceOfKey(inst, k);
    inst.KeysOfTallies();
    assert CdbCounts.KeyOk(inst.Graph(), inst.dir[k].pos);
    assert SlotOk(inst.Graph(), inst.links[inst.dir[k].pos].slot);
  }

  /** Count the other key. */
  method CountOther(inst: Instance, l: nat, junk: seq<byte>)
    requires inst.Valid() && HoldsPlain(inst) && l < LISTS && |junk| == LINK_BYTES
    modifies inst
    ensures inst.Valid() && inst.Snap().Counters().Keys == {COUNTER} && inst.dir.Keys == {PLAIN, COUNTER}
    ensures inst.dir[PLAIN].pos in inst.log && inst.log[inst.dir[PLAIN].pos] == Rec(PLAIN, LikeALink())
  {
    hide IndexOk, LogOk, SlotsOk, LinksStored, Keyed, GraphOk, Tallies, ByKey, UsedIn, Prepared, IncStep;
    hide Length, GrownSize, LikeALink, Instance.Fits, Instance.Refuses, Instance.NoRoom;
    ghost var s := inst.Snap();
    inst.TalliesInLog();
    assert s.tallies.Keys == {};
    RoomForTwo(inst, 15);
    var c, ok := inst.Inc(Prepare(inst.hash, COUNTER), l, junk);
    if COUNTER !in inst.dir {
      NotCounted(s, inst.Snap(), COUNTER, l, c);
      OneKeyLeavesRoom(inst, Prepare(inst.hash, COUNTER));
      assert false;
    }
    PlainStays(s, inst.Snap(), l, c);
  }

  /**
   * A plain key that reads as a counter as soon as another key is counted: inc then goes
   * on with it and returns a count, though it is no counter and was never incremented.
   */
  method PlainTakenForCounter(hash: Hasher, l: nat, junk: seq<byte>) returns (inst: Instance, count: nat)
    requires l < LISTS && |junk| == LINK_BYTES
    ensures inst.Valid() && inst.Snap().Counters().Keys == {COUNTER} && inst.dir.Keys == {PLAIN, COUNTER}
    ensures inst.ReadsAsCounter(inst.dir[PLAIN].pos) && count > 0
  {
    hide IndexOk, LogOk, SlotsOk, LinksStored, Keyed, GraphOk, Tallies, UsedIn, ByKey, Prepared, LikeALink;
    inst := StorePlain(hash);
    CountOther(inst, l, junk);
    SlotOfCounter(inst, COUNTER);
    var pos := inst.GetHkvRaw(Prepare(hash, PLAIN));
    count := inst.CountNew(pos);
  }
}
