module CdbRuns {
  // What an instance promises over a whole run: a UID names its record for ever, and a
  // counter holds the number of times its key was incremented.

  import opened Bytes
  import opened CdbRecord
  import opened CdbIndex
  import opened CdbLog

  // ---------------------------------------------------------------- UIDs as numbers

  const UID_NONE: nat := 0xffff_ffff_ffff_ffff

  /** The short name of a record: where its key sits, whichever sheet holds it. */
  datatype Uid = NoUid | Uid(sheetIndex: nat, row: nat, cell: nat)

  predicate UidOk(uid: Uid) {
    uid.Uid? ==> uid.sheetIndex < SHEETS_MAX && uid.row < ROWS && uid.cell < CELLS
  }

  /** A UID as the number that the program hands out: instance, sheet index, row and cell, from the low bits up. */
  function Packed(instance: nat, uid: Uid): (u: nat)
    requires instance < 256 && UidOk(uid)
    ensures if uid.NoUid? then u == UID_NONE else u < 0x100_0000_0000
  {
    match uid
    case NoUid => UID_NONE
    case Uid(sheetIndex, row, cell) => instance + 0x100 * sheetIndex + 0x100_0000 * row + 0x10_0000_0000 * cell
  }

  /** The fields of such a number: 8 bits of instance, then 16, 12 and 4 bits. */
  function Unpacked(u: nat): (uid: Uid)
    ensures uid.Uid? ==> uid.sheetIndex < 0x1_0000 && uid.row < ROWS && uid.cell < CELLS
  {
    if u == UID_NONE then NoUid
    else Uid(u / 0x100 % 0x1_0000, u / 0x100_0000 % 0x1000, u / 0x10_0000_0000 % 0x10)
  }

  /** The parts can be read back from the number, so two records never share a UID. */
  lemma {:induction false} UidRoundTrip(instance: nat, uid: Uid)
    requires instance < 256 && UidOk(uid)
    ensures var u := Packed(instance, uid); Unpacked(u) == uid && (uid.Uid? ==> u % 0x100 == instance)
    ensures var u := Packed(instance, uid);
            uid.Uid? ==> u / 0x100 % 0x1_0000 == uid.sheetIndex && u / 0x100_0000 % 0x1000 == uid.row
                         && u / 0x10_0000_0000 == uid.cell
  {
    if uid.Uid? {
      var u := Packed(instance, uid);
      assert u / 0x100 == uid.sheetIndex + 0x1_0000 * uid.row + 0x1000_0000 * uid.cell;
      assert u / 0x100_0000 == uid.row + 0x1000 * uid.cell;
    }
  }

  // ---------------------------------------------------------------- the index over time

  /** An instance at one moment; `tallies` gives the list and the count of every counter record. */
  datatype Snapshot = Snapshot(
    idx: seq<nat>,
    sheets: Sheets,
    dir: Dir,
    at: map<nat, seq<byte>>,
    log: Log,
    tallies: map<nat, (nat, nat)>)
  {
    /** The counters by key. */
    ghost function Counters(): map<seq<byte>, (nat, nat)> {
      ByKey(dir, tallies)
    }
  }

  ghost predicate SnapshotOk(h: Hasher, s: Snapshot) {
    && IndexOk(h, s.idx, s.sheets, s.dir, s.at) && Keyed(s.log, s.at)
    && s.tallies.Keys <= s.log.Keys
  }

  /** What every operation keeps: keys stay where they are, and so do records and plain values. */
  ghost predicate Later(a: Snapshot, b: Snapshot) {
    && (forall k {:trigger b.dir[k]} {:trigger k in a.dir} :: k in a.dir ==> k in b.dir && b.dir[k] == a.dir[k])
    && RecordsKept(a.log, b.log, a.tallies.Keys)
    && a.tallies.Keys == b.tallies.Keys * a.log.Keys
  }

  /** The same keys, records and counters; sheets may have been split. */
  ghost predicate Same(a: Snapshot, b: Snapshot) {
    b.dir == a.dir && b.log == a.log && b.tallies == a.tallies
  }

  /** What storing a plain key does, when it succeeds. */
  ghost predicate PutStep(a: Snapshot, b: Snapshot, k: seq<byte>, val: seq<byte>) {
    && k !in a.dir && k in b.dir && b.dir == a.dir[k := b.dir[k]]
    && b.dir[k].pos !in a.log && b.log == a.log[b.dir[k].pos := Rec(k, val)]
    && b.Counters() == a.Counters()
    && Later(a, b)
  }

  /** What incrementing key k in list l does, when it returns count. */
  ghost predicate IncStep(a: Snapshot, b: Snapshot, k: seq<byte>, l: nat, count: nat) {
    && Later(a, b)
    && if k in a.Counters() then
         count == a.Counters()[k].1 + 1 && b.dir == a.dir && b.Counters() == a.Counters()[k := (l, count)]
       else if k !in a.dir && k in b.dir then
         count == 1 && b.dir == a.dir[k := b.dir[k]] && b.Counters() == a.Counters()[k := (l, 1)]
       else
         count == 0 && Same(a, b)
  }

  lemma {:induction false} SameIsLater(a: Snapshot, b: Snapshot)
    requires Same(a, b) && a.tallies.Keys <= a.log.Keys
    ensures Later(a, b)
  {
  }

  lemma {:induction false} PutIsStep(a: Snapshot, b: Snapshot, k: seq<byte>, val: seq<byte>)
    requires k !in a.dir && k in b.dir && b.dir == a.dir[k := b.dir[k]]
    requires b.dir[k].pos !in a.log && b.log == a.log[b.dir[k].pos := Rec(k, val)]
    requires b.tallies == a.tallies && a.tallies.Keys <= a.log.Keys
    ensures PutStep(a, b, k, val)
  {
    ByKeyNewKey(a.dir, a.tallies, k, b.dir[k]);
  }

  lemma {:induction false} FirstIncIsStep(a: Snapshot, b: Snapshot, k: seq<byte>, l: nat)
    requires k !in a.dir && k in b.dir && b.dir == a.dir[k := b.dir[k]] && OwnRecords(b.dir)
    requires b.dir[k].pos !in a.log && RecordsKept(a.log, b.log, a.tallies.Keys)
    requires a.tallies.Keys <= a.log.Keys && b.tallies == a.tallies[b.dir[k].pos := (l, 1)]
    ensures IncStep(a, b, k, l, 1)
  {
    var e := b.dir[k];
    ByKeyEntered(a.dir, b.dir, a.tallies, k, e, (l, 1));
    ByKeyIsKeyed(a.dir, a.tallies);
    assert b.tallies.Keys == a.tallies.Keys + {e.pos};
  }

  lemma {:induction false} NextIncIsStep(a: Snapshot, b: Snapshot, k: seq<byte>, l: nat, count: nat)
    requires k in a.dir && b.dir == a.dir && OwnRecords(a.dir) && a.dir[k].pos in a.tallies
    requires RecordsKept(a.log, b.log, a.tallies.Keys) && a.tallies.Keys <= a.log.Keys
    requires count == a.tallies[a.dir[k].pos].1 + 1 && b.tallies == a.tallies[a.dir[k].pos := (l, count)]
    ensures IncStep(a, b, k, l, count)
  {
    ByKeyCounted(a.dir, a.tallies, b.tallies, k, l, count);
    assert b.tallies.Keys == a.tallies.Keys;
  }

  lemma {:induction false} NoIncIsStep(a: Snapshot, b: Snapshot, k: seq<byte>, l: nat)
    requires Same(a, b) && a.tallies.Keys <= a.log.Keys
    requires k in a.dir ==> a.dir[k].pos !in a.tallies
    ensures IncStep(a, b, k, l, 0)
  {
    SameIsLater(a, b);
  }

  lemma {:induction false} LaterIsTransitive(a: Snapshot, b: Snapshot, c: Snapshot)
    requires Later(a, b) && Later(b, c)
    ensures Later(a, c)
  {
    forall p | p in a.log
      ensures p in c.log && c.log[p].key == a.log[p].key && |c.log[p].val| == |a.log[p].val|
      ensures p !in a.tallies ==> c.log[p] == a.log[p]
    {
      assert p in b.log && (p !in a.tallies ==> b.log[p] == a.log[p]);
      assert p !in a.tallies.Keys ==> p !in b.tallies.Keys;
    }
    forall p ensures p in a.tallies.Keys <==> p in c.tallies.Keys && p in a.log {
      if p in a.log { var r := b.log[p]; }
    }
  }

  /** The record that a UID names, whatever sheet that is in by now; 0 for none. */
  function Resolve(s: Snapshot, uid: Uid): nat
    requires Shaped(s.sheets) && IdxOk(s.idx, |s.sheets|) && uid.Uid? && UidOk(uid)
  {
    s.sheets[s.idx[uid.sheetIndex]][uid.row][uid.cell].pos
  }

  ghost predicate IsRun(h: Hasher, run: seq<Snapshot>) {
    && (forall i :: 0 <= i < |run| ==> SnapshotOk(h, run[i]))
    && (forall i :: 0 <= i < |run| - 1 ==> Later(run[i], run[i + 1]))
  }

  lemma {:induction false} RunIsLater(h: Hasher, run: seq<Snapshot>, i: nat, j: nat)
    requires IsRun(h, run) && i < j < |run|
    ensures Later(run[i], run[j])
  {
    if i + 1 < j {
      RunIsLater(h, run, i, j - 1);
      LaterIsTransitive(run[i], run[j - 1], run[j]);
    }
  }

  /**
   * The UID under which a key was stored, also when read back from a number of any instance,
   * resolves to the key's record at every later moment of any run, across sheet splits and storage growth.  The record is at the
   * same position, has the same key and, unless it is a counter, the same value.
   */
  lemma {:induction false} UidResolvesForEver(h: Hasher, run: seq<Snapshot>, i: nat, j: nat, k: seq<byte>)
    requires IsRun(h, run) && i < j < |run|
    requires k in run[i].dir && run[i].dir[k].pos in run[i].log
    ensures var e := run[i].dir[k];
            var uid := Uid(Prepare(h, k).SheetIndex(), e.row, e.cell);
            && UidOk(uid)
            && (forall n: nat {:trigger Packed(n, uid)} :: n < 256 ==> Unpacked(Packed(n, uid)) == uid)
            && Resolve(run[j], uid) == e.pos
            && e.pos in run[j].log && run[j].log[e.pos].key == k
            && (e.pos !in run[i].tallies ==> run[j].log[e.pos] == run[i].log[e.pos])
  {
    RunIsLater(h, run, i, j);
    assert SnapshotOk(h, run[i]) && SnapshotOk(h, run[j]);
    assert HomeOk(h, run[i].idx, run[i].sheets, run[i].dir, run[i].at, k);
    assert k in run[j].dir;
    assert HomeOk(h, run[j].idx, run[j].sheets, run[j].dir, run[j].at, k);
    var e := run[i].dir[k];
    var r, uid := run[i].log[e.pos], Uid(Prepare(h, k).SheetIndex(), e.row, e.cell);
    forall n: nat | n < 256 ensures Unpacked(Packed(n, uid)) == uid { UidRoundTrip(n, uid); }
  }

  // ---------------------------------------------------------------- counters over time

  /** How many of the first n increments were of key k. */
  function TimesAsked(ks: seq<seq<byte>>, k: seq<byte>, n: nat): nat
    requires n <= |ks|
  {
    if n == 0 then 0 else TimesAsked(ks, k, n - 1) + if ks[n - 1] == k then 1 else 0
  }

  /** What a user does: store a plain key, which may fail, or increment a key in a list, which returns a count. */
  datatype Event = Put(key: seq<byte>, val: seq<byte>, done: bool) | Inc(key: seq<byte>, list: nat, count: nat)

  ghost predicate Happens(a: Snapshot, b: Snapshot, e: Event) {
    match e
    case Put(key, val, done) => if done then PutStep(a, b, key, val) else Same(a, b) && a.tallies.Keys <= a.log.Keys
    case Inc(key, list, count) => IncStep(a, b, key, list, count)
  }

  /** A run in which these events happened one after the other. */
  ghost predicate IsHistory(run: seq<Snapshot>, es: seq<Event>) {
    |run| == |es| + 1 && forall i :: 0 <= i < |es| ==> Happens(run[i], run[i + 1], es[i])
  }

  predicate Counts(e: Event, k: seq<byte>) {
    e.Inc? && e.key == k && e.count > 0
  }

  /** How many of the first n events were successful increments of key k. */
  function TimesCounted(es: seq<Event>, k: seq<byte>, n: nat): nat
    requires n <= |es|
  {
    if n == 0 then 0 else TimesCounted(es, k, n - 1) + if Counts(es[n - 1], k) then 1 else 0
  }

  /** The list of the last successful increment of key k among the first n events, or l if there was none. */
  function ListCounted(es: seq<Event>, k: seq<byte>, n: nat, l: nat): nat
    requires n <= |es|
  {
    if n == 0 then l else if Counts(es[n - 1], k) then es[n - 1].list else ListCounted(es, k, n - 1, l)
  }

  /** The list and count that k's counter had at the start of a run, with count 0 for no counter. */
  ghost function Begun(s: Snapshot, k: seq<byte>): (nat, nat) {
    if k in s.Counters() then s.Counters()[k] else (0, 0)
  }

  /**
   * At every moment of a run of any events, exactly the keys that were counters or were
   * incremented with success are counters; each is ahead of where it began by the times it
   * was, in the list of the last time.
   */
  lemma {:induction false} CountersCount(run: seq<Snapshot>, es: seq<Event>, k: seq<byte>, n: nat)
    requires IsHistory(run, es) && n <= |es|
    ensures k in run[n].Counters() <==> k in run[0].Counters() || TimesCounted(es, k, n) > 0
    ensures k in run[n].Counters() ==>
              run[n].Counters()[k] == (ListCounted(es, k, n, Begun(run[0], k).0), Begun(run[0], k).1 + TimesCounted(es, k, n))
  {
    hide Happens, Snapshot.Counters, Counts;
    if n > 0 {
      CountersCount(run, es, k, n - 1);
      assert Happens(run[n - 1], run[n], es[n - 1]);
      OneEvent(run[n - 1], run[n], es[n - 1], k);
    }
  }

  /** An event changes the counter of a key only if it counts the key, and then by one. */
  lemma {:induction false} OneEvent(a: Snapshot, b: Snapshot, e: Event, k: seq<byte>)
    requires Happens(a, b, e)
    ensures k in b.Counters() <==> k in a.Counters() || Counts(e, k)
    ensures k in b.Counters() ==>
              b.Counters()[k] == if Counts(e, k) then (e.list, Begun(a, k).1 + 1) else a.Counters()[k]
    ensures Counts(e, k) ==> e.count == Begun(a, k).1 + 1
  {
    hide Later, ByKey;
    ByKeyIsKeyed(a.dir, a.tallies);
  }

  /** What an increment returns is the number of times its key has been counted by then. */
  lemma {:induction false} CountReturned(run: seq<Snapshot>, es: seq<Event>, i: nat)
    requires IsHistory(run, es) && i < |es| && es[i].Inc? && es[i].count > 0
    ensures es[i].count == Begun(run[0], es[i].key).1 + TimesCounted(es, es[i].key, i + 1)
  {
    hide Happens, Snapshot.Counters;
    CountersCount(run, es, es[i].key, i);
    assert Happens(run[i], run[i + 1], es[i]);
    OneEvent(run[i], run[i + 1], es[i], es[i].key);
  }

  /** So UIDs resolve for ever over events of all kinds. */
  lemma {:induction false} HistoryIsRun(h: Hasher, run: seq<Snapshot>, es: seq<Event>)
    requires IsHistory(run, es) && forall i :: 0 <= i < |run| ==> SnapshotOk(h, run[i])
    ensures IsRun(h, run)
  {
    forall i | 0 <= i < |run| - 1 ensures Later(run[i], run[i + 1]) {
      assert Happens(run[i], run[i + 1], es[i]);
      if es[i].Put? && !es[i].done { SameIsLater(run[i], run[i + 1]); }
    }
  }
}
