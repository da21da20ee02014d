module CdbSession {
  // An instance and all that has been done with it: whatever keys are put and incremented, a
  // UID leads to its record for ever, and an increment returns how often its key was counted.

  import opened Bytes
  import opened CdbRecord
  import opened CdbCounts
  import opened CdbLog
  import opened CdbIndex
  import opened CdbRuns
  import opened CdbSlots
  import opened CdbInstance

  /** The UID that a key of a moment has. */
  ghost function UidAt(h: Hasher, s: Snapshot, k: seq<byte>): Uid
    requires k in s.dir
  {
    Uid(Prepare(h, k).SheetIndex(), s.dir[k].row, s.dir[k].cell)
  }

  /** Position pos now has the record that key k had at a moment, with the same value unless it is a counter. */
  ghost predicate IsRecordOf(now: Snapshot, was: Snapshot, k: seq<byte>, pos: nat)
    requires k in was.dir
  {
    && pos == was.dir[k].pos && pos in was.log && pos in now.log && now.log[pos].key == k
    && (pos !in was.tallies ==> now.log[pos] == was.log[pos])
  }

  /** What was stored at any moment of a run is at the same UID at its end. */
  lemma {:induction false} ResolvesAtEnd(h: Hasher, run: seq<Snapshot>, i: nat, k: seq<byte>)
    requires IsRun(h, run) && i < |run| && k in run[i].dir
    ensures var uid, now := UidAt(h, run[i], k), run[|run| - 1];
            && UidOk(uid) && SnapshotOk(h, now)
            && IsRecordOf(now, run[i], k, Resolve(now, uid))
  {
    var s := run[i];
    assert SnapshotOk(h, s) && SnapshotOk(h, run[|run| - 1]);
    assert HomeOk(h, s.idx, s.sheets, s.dir, s.at, k);
    var e := s.dir[k];
    assert s.log[e.pos].key == s.at[e.pos];
    hide IndexOk, Keyed, Later, Resolve;
    if i < |run| - 1 {
      UidResolvesForEver(h, run, i, |run| - 1, k);
    } else {
      ResolvesNow(h, s, k);
    }
  }

  lemma {:induction false} ResolvesNow(h: Hasher, s: Snapshot, k: seq<byte>)
    requires SnapshotOk(h, s) && k in s.dir
    ensures var uid := UidAt(h, s, k); UidOk(uid) && Resolve(s, uid) == s.dir[k].pos
  {
    assert HomeOk(h, s.idx, s.sheets, s.dir, s.at, k);
  }

  lemma {:induction false} JustBegun(h: Hasher, now: Snapshot)
    requires SnapshotOk(h, now)
    ensures IsHistory([now], []) && IsRun(h, [now])
  {
  }

  /** One more event. */
  lemma {:induction false} OneMoreEvent(h: Hasher, run: seq<Snapshot>, es: seq<Event>, e: Event, now: Snapshot)
    requires IsHistory(run, es) && IsRun(h, run) && SnapshotOk(h, now) && Happens(run[|run| - 1], now, e)
    ensures IsHistory(run + [now], es + [e]) && IsRun(h, run + [now])
    ensures (run + [now])[0] == run[0] && (run + [now])[|run|] == now
  {
    hide SnapshotOk, Happens, Later;
    var r, fs := run + [now], es + [e];
    forall i | 0 <= i < |fs| ensures Happens(r[i], r[i + 1], fs[i]) {
      if i < |es| { assert r[i] == run[i] && r[i + 1] == run[i + 1] && fs[i] == es[i]; }
    }
    forall i | 0 <= i < |r| ensures SnapshotOk(h, r[i]) { if i < |run| { assert r[i] == run[i]; } }
    HistoryIsRun(h, r, fs);
  }

  class Session {
    const inst: Instance

    /** The moments since the instance was made, and the events between them; neither is stored. */
    ghost var run: seq<Snapshot>
    ghost var events: seq<Event>

    ghost predicate Valid()
      reads this, inst
    {
      && inst.Valid()
      && IsHistory(run, events) && IsRun(inst.hash, run) && run[|run| - 1] == inst.Snap()
      && run[0].Counters() == map[]
    }

    constructor (hash: Hasher, keysAtStart: nat, kvdataMaximum: nat)
      requires keysAtStart / KEYS_PER_SHEET * 2 <= SHEETS_MAX
      ensures Valid() && fresh(inst) && events == [] && inst.hash == hash && inst.dir == map[]
    {
      hide IndexOk, LogOk, SlotsOk, LinksStored, Keyed, GraphOk, Tallies, SnapshotOk, IsHistory, IsRun, ByKey;
      hide Instance.IndexPart, Instance.LogPart, Instance.CounterPart;
      inst := new Instance(hash, keysAtStart, kvdataMaximum);
      new;
      inst.SnapIsOk();
      JustBegun(hash, inst.Snap());
      run, events := [inst.Snap()], [];
    }

    /** Put a plain key. */
    method Put(key: seq<byte>, val: seq<byte>) returns (u: nat, ok: bool)
      requires Valid() && key !in inst.dir
      modifies this, inst
      ensures Valid() && run == old(run) + [inst.Snap()]
      ensures events == old(events) + [Event.Put(key, val, u != UID_NONE)]
      ensures u != UID_NONE ==> key in inst.dir && UidOk(inst.UidOf(key)) && u == Packed(0, inst.UidOf(key))
    {
      hide IndexOk, LogOk, SlotsOk, LinksStored, Keyed, GraphOk, Tallies, SnapshotOk, PutStep, Same, IsHistory, IsRun;
      hide Instance.Fits, Instance.Refuses, Instance.NoRoom, Packed, UidOk, GrownSize, Prepared;
      inst.TalliesInLog();
      u, ok := inst.Put(Prepare(inst.hash, key), val);
      Went(Event.Put(key, val, u != UID_NONE));
    }

    /** Increment a key in a list; what is returned is how often it has been counted. */
    method Inc(key: seq<byte>, l: nat, junk: seq<byte>) returns (count: nat, ok: bool)
      requires Valid() && inst.CanInc(key, l) && |junk| == LINK_BYTES
      modifies this, inst
      ensures Valid() && run == old(run) + [inst.Snap()]
      ensures events == old(events) + [Event.Inc(key, l, count)]
      ensures count > 0 ==> count == TimesCounted(events, key, |events|)
    {
      hide IndexOk, LogOk, SlotsOk, LinksStored, Keyed, GraphOk, Tallies, SnapshotOk, IncStep, IsHistory, IsRun;
      hide Instance.Fits, Instance.Refuses, Instance.NoRoom, Prepared, Instance.CanInc;
      count, ok := inst.Inc(Prepare(inst.hash, key), l, junk);
      Went(Event.Inc(key, l, count));
      if count > 0 { CountReturned(run, events, |events| - 1); }
    }

    /** Note what happened. */
    ghost method Went(e: Event)
      requires inst.Valid() && IsHistory(run, events) && IsRun(inst.hash, run) && run[0].Counters() == map[]
      requires Happens(run[|run| - 1], inst.Snap(), e)
      modifies this`run, this`events
      ensures Valid() && run == old(run) + [inst.Snap()] && events == old(events) + [e]
    {
      assert |run| == |events| + 1;
      hide IndexOk, LogOk, SlotsOk, LinksStored, Keyed, GraphOk, Tallies, SnapshotOk, Happens, IsHistory, IsRun;
      inst.SnapIsOk();
      OneMoreEvent(inst.hash, run, events, e, inst.Snap());
      run, events := run + [inst.Snap()], events + [e];
    }

    /** The position of the record of a UID; its key may have been stored at any moment of the session. */
    method Record(u: nat) returns (pos: nat)
      requires Valid() && Unpacked(u).Uid? && Unpacked(u).sheetIndex < SHEETS_MAX
      ensures forall i, k, n: nat ::
                (0 <= i < |run| && k in run[i].dir && n < 256 && UidOk(UidAt(inst.hash, run[i], k))
                 && u == Packed(n, UidAt(inst.hash, run[i], k))) ==> IsRecordOf(inst.Snap(), run[i], k, pos)
    {
      pos := inst.GetUidHkvRaw(u);
      forall i, k, n: nat | 0 <= i < |run| && k in run[i].dir && n < 256 && UidOk(UidAt(inst.hash, run[i], k))
                            && u == Packed(n, UidAt(inst.hash, run[i], k))
        ensures IsRecordOf(inst.Snap(), run[i], k, pos)
      {
        UidRoundTrip(n, UidAt(inst.hash, run[i], k));
        ResolvesAtEnd(inst.hash, run, i, k);
      }
    }
  }
}
