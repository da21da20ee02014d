// One sxe-cdb instance with its fields updated in place: putting and finding keys,
// splitting sheets, incrementing counters and walking them.
module CdbInstance {
  import opened Arithmetic
  import opened Bytes
  import opened CdbRecord
  import opened CdbCounts
  import opened CdbLog
  import opened CdbIndex
  import opened CdbSlots
  import opened CdbRuns
  import opened CdbPositions
  import Sizes = CdbSizes
  import W = CdbWalk

  const LISTS: nat := 256
  const KEYS_PER_SHEET: nat := ROWS * CELLS

  // Bytes of count pages are computed in 32 bits.
  const PAGES_MAX: nat := 0x10_0000

  // Counts are kept in 48 bits.
  const COUNT_MAX: nat := 0x1_0000_0000_0000

  function EmptySheet(): seq<seq<Cell>> {
    seq(ROWS, _ => seq(CELLS, _ => EMPTY))
  }

  /** How many of the first n cells of a row are used. */
  function UsedIn(row: seq<Cell>, n: nat): (m: nat)
    requires n <= |row|
    ensures m <= n
    ensures m == n <==> forall c :: 0 <= c < n ==> row[c].pos != 0
  {
    if n == 0 then 0 else UsedIn(row, n - 1) + if row[n - 1].pos != 0 then 1 else 0
  }

  lemma {:induction false} UsedAreSo(row: seq<Cell>, n: nat)
    requires n <= |row|
    ensures UsedIn(row, n) == |set c | 0 <= c < n && row[c].pos != 0|
  {
    if n > 0 {
      UsedAreSo(row, n - 1);
      var a, b := set c | 0 <= c < n - 1 && row[c].pos != 0, set c | 0 <= c < n && row[c].pos != 0;
      assert b == if row[n - 1].pos != 0 then a + {n - 1} else a;
    }
  }

  /** c is the first free cell of the row, or CELLS if there is none. */
  ghost predicate IsFirstFree(row: seq<Cell>, c: nat)
    requires |row| == CELLS
  {
    && c <= CELLS
    && (forall i :: 0 <= i < c ==> row[i].pos != 0)
    && (c < CELLS ==> row[c].pos == 0)
  }

  lemma {:induction false} PutBack<T>(m: map<nat, T>, p: nat, x: T)
    ensures (m - {p})[p := x] == m[p := x]
  {
  }

  lemma {:induction false} KeyBack(s: set<nat>, p: nat)
    requires p in s
    ensures s - {p} + {p} == s
  {
  }

  class Instance {
    const hash: Hasher
    const kvdataMaximum: nat
    var sheetsIndex: seq<nat>
    var sheets: Sheets
    var cellsUsed: nat

    ghost var dir: Dir
    ghost var at: map<nat, seq<byte>>

    ghost predicate IndexPart()
      reads this`sheetsIndex, this`sheets, this`cellsUsed, this`dir, this`at
    {
      && IndexOk(hash, sheetsIndex, sheets, dir, at)
      && 1 <= |sheets| <= SHEETS_MAX
      && cellsUsed == |dir|
    }

    /** Count the used cells of a row and find its first free one. */
    method ScanRow(s: nat, r: nat) returns (used: nat, free: nat)
      requires Shaped(sheets) && s < |sheets| && r < ROWS
      ensures used == UsedIn(sheets[s][r], CELLS)
      ensures IsFirstFree(sheets[s][r], free)
      ensures used == CELLS <==> free == CELLS
    {
      used, free := 0, CELLS;
      var cell := 0;
      while cell < CELLS
        invariant cell <= CELLS
        invariant used == UsedIn(sheets[s][r], cell)
        invariant free == CELLS ==> used == cell
        invariant free < CELLS ==> free < cell && used < cell && IsFirstFree(sheets[s][r], free)
        invariant free <= CELLS
      {
        if sheets[s][r][cell].pos != 0 {
          used := used + 1;
        } else {
          free := if free == CELLS then cell else free;
        }
        cell := cell + 1;
      }
    }

    /** Add a sheet and spread the keys of a full one over both. */
    method SplitSheet(full: nat)
      requires IndexPart() && full < |sheets| < SHEETS_MAX
      modifies this`sheets, this`sheetsIndex
      ensures IndexPart() && |sheets| == old(|sheets|) + 1
      ensures IsSplitIndex(old(sheetsIndex), sheetsIndex, full, old(|sheets|))
      ensures IsSplitSheets(old(sheets), sheets, sheetsIndex, full)
    {
      ghost var was, wasIndex := sheets, sheetsIndex;
      var added := |sheets|;
      SplitIndex(full, added);
      ghost var nowIndex := sheetsIndex;
      sheets := sheets + [EmptySheet()];
      var row := 0;
      while row < ROWS
        invariant row <= ROWS && sheetsIndex == nowIndex
        invariant |sheets| == added + 1 && Shaped(sheets)
        invariant forall s :: 0 <= s < added && s != full ==> sheets[s] == was[s]
        invariant forall r, c {:trigger sheets[full][r][c]} {:trigger sheets[added][r][c]} :: 0 <= r < row && 0 <= c < CELLS ==>
                    IsSplitCell(was[full][r][c], sheets[full][r][c], sheets[added][r][c], sheetsIndex, added)
        invariant forall r, c {:trigger sheets[full][r][c]} {:trigger sheets[added][r][c]} :: row <= r < ROWS && 0 <= c < CELLS ==>
                    sheets[full][r][c] == was[full][r][c] && sheets[added][r][c] == EMPTY
      {
        SplitRow(was, full, added, row);
        row := row + 1;
      }
      SplitKeeps(hash, wasIndex, was, dir, at, full, sheetsIndex, sheets);
    }

    method SplitIndex(full: nat, added: nat)
      requires |sheetsIndex| == SHEETS_MAX
      modifies this`sheetsIndex
      ensures IsSplitIndex(old(sheetsIndex), sheetsIndex, full, added)
    {
      var toggle := false;
      var si := 0;
      while si < SHEETS_MAX
        invariant si <= SHEETS_MAX == |sheetsIndex|
        invariant toggle == (Named(old(sheetsIndex), full, si) % 2 == 1)
        invariant forall i :: si <= i < SHEETS_MAX ==> sheetsIndex[i] == old(sheetsIndex)[i]
        invariant forall i :: 0 <= i < si ==>
                    sheetsIndex[i] == if old(sheetsIndex)[i] == full && Named(old(sheetsIndex), full, i) % 2 == 1 then added
                                      else old(sheetsIndex)[i]
      {
        if full == sheetsIndex[si] {
          sheetsIndex := sheetsIndex[si := if toggle then added else full];
          toggle := !toggle;
        }
        si := si + 1;
      }
    }

    /** Move the cells of one row that now belong to the added sheet. */
    method SplitRow(ghost was: Sheets, full: nat, added: nat, row: nat)
      requires Shaped(sheets) && |sheets| == added + 1 && full < added && row < ROWS && |sheetsIndex| == SHEETS_MAX
      requires Shaped(was) && |was| == added
      requires forall c {:trigger sheets[full][row][c]} {:trigger sheets[added][row][c]} :: 0 <= c < CELLS ==>
                 sheets[full][row][c] == was[full][row][c] && sheets[added][row][c] == EMPTY
      modifies this`sheets
      ensures |sheets| == added + 1 && Shaped(sheets)
      ensures forall s, r {:trigger sheets[s][r]} :: 0 <= s < |sheets| && 0 <= r < ROWS && ((s != full && s != added) || r != row) ==>
                sheets[s][r] == old(sheets)[s][r]
      ensures forall c {:trigger sheets[full][row][c]} {:trigger sheets[added][row][c]} :: 0 <= c < CELLS ==>
                IsSplitCell(was[full][row][c], sheets[full][row][c], sheets[added][row][c], sheetsIndex, added)
    {
      var cell := 0;
      while cell < CELLS
        invariant cell <= CELLS
        invariant |sheets| == added + 1 && Shaped(sheets)
        invariant forall s, r {:trigger sheets[s][r]} :: 0 <= s < |sheets| && 0 <= r < ROWS && ((s != full && s != added) || r != row) ==>
                    sheets[s][r] == old(sheets)[s][r]
        invariant forall c {:trigger sheets[full][row][c]} {:trigger sheets[added][row][c]} :: 0 <= c < cell ==>
                    IsSplitCell(was[full][row][c], sheets[full][row][c], sheets[added][row][c], sheetsIndex, added)
        invariant forall c {:trigger sheets[full][row][c]} {:trigger sheets[added][row][c]} :: cell <= c < CELLS ==>
                    sheets[full][row][c] == was[full][row][c] && sheets[added][row][c] == EMPTY
      {
        var x := sheets[full][row][cell];
        if x.pos != 0 && sheetsIndex[x.hashHi % SHEETS_MAX] == added {
          sheets := SetCell(sheets, added, row, cell, x);
          sheets := SetCell(sheets, full, row, cell, x.(pos := 0));
        }
        cell := cell + 1;
      }
    }

    /** All cells of both rows of a key are used. */
    ghost predicate BothFull(q: Query)
      requires IndexPart()
      reads this`sheetsIndex, this`sheets, this`cellsUsed, this`dir, this`at
    {
      var s: seq<seq<Cell>> := sheets[sheetsIndex[q.SheetIndex()]];
      && (forall c: nat :: c < CELLS ==> s[q.Row1()][c].pos != 0)
      && (forall c: nat :: c < CELLS ==> s[q.Row2()][c].pos != 0)
    }

    /** Both rows of a key are full and no sheet can be added. */
    ghost predicate NoRoom(q: Query)
      requires IndexPart()
      reads this`sheetsIndex, this`sheets, this`cellsUsed, this`dir, this`at
    {
      |sheets| == 8192 && BothFull(q)
    }

    /** The cell is the first free one of whichever of the key's two rows has fewer used cells, the second if neither has. */
    ghost predicate IsRoom(q: Query, row: nat, cell: nat)
      requires IndexPart()
      reads this`sheetsIndex, this`sheets, this`cellsUsed, this`dir, this`at
    {
      var s := sheets[sheetsIndex[q.SheetIndex()]];
      && row == (if UsedIn(s[q.Row1()], CELLS) < UsedIn(s[q.Row2()], CELLS) then q.Row1() else q.Row2())
      && cell < CELLS && IsFirstFree(s[row], cell)
    }

    /**
     * Find a free cell for a key in the less used of its two rows, splitting its sheet
     * as long as both rows are full.  Fails only when there are as many sheets as there
     * can be and both rows are still full.
     */
    method FindRoom(q: Query) returns (ok: bool, row: nat, cell: nat)
      requires IndexPart()
      modifies this`sheets, this`sheetsIndex
      ensures IndexPart() && |sheets| >= old(|sheets|)
      ensures if ok then IsRoom(q, row, cell) else NoRoom(q)
      ensures !old(BothFull(q)) ==> ok && sheets == old(sheets) && sheetsIndex == old(sheetsIndex)
    {
      while true
        invariant IndexPart() && |sheets| >= old(|sheets|)
        invariant !old(BothFull(q)) ==> sheets == old(sheets) && sheetsIndex == old(sheetsIndex)
        decreases SHEETS_MAX - |sheets|
      {
        var s := sheetsIndex[q.SheetIndex()];
        var used1, free1 := ScanRow(s, q.Row1());
        var used2, free2 := ScanRow(s, q.Row2());
        if used1 == CELLS && used2 == CELLS {
          if |sheets| >= SHEETS_MAX {
            return false, 0, 0;
          }
          SplitSheet(s);
        } else {
          return true,
            (if used1 < used2 then q.Row1() else q.Row2()),
            (if used1 < used2 then free1 else free2);
        }
      }
    }

    /** Enter a new record in a free cell of its key. */
    method FillCell(q: Query, row: nat, cell: nat, k: nat)
      requires IndexPart() && q == Prepare(hash, q.key) && q.key !in dir
      requires IsRoom(q, row, cell)
      requires k != 0 && k !in at
      modifies this`sheets, this`cellsUsed, this`dir, this`at
      ensures IndexPart() && |sheets| == old(|sheets|)
      ensures dir == old(dir)[q.key := Home(row, cell, k)] && at == old(at)[k := q.key]
    {
      var sheet := sheetsIndex[q.SheetIndex()];
      PutKeeps(hash, sheetsIndex, sheets, dir, at, q.key, row, cell, k);
      sheets := SetCell(sheets, sheet, row, cell, Cell(q.hash.u1, q.hash.u0, k));
      cellsUsed := cellsUsed + 1;
      dir := dir[q.key := Home(row, cell, k)];
      at := at[k := q.key];
    }

    // -------------------------------------------------------------- putting

    var kvdata: seq<byte>
    var kvdataUsed: nat

    ghost var log: Log

    ghost predicate LogPart()
      reads this`kvdata, this`kvdataUsed, this`log, this`at
    {
      && LogOk(kvdata, kvdataUsed, log)
      && |kvdata| < U32 && |kvdata| % KERNEL_PAGE == 0
      && Keyed(log, at)
    }

    /** What put_val turns away before it looks for room: lengths that no header holds, and all when there is too much already. */
    predicate Refuses(keyLen: nat, valLen: nat)
      reads this`kvdata
    {
      (kvdataMaximum > 0 && |kvdata| > kvdataMaximum) || !LengthsOk(keyLen, valLen)
    }

    /** The memory that the record calls for is less than 4 GB. */
    ghost predicate Fits(keyLen: nat, valLen: nat)
      reads this`kvdata, this`kvdataUsed
    {
      kvdataUsed <= |kvdata| && Sizes.Fits(|kvdata|, kvdataUsed, keyLen, valLen)
    }

    /**
     * Store a key that is not stored yet.  The new record goes to the end of the log and
     * its UID names the cell; every earlier key keeps its cell and its record.  `ok` is
     * false where the sizes wrap without being found out: the model goes no further there.
     */
    method PutVal(q: Query, val: seq<byte>) returns (uid: Uid, ok: bool)
      requires IndexPart() && LogPart()
      requires q == Prepare(hash, q.key) && q.key !in dir
      modifies this`sheets, this`sheetsIndex, this`cellsUsed, this`kvdata, this`kvdataUsed, this`dir, this`at, this`log
      ensures IndexPart() && LogPart()
      ensures !ok ==> uid.NoUid? && !old(Refuses(|q.key|, |val|)) && !old(Fits(|q.key|, |val|)) && !NoRoom(q)
      ensures uid.NoUid? ==> dir == old(dir) && at == old(at) && log == old(log)
      ensures uid.NoUid? ==> kvdata == old(kvdata) && kvdataUsed == old(kvdataUsed)
      ensures uid.NoUid? && ok && !old(Refuses(|q.key|, |val|)) ==> NoRoom(q)
      ensures old(Refuses(|q.key|, |val|)) ==> uid.NoUid? && sheets == old(sheets) && sheetsIndex == old(sheetsIndex)
      ensures uid.Uid? && !old(BothFull(q)) ==> old(IsRoom(q, uid.row, uid.cell)) && |sheets| == old(|sheets|)
      ensures uid.Uid? ==>
                && old(Fits(|q.key|, |val|)) && UidOk(uid)
                && uid.sheetIndex == q.SheetIndex()
                && dir == old(dir)[q.key := Home(uid.row, uid.cell, old(kvdataUsed))]
                && at == old(at)[old(kvdataUsed) := q.key]
                && log == old(log)[old(kvdataUsed) := Rec(q.key, val)]
                && old(kvdataUsed) !in old(log)
                && |kvdata| == GrownSize(old(|kvdata|), old(kvdataUsed), RecLen(Rec(q.key, val)))
                && kvdataUsed == old(kvdataUsed) + RecLen(Rec(q.key, val))
    {
      hide IndexOk, LogOk, Keyed, GrownSize, UsedIn, IsFirstFree, Fits, NoRoom, IsRoom, BothFull;
      uid, ok := NoUid, true;
      if kvdataMaximum > 0 && |kvdata| > kvdataMaximum {
        return;
      }
      HeaderLenIs(|q.key|, |val|);
      var headerLen := HeaderLen(|q.key|, |val|);
      if headerLen == 0 {
        return;
      }
      var room, row, cell := FindRoom(q);
      if !room {
        return;
      }
      RoomIsRoom(q, row, cell);
      ok := PutRecord(q, val, row, cell);
      if ok {
        uid := Uid(q.SheetIndex(), row, cell);
      }
    }

    /** Write the record of a new key, and enter it in a free cell. */
    method PutRecord(q: Query, val: seq<byte>, row: nat, cell: nat) returns (ok: bool)
      requires IndexPart() && LogPart() && Storable(Rec(q.key, val))
      requires q == Prepare(hash, q.key) && q.key !in dir && IsRoom(q, row, cell)
      modifies this`sheets, this`cellsUsed, this`kvdata, this`kvdataUsed, this`dir, this`at, this`log
      ensures IndexPart() && LogPart() && |sheets| == old(|sheets|)
      ensures row < ROWS && cell < CELLS
      ensures ok <==> old(Fits(|q.key|, |val|))
      ensures !ok ==> dir == old(dir) && at == old(at) && log == old(log)
      ensures !ok ==> kvdata == old(kvdata) && kvdataUsed == old(kvdataUsed) && sheets == old(sheets) && cellsUsed == old(cellsUsed)
      ensures ok ==>
                && dir == old(dir)[q.key := Home(row, cell, old(kvdataUsed))]
                && at == old(at)[old(kvdataUsed) := q.key]
                && log == old(log)[old(kvdataUsed) := Rec(q.key, val)]
                && old(kvdataUsed) !in old(log)
                && |kvdata| == GrownSize(old(|kvdata|), old(kvdataUsed), RecLen(Rec(q.key, val)))
                && kvdataUsed == old(kvdataUsed) + RecLen(Rec(q.key, val))
    {
      assert kvdataUsed >= 1;
      assert row < ROWS && cell < CELLS;
      KeyedMore(log, at, kvdataUsed, Rec(q.key, val));
      hide IndexOk, LogOk, Keyed, GrownSize, UsedIn, IsFirstFree, Fits, NoRoom, IsRoom, BothFull;
      var k := kvdataUsed;
      ok := AppendRecord(Rec(q.key, val));
      if ok {
        FillCell(q, row, cell, k);
      }
    }

    lemma {:induction false} RoomIsRoom(q: Query, row: nat, cell: nat)
      requires IndexPart() && IsRoom(q, row, cell)
      ensures !NoRoom(q)
    {
    }

    /**
     * Write a record at the end of the used bytes, growing the memory if it does not fit.
     * Not ok if the sizes do not come out right, which is exactly if 4 GB do not do.
     */
    method AppendRecord(r: Rec) returns (ok: bool)
      requires LogOk(kvdata, kvdataUsed, log) && Storable(r) && |kvdata| < U32 && |kvdata| % KERNEL_PAGE == 0
      modifies this`kvdata, this`kvdataUsed, this`log
      ensures LogOk(kvdata, kvdataUsed, log) && |kvdata| < U32 && |kvdata| % KERNEL_PAGE == 0
      ensures ok <==> old(Fits(|r.key|, |r.val|))
      ensures !ok ==> kvdata == old(kvdata) && kvdataUsed == old(kvdataUsed) && log == old(log)
      ensures ok ==>
                && log == old(log)[old(kvdataUsed) := r] && old(kvdataUsed) !in old(log)
                && |kvdata| == GrownSize(old(|kvdata|), old(kvdataUsed), RecLen(r))
                && kvdataUsed == old(kvdataUsed) + RecLen(r)
                && kvdata[..old(kvdataUsed)] == old(kvdata[..kvdataUsed])
    {
      var was := |kvdata|;
      var sizes := Sizes.AfterPut(was, kvdataUsed, |r.key|, |r.val|);
      ok := Sizes.Right(was, kvdataUsed, |r.key|, |r.val|);
      Sizes.RightIffFits(was, kvdataUsed, |r.key|, |r.val|);
      if ok {
        Sizes.SizesThatFit(was, kvdataUsed, |r.key|, |r.val|);
        hide GrownSize, Sizes.AfterPut, Sizes.Right, Sizes.Fits;
        GrowKeeps(kvdata, kvdataUsed, log, Zeros(sizes.mapped - was));
        kvdata := kvdata + Zeros(sizes.mapped - was);
        AppendKeeps(kvdata, kvdataUsed, log, r);
        hide LogOk;
        kvdata := Poke(kvdata, kvdataUsed, Encode(r));
        log := log[kvdataUsed := r];
        kvdataUsed := sizes.used;
      }
    }

    // -------------------------------------------------------------- finding

    /** Whether a used cell of a sheet holds the key of a query. */
    method CellHolds(q: Query, s: nat, r: nat, c: nat) returns (hit: bool)
      requires IndexPart() && LogPart() && s < |sheets| && r < ROWS && c < CELLS
      ensures hit == Hit(sheets[s][r][c], q, at)
    {
      var x := sheets[s][r][c];
      if x.hashLo != q.hash.u1 || x.hashHi != q.hash.u0 || x.pos == 0 {
        return false;
      }
      assert CellOk(hash, sheetsIndex, sheets, dir, at, s, r, c);
      hide IndexOk;
      assert EntryOk(kvdata, kvdataUsed, log, x.pos);
      hide LogOk;
      UnpackFindsRecord(kvdata, x.pos, log[x.pos]);
      var part := Unpack(kvdata, x.pos);
      var key := x.pos + part.headerLen;
      return part.keyLen == |q.key| && kvdata[key..key + part.keyLen] == q.key;
    }

    /** Look through the two rows of a key, cell by cell. */
    method FindCell(q: Query) returns (found: bool, row: nat, cell: nat)
      requires IndexPart() && LogPart() && q == Prepare(hash, q.key)
      ensures found <==> q.key in dir
      ensures found ==> dir[q.key].row == row && dir[q.key].cell == cell && row < ROWS && cell < CELLS
    {
      var s := sheetsIndex[q.SheetIndex()];
      cell := 0;
      while cell < CELLS
        invariant cell <= CELLS
        invariant forall c :: 0 <= c < cell ==>
                    !Hit(sheets[s][q.Row1()][c], q, at) && !Hit(sheets[s][q.Row2()][c], q, at)
      {
        var hit1 := CellHolds(q, s, q.Row1(), cell);
        if hit1 {
          HitIsHome(hash, sheetsIndex, sheets, dir, at, q.key, q.Row1(), cell);
          return true, q.Row1(), cell;
        }
        var hit2 := CellHolds(q, s, q.Row2(), cell);
        if hit2 {
          HitIsHome(hash, sheetsIndex, sheets, dir, at, q.key, q.Row2(), cell);
          return true, q.Row2(), cell;
        }
        cell := cell + 1;
      }
      NoHitNoKey(hash, sheetsIndex, sheets, dir, at, q.key);
      return false, 0, 0;
    }

    /** The position of the record of a key, or 0. */
    method GetHkvRaw(q: Query) returns (pos: nat)
      requires IndexPart() && LogPart() && q == Prepare(hash, q.key)
      ensures q.key in dir ==> pos != 0 && pos == dir[q.key].pos && pos in log && log[pos].key == q.key
      ensures q.key !in dir ==> pos == 0
    {
      var found, row, cell := FindCell(q);
      if !found { return 0; }
      assert HomeOk(hash, sheetsIndex, sheets, dir, at, q.key);
      return sheets[sheetsIndex[q.SheetIndex()]][row][cell].pos;
    }

    /** The UID of a key, the same number that put_val returned for it. */
    method GetUid(q: Query) returns (u: nat)
      requires IndexPart() && LogPart() && q == Prepare(hash, q.key)
      ensures q.key in dir ==> UidOk(UidOf(q.key)) && u == Packed(0, UidOf(q.key)) != UID_NONE
      ensures q.key !in dir ==> u == UID_NONE
    {
      var found, row, cell := FindCell(q);
      if found { return Packed(0, Uid(q.SheetIndex(), row, cell)); } else { return UID_NONE; }
    }

    /** The position of the record that a UID names, or 0. */
    method GetUidHkvRaw(u: nat) returns (pos: nat)
      requires IndexPart() && LogPart()
      requires Unpacked(u).Uid? && Unpacked(u).sheetIndex < SHEETS_MAX
      ensures pos == Resolve(Snap(), Unpacked(u))
      ensures forall k, n: nat :: k in dir && n < 256 && UidOk(UidOf(k)) && u == Packed(n, UidOf(k)) ==>
                pos == dir[k].pos && pos in log && log[pos].key == k
      ensures pos != 0 ==> pos in at && at[pos] in dir && UidOf(at[pos]).row == Unpacked(u).row && dir[at[pos]].pos == pos
    {
      var uid := Unpacked(u);
      var s := sheetsIndex[uid.sheetIndex];
      pos := sheets[s][uid.row][uid.cell].pos;
      forall k, n: nat | k in dir && n < 256 && UidOk(UidOf(k)) && u == Packed(n, UidOf(k))
        ensures pos == dir[k].pos && pos in log && log[pos].key == k
      {
        UidRoundTrip(n, UidOf(k));
        assert HomeOk(hash, sheetsIndex, sheets, dir, at, k);
      }
      if pos != 0 {
        assert CellOk(hash, sheetsIndex, sheets, dir, at, s, uid.row, uid.cell);
      }
    }

    /** The place under which a stored key is known. */
    ghost function UidOf(k: seq<byte>): Uid
      requires k in dir
      reads this`dir
    {
      Uid(Prepare(hash, k).SheetIndex(), dir[k].row, dir[k].cell)
    }

    // -------------------------------------------------------------- count nodes

    var counts: seq<Count>
    var countsPages: nat
    var countsNextFree: nat
    var countsFree: nat
    var countsUsed: nat
    var countsLo: seq<nat>
    var countsHi: seq<nat>

    ghost var links: map<nat, Link>
    ghost var owner: map<nat, nat>
    ghost var stamp: map<nat, nat>
    ghost var clock: nat
    ghost var free: seq<nat>

    ghost function Graph(): Graph
      reads this`counts, this`links, this`countsLo, this`countsHi, this`owner, this`stamp
    {
      CdbCounts.Graph(counts, links, countsLo, countsHi, owner, stamp)
    }

    ghost predicate SlotPart()
      reads this`counts, this`owner, this`countsNextFree, this`countsFree, this`countsUsed, this`countsPages, this`free
    {
      SlotsOk(counts, owner, countsNextFree, countsFree, countsUsed, countsPages, free)
    }

    ghost predicate GraphPart()
      reads this`counts, this`links, this`countsLo, this`countsHi, this`owner, this`stamp, this`clock
    {
      GraphOk(Graph()) && |countsLo| == LISTS && FreshStamp(Graph(), clock)
    }

    ghost predicate LinkPart()
      reads this`links, this`log
    {
      LinksStored(log, links)
    }

    /** Put slots from..to on the free list, so that the lowest is taken first. */
    method FreePush(from: nat, to: nat)
      requires 1 <= from <= to + 1 && to < |counts|
      requires FreeListOk(counts, countsNextFree, countsFree, free)
      requires forall s :: from <= s <= to ==> s !in free
      modifies this`counts, this`countsNextFree, this`countsFree, this`free
      ensures FreeListOk(counts, countsNextFree, countsFree, free)
      ensures |counts| == old(|counts|)
      ensures forall s :: 0 <= s < |counts| && !(from <= s <= to) ==> counts[s] == old(counts)[s]
      ensures forall s :: s in free <==> s in old(free) || from <= s <= to
    {
      var c := to;
      while c >= from
        invariant from - 1 <= c <= to
        invariant |counts| == old(|counts|)
        invariant FreeListOk(counts, countsNextFree, countsFree, free)
        invariant forall s :: 0 <= s < |counts| && !(c < s <= to) ==> counts[s] == old(counts)[s]
        invariant forall s :: s in free <==> s in old(free) || c < s <= to
      {
        ReleaseKeeps(counts, countsNextFree, countsFree, free, c);
        free := [c] + free;
        counts := Released(counts, countsNextFree, c);
        countsNextFree := c;
        countsFree := countsFree + 1;
        c := c - 1;
      }
    }

    /** Add a page of slots, all of them free. */
    method AddPage()
      requires SlotPart() && countsFree == 0
      modifies this`counts, this`countsPages, this`countsNextFree, this`countsFree, this`free
      ensures SlotPart() && countsFree > 0
      ensures countsPages == old(countsPages) + 1
      ensures |counts| > old(|counts|)
      ensures forall s :: s in owner ==> counts[s] == old(counts)[s]
    {
      CapacityGrows(countsPages);
      countsPages := countsPages + 1;
      var size := if countsPages == 1 then 1 else |counts|;
      var more := Capacity(countsPages) - size;
      counts := counts + seq(Capacity(countsPages) - |counts|, _ => Count(0, NONE, NONE, NONE));
      FreePush(size, size + more - 1);
      assert size in free;
    }

    /** Take a slot off the free list for a node of list l; neither slot 0 nor a live slot. */
    method FreePop(ghost l: nat) returns (c: nat)
      requires SlotPart()
      modifies this`counts, this`countsPages, this`countsNextFree, this`countsFree, this`countsUsed, this`free
      ensures 0 < c < |counts| && c !in owner
      ensures SlotsOk(counts, owner[c := l], countsNextFree, countsFree, countsUsed, countsPages, free)
      ensures old(|counts|) <= |counts| == Capacity(countsPages) && countsPages <= old(countsPages) + 1
      ensures forall s :: s in owner ==> s < old(|counts|) && counts[s] == old(counts)[s]
    {
      if countsFree == 0 {
        AddPage();
      }
      c := countsNextFree;
      TakeKeeps(counts, countsNextFree, countsFree, free);
      assert c == free[0];
      assert free == [c] + free[1..];
      countsNextFree := counts[c].next;
      countsFree := countsFree - 1;
      countsUsed := countsUsed + 1;
      free := free[1..];
    }

    // -------------------------------------------------------------- chain links

    /** Read the link stored in the value of a counter key. */
    method LoadLink(p: nat) returns (k: Link)
      requires LogPart() && LinkPart() && p in links
      ensures k == links[p]
    {
      var r := log[p];
      assert links[p] == links[p];
      assert EntryOk(kvdata, kvdataUsed, log, p);
      hide LogOk;
      UnpackFindsRecord(kvdata, p, r);
      LinkRoundTrip(kvdata, ValuePos(p, r), links[p]);
      var part := Unpack(kvdata, p);
      k := GetLink(kvdata, p + part.headerLen + part.keyLen);
    }

    /** Overwrite the value of a counter key by a link. */
    method StoreLink(p: nat, k: Link)
      requires LogPart() && LinkPart()
      requires p in log && |log[p].val| == LINK_BYTES && LinkFits(k)
      modifies this`kvdata, this`log, this`links
      ensures LogPart() && LinkPart()
      ensures links == old(links)[p := k]
      ensures SameRecords(old(log), log, links.Keys)
    {
      StoreLinkKeeps(kvdata, kvdataUsed, log, at, links, p, k);
      hide LogOk, Keyed, LinksStored, SameRecords;
      var part := Unpack(kvdata, p);
      kvdata := Poke(kvdata, p + part.headerLen + part.keyLen, LinkBytes(k));
      log := log[p := Rec(log[p].key, LinkBytes(k))];
      links := links[p := k];
      assert links.Keys == old(links.Keys) + {p};
    }

    /** Put a key at the head of the chain of node s. */
    method JoinNode(s: nat, pos: nat)
      requires LogPart() && LinkPart() && GraphPart() && SlotPart()
      requires s in owner && |counts| < U32
      requires pos in log && |log[pos].val| == LINK_BYTES && pos !in links
      modifies this`kvdata, this`log, this`links, this`counts, this`stamp, this`clock
      ensures LogPart() && LinkPart() && GraphPart() && SlotPart()
      ensures SameRecords(old(log), log, links.Keys)
      ensures |counts| == old(|counts|) && links.Keys == old(links.Keys) + {pos}
      ensures s < old(|counts|) && Tallies(Graph()) == old(Tallies(Graph()))[pos := (owner[s], old(counts)[s].count)]
    {
      hide GraphOk, LogOk, SlotsOk, CanPush, LinksStored, SameRecords, FreshStamp, Keyed, Tallies;
      ghost var g := Graph();
      var head := CanJoin(s, pos);
      ghost var g' := PushKey(g, s, pos, clock);
      PushKeyKeeps(g, s, pos, clock);
      ChainBefore(s, head, pos);
      counts := counts[s := counts[s].(hkv1 := pos)];
      SlotsKept(g.counts);
      stamp := stamp[pos := clock];
      clock := clock + 1;
      assert Graph() == g';
    }

    /** Link pos in front of the head of the chain of node s. */
    method ChainBefore(s: nat, head: nat, pos: nat)
      requires LogPart() && LinkPart()
      requires head in links && head in log && |log[head].val| == LINK_BYTES && head != pos
      requires pos in log && |log[pos].val| == LINK_BYTES && pos !in links
      requires pos < U32 && head < U32 && s < U32 && LinkFits(links[head])
      modifies this`kvdata, this`log, this`links
      ensures LogPart() && LinkPart() && SameRecords(old(log), log, links.Keys)
      ensures links == old(links)[head := old(links)[head].(last := pos)][pos := Link(s, head, NONE)]
    {
      hide LogOk, LinksStored, SameRecords, Keyed;
      var k := LoadLink(head);
      ghost var log0 := log;
      StoreLink(head, k.(last := pos));
      ghost var log1, keys1 := log, links.Keys;
      SameRecordAt(log0, log1, keys1, pos);
      StoreLink(pos, Link(s, head, NONE));
      SameRecordsTrans(log0, log1, log, keys1, links.Keys);
    }

    /** The head of the chain of node s, which pos may be put in front of. */
    method CanJoin(s: nat, pos: nat) returns (head: nat)
      requires LogPart() && LinkPart() && GraphPart()
      requires s in owner && pos in log && pos !in links
      ensures CanPush(Graph(), s, pos, clock) && s < |counts| && counts[s].hkv1 == head
      ensures head in links && head in log && |log[head].val| == LINK_BYTES && head != pos
      ensures 0 < pos < U32 && 0 < head < U32 && LinkFits(links[head])
    {
      StartsInside(kvdata, kvdataUsed, log, pos);
      CanPushHere(Graph(), s, pos, clock);
      hide GraphOk, LogOk;
      head := counts[s].hkv1;
      assert links[head] == links[head];
      StartsInside(kvdata, kvdataUsed, log, head);
    }

    lemma {:induction false} SameRecordAt(a: Log, b: Log, ls: set<nat>, p: nat)
      requires SameRecords(a, b, ls) && p in a
      ensures p in b && |b[p].val| == |a[p].val| && b[p].key == a[p].key
    {
      var r := b[p];
    }

    /** Make a node for count c, owning just one key, between two neighbours of list l. */
    method InsertNode(l: nat, prev: nat, next: nat, c: nat, pos: nat)
      requires LogPart() && LinkPart() && GraphPart() && SlotPart()
      requires Gap(Graph(), l, prev, next, c)
      requires countsPages + 1 < PAGES_MAX
      requires pos in log && |log[pos].val| == LINK_BYTES && pos !in links
      modifies this`kvdata, this`log, this`links, this`stamp, this`clock
      modifies this`counts, this`countsPages, this`countsNextFree, this`countsFree, this`countsUsed, this`free, this`owner
      modifies this`countsLo, this`countsHi
      ensures LogPart() && LinkPart() && GraphPart() && SlotPart()
      ensures SameRecords(old(log), log, links.Keys)
      ensures countsPages <= old(countsPages) + 1 && links.Keys == old(links.Keys) + {pos}
      ensures Tallies(Graph()) == old(Tallies(Graph()))[pos := (l, c)]
    {
      hide GraphOk, LogOk, LinksStored, SameRecords, Keyed, Tallies, Gap, NewNode, SlotsOk;
      ghost var g0 := Graph();
      StartsInside(kvdata, kvdataUsed, log, pos);
      var s := FreePop(l);
      assert |counts| < U32 by { CapacityFits(countsPages); }
      FrameKeeps(g0, counts);
      ghost var g := Graph();
      GapFrame(g0, g, l, prev, next, c);
      NewNodeKeeps(g, l, prev, next, s, c, pos, clock);
      StoreLink(pos, Link(s, NONE, NONE));
      LinkNode(g, l, prev, next, s, c, pos);
    }

    /** Write a fresh node and point its neighbours, or the ends of the list, at it. */
    method LinkNode(ghost g: Graph, l: nat, prev: nat, next: nat, s: nat, c: nat, pos: nat)
      requires Graph() == g.(links := g.links[pos := Link(s, NONE, NONE)])
      requires Gap(g, l, prev, next, c)
      requires 0 < s < |counts| && s !in owner && prev != s && next != s
      requires SlotsOk(counts, owner[s := l], countsNextFree, countsFree, countsUsed, countsPages, free)
      modifies this`counts, this`countsLo, this`countsHi, this`owner, this`stamp, this`clock
      ensures Graph() == NewNode(g, l, prev, next, s, c, pos, old(clock)) && clock == old(clock) + 1
      ensures SlotPart() && |countsLo| == old(|countsLo|)
    {
      hide SlotsOk;
      counts := counts[s := Count(c, next, prev, pos)];
      if prev == NONE {
        countsLo := countsLo[l := s];
      } else {
        counts := counts[prev := counts[prev].(next := s)];
      }
      if next == NONE {
        countsHi := countsHi[l := s];
      } else {
        counts := counts[next := counts[next].(last := s)];
      }
      owner := owner[s := l];
      stamp := stamp[pos := clock];
      clock := clock + 1;
      SlotsKept(g.counts);
    }

    /** Changing live slots leaves the allocator alone. */
    lemma {:induction false} SlotsKept(was: seq<Count>)
      requires SlotsOk(was, owner, countsNextFree, countsFree, countsUsed, countsPages, free)
      requires |counts| == |was| && forall s :: 0 <= s < |was| && s !in owner ==> counts[s] == was[s]
      ensures SlotPart()
    {
      LiveSlotsAreFree(was, counts, owner, countsNextFree, countsFree, countsUsed, countsPages, free);
    }

    /** Take a key out of its chain; if it was alone there, take its node out of the list as well. */
    method LeaveNode(l: nat, pos: nat) returns (dropped: bool)
      requires LogPart() && LinkPart() && GraphPart() && SlotPart()
      requires LeaveShape(Graph(), pos) && !IsTopAlone(Graph(), pos) && l == owner[links[pos].slot]
      modifies this`kvdata, this`log, this`links, this`stamp
      modifies this`counts, this`countsNextFree, this`countsFree, this`countsUsed, this`free, this`owner, this`countsLo
      ensures LogPart() && LinkPart() && GraphPart() && SlotPart()
      ensures SameRecords(old(log), log, old(links.Keys))
      ensures |counts| == old(|counts|) && links.Keys == old(links.Keys) - {pos}
      ensures Tallies(Graph()) == old(Tallies(Graph())) - {pos}
      ensures dropped <==> old(links)[pos].next == NONE && old(links)[pos].last == NONE
      ensures if dropped then SameLive(DropNode(old(Graph()), pos), Graph()) else Graph() == UnlinkKey(old(Graph()), pos)
    {
      hide GraphOk, LogOk, SlotsOk, LinksStored, SameRecords, Keyed, Tallies, CanUnlink, CanDrop;
      ghost var g := Graph();
      LeaveReady(g, pos);
      var c := UnchainKey(pos);
      dropped := counts[c].hkv1 == NONE;
      if dropped {
        DropNodeKeeps(g, pos);
        ReleaseNode(l, c);
        SameLiveKeeps(DropNode(g, pos), Graph());
      } else {
        UnlinkKeyKeeps(g, pos);
      }
    }

    /** Take a key out of the chain of its node c, leaving the chain empty if it was alone. */
    method UnchainKey(pos: nat) returns (c: nat)
      requires LogPart() && LinkPart() && SlotPart()
      requires LeaveShape(Graph(), pos)
      modifies this`kvdata, this`log, this`links, this`stamp, this`counts
      ensures LogPart() && LinkPart() && SlotPart()
      ensures SameRecords(old(log), log, old(links.Keys))
      ensures Graph() == UnlinkKey(old(Graph()), pos) && c == old(links)[pos].slot
    {
      hide LogOk, SlotsOk, LinksStored, SameRecords, Keyed;
      ghost var g := Graph();
      var k := LoadLink(pos);
      c := k.slot;
      ChainAround(pos, k);
      if counts[c].hkv1 == pos {
        counts := counts[c := counts[c].(hkv1 := k.next)];
      }
      stamp := stamp - {pos};
      assert Graph() == UnlinkKey(g, pos);
      SlotsKept(g.counts);
    }

    /** Change the link of a key that is in a chain. */
    method Relink(p: nat, k: Link)
      requires LogPart() && LinkPart() && p in links && LinkFits(k)
      modifies this`kvdata, this`log, this`links
      ensures LogPart() && LinkPart() && SameRecords(old(log), log, old(links.Keys))
      ensures links == old(links)[p := k] && links.Keys == old(links.Keys)
    {
      assert links[p] == links[p];
      hide LogOk, Keyed, SameRecords;
      StoreLink(p, k);
    }

    /** Join the neighbours of a key in its chain to one another. */
    method ChainAround(pos: nat, k: Link)
      requires LogPart() && LinkPart()
      requires InChain(links, pos) && k == links[pos]
      modifies this`kvdata, this`log, this`links
      ensures LogPart() && LinkPart() && SameRecords(old(log), log, old(links.Keys))
      ensures links == Around(old(links), pos)
    {
      hide LogOk, Keyed, SameRecords, LinksStored;
      LinksFit(pos, k);
      ghost var log0, keys := log, links.Keys;
      PointBack(k);
      ghost var log1 := log;
      PointAhead(k);
      SameRecordsTrans(log0, log1, log, keys, keys);
      LinksStoredLess(log, links, pos);
      links := links - {pos};
    }

    /** Let the key after a leaving one know what came before it. */
    method PointBack(k: Link)
      requires LogPart() && LinkPart() && LinkFits(k)
      requires k.next != NONE ==> k.next in links
      modifies this`kvdata, this`log, this`links
      ensures LogPart() && LinkPart() && SameRecords(old(log), log, old(links.Keys)) && links.Keys == old(links.Keys)
      ensures links == if k.next == NONE then old(links) else old(links)[k.next := old(links)[k.next].(last := k.last)]
    {
      assert k.next != NONE ==> LinkFits(links[k.next]);
      SameRecordsRefl(log, links.Keys);
      hide LogOk, Keyed, SameRecords, LinksStored;
      if k.next != NONE {
        var n := LoadLink(k.next);
        Relink(k.next, n.(last := k.last));
      }
    }

    /** Let the key before a leaving one know what came after it. */
    method PointAhead(k: Link)
      requires LogPart() && LinkPart() && LinkFits(k)
      requires k.last != NONE ==> k.last in links
      modifies this`kvdata, this`log, this`links
      ensures LogPart() && LinkPart() && SameRecords(old(log), log, old(links.Keys)) && links.Keys == old(links.Keys)
      ensures links == if k.last == NONE then old(links) else old(links)[k.last := old(links)[k.last].(next := k.next)]
    {
      assert k.last != NONE ==> LinkFits(links[k.last]);
      SameRecordsRefl(log, links.Keys);
      hide LogOk, Keyed, SameRecords, LinksStored;
      if k.last != NONE {
        var n := LoadLink(k.last);
        Relink(k.last, n.(next := k.next));
      }
    }

    lemma {:induction false} LinksFit(pos: nat, k: Link)
      requires LinkPart() && InChain(links, pos) && k == links[pos]
      ensures LinkFits(k) && (k.next != NONE ==> LinkFits(links[k.next])) && (k.last != NONE ==> LinkFits(links[k.last]))
    {
    }

    /** Unlink a node whose chain is empty and give its slot back. */
    method ReleaseNode(l: nat, c: nat)
      requires SlotPart()
      requires c in owner && 0 < c < |counts| && |countsLo| == |countsHi| && owner[c] == l < |countsLo|
      requires var n := counts[c];
               && n.next < |counts| && n.last < |counts| && n.next != NONE && n.next in owner && n.next != c
               && (n.last != NONE ==> n.last in owner && n.last != c && n.last != n.next)
               && (n.last == NONE ==> countsLo[owner[c]] == c)
      modifies this`counts, this`countsNextFree, this`countsFree, this`countsUsed, this`free, this`owner, this`countsLo
      ensures SlotPart()
      ensures SameLive(UnlinkNode(old(Graph()), c), Graph())
    {
      hide SlotsOk;
      var next, last := counts[c].next, counts[c].last;
      ghost var g := Graph();
      GiveBack(c);
      JoinNeighbours(g, l, c, next, last);
    }

    /** Put the slot of a node on the free list. */
    method GiveBack(c: nat)
      requires SlotPart() && c in owner && 0 < c < |counts|
      modifies this`counts, this`countsNextFree, this`countsFree, this`countsUsed, this`free, this`owner
      ensures SlotPart() && owner == old(owner) - {c}
      ensures |counts| == old(|counts|)
      ensures forall s :: 0 <= s < |counts| && s != c ==> counts[s] == old(counts)[s]
    {
      ghost var was, free0, first0, n0 := counts, free, countsNextFree, countsFree;
      FreePush(c, c);
      DropKeeps(was, owner, first0, n0, countsUsed, countsPages, free0, counts, countsNextFree, countsFree, free, c);
      countsUsed := countsUsed - 1;
      owner := owner - {c};
    }

    /** Join the neighbours of a node in its list to one another; the highest node is never taken out. */
    method JoinNeighbours(ghost g: Graph, l: nat, c: nat, next: nat, last: nat)
      requires c in g.owner && c < |g.counts| == |counts| && |g.lo| == |g.hi| && g.owner[c] == l < |g.lo|
      requires next == g.counts[c].next && last == g.counts[c].last && next < |counts| && last < |counts|
      requires next != NONE && next != c && next in owner
      requires last != NONE ==> last != c && last != next && last in owner
      requires last == NONE ==> g.lo[l] == c
      requires SameLive(g.(owner := g.owner - {c}), Graph()) && SlotPart()
      modifies this`counts, this`countsLo
      ensures SameLive(UnlinkNode(g, c), Graph()) && SlotPart()
    {
      ghost var was := counts;
      if next != NONE {
        counts := counts[next := counts[next].(last := last)];
      } else {
        assert false;
      }
      if last != NONE {
        counts := counts[last := counts[last].(next := next)];
      } else {
        var low := countsLo[l];
        countsLo := countsLo[l := if low == c then next else low];
      }
      LiveSlotsAreFree(was, counts, owner, countsNextFree, countsFree, countsUsed, countsPages, free);
    }

    // -------------------------------------------------------------- incrementing

    ghost predicate CounterPart()
      reads this`counts, this`links, this`countsLo, this`countsHi, this`owner, this`stamp, this`clock, this`log,
            this`countsNextFree, this`countsFree, this`countsUsed, this`countsPages, this`free
    {
      LinkPart() && GraphPart() && SlotPart() && countsPages < PAGES_MAX
    }

    /** Raise the count of a counter key of list l by one. */
    method Climb(l: nat, pos: nat) returns (count: nat)
      requires LogPart() && CounterPart() && countsPages + 1 < PAGES_MAX
      requires pos in links && pos in Tallies(Graph()) && Tallies(Graph())[pos].0 == l
      modifies this`kvdata, this`log, this`links, this`stamp, this`clock
      modifies this`counts, this`countsPages, this`countsNextFree, this`countsFree, this`countsUsed, this`free, this`owner
      modifies this`countsLo, this`countsHi
      ensures LogPart() && CounterPart()
      ensures SameRecords(old(log), log, old(links.Keys)) && links.Keys == old(links.Keys)
      ensures count == old(Tallies(Graph()))[pos].1 + 1
      ensures Tallies(Graph()) == old(Tallies(Graph()))[pos := (l, count)]
    {
      hide LogOk, SlotsOk, LinksStored, SameRecords, Keyed, GraphOk, Tallies, LeaveShape, CanDrop, CanUnlink;
      SameRecordsRefl(log, links.Keys);
      LeaveReady(Graph(), pos);
      TallyAt(Graph(), pos);
      var k := LoadLink(pos);
      var c := k.slot;
      var next := counts[c].next;
      count := counts[c].count + 1;
      if counts[c].hkv1 == pos && k.next == NONE && (next == NONE || counts[next].count > count) {
        RaiseNode(c, pos);
      } else {
        MoveUp(l, pos, c, next, count);
      }
    }

    /** Raise the count of the only key of a node by raising the node. */
    method RaiseNode(c: nat, pos: nat)
      requires GraphPart() && SlotPart()
      requires pos in links && links[pos].slot == c && LeaveShape(Graph(), pos) && CanClimbAlone(Graph(), pos)
      modifies this`counts
      ensures GraphPart() && SlotPart()
      ensures Tallies(Graph()) == old(Tallies(Graph()))[pos := (owner[c], old(counts[c].count) + 1)]
    {
      ghost var g := Graph();
      ClimbAloneOk(g, pos);
      BumpKeeps(g, c, pos);
      TallyAt(g, pos);
      hide GraphOk, SlotsOk, Tallies, LeaveShape;
      counts := counts[c := counts[c].(count := counts[c].count + 1)];
      SlotsKept(g.counts);
      assert Graph() == Bump(g, c);
    }

    /** Move a key from its node c to the node with the next count up. */
    method MoveUp(l: nat, pos: nat, c: nat, next: nat, count: nat)
      requires LogPart() && CounterPart() && countsPages + 1 < PAGES_MAX
      requires LeaveShape(Graph(), pos) && !CanClimbAlone(Graph(), pos)
      requires links[pos].slot == c && owner[c] == l && counts[c].next == next && counts[c].count + 1 == count
      modifies this`kvdata, this`log, this`links, this`stamp, this`clock
      modifies this`counts, this`countsPages, this`countsNextFree, this`countsFree, this`countsUsed, this`free, this`owner
      modifies this`countsLo, this`countsHi
      ensures LogPart() && CounterPart()
      ensures SameRecords(old(log), log, old(links.Keys)) && links.Keys == old(links.Keys)
      ensures Tallies(Graph()) == old(Tallies(Graph()))[pos := (l, count)]
    {
      hide LogOk, SlotsOk, LinksStored, SameRecords, Keyed, GraphOk, CanUnlink, CanDrop, Gap, UnlinkKey, DropNode, Tallies;
      ghost var g, t := Graph(), Tallies(Graph());
      LeaveReady(g, pos);
      ghost var log0, keys := log, links.Keys;
      assert pos in log && |log[pos].val| == LINK_BYTES by { StoredInLog(log, links, pos); }
      var dropped := LeaveNode(l, pos);
      if dropped { NextAfterDrop(g, pos); } else { RoomAfterUnlink(g, pos); }
      ghost var log1 := log;
      SameRecordAt(log0, log1, keys, pos);
      Settle(l, c, next, count, pos);
      KeyBack(keys, pos);
      SameRecordsTrans(log0, log1, log, keys, keys);
      PutBack(t, pos, (l, count));
    }

    /** Put a key in no chain into the node with this count above node c, making one if there is none. */
    method Settle(l: nat, c: nat, next: nat, count: nat, pos: nat)
      requires LogPart() && CounterPart() && countsPages + 1 < PAGES_MAX
      requires pos in log && |log[pos].val| == LINK_BYTES && pos !in links
      requires if next != NONE && next < |counts| && counts[next].count == count then next in owner && owner[next] == l
               else Gap(Graph(), l, c, next, count)
      modifies this`kvdata, this`log, this`links, this`stamp, this`clock
      modifies this`counts, this`countsPages, this`countsNextFree, this`countsFree, this`countsUsed, this`free, this`owner
      modifies this`countsLo, this`countsHi
      ensures LogPart() && CounterPart()
      ensures SameRecords(old(log), log, links.Keys) && links.Keys == old(links.Keys) + {pos}
      ensures Tallies(Graph()) == old(Tallies(Graph()))[pos := (l, count)]
    {
      hide LogOk, SlotsOk, LinksStored, SameRecords, Keyed, GraphOk;
      if next == NONE {
        InsertNode(l, c, NONE, count, pos);
      } else if counts[next].count == count {
        CountsFit();
        JoinNode(next, pos);
      } else {
        InsertNode(l, c, next, count, pos);
      }
    }

    lemma {:induction false} CountsFit()
      requires SlotPart() && countsPages < PAGES_MAX
      ensures |counts| < U32
    {
      CapacityFits(countsPages);
    }

    /** Give a key whose record was just appended the count 1 in list l. */
    method Enter(l: nat, pos: nat)
      requires LogPart() && CounterPart() && countsPages + 1 < PAGES_MAX && l < LISTS
      requires pos in log && |log[pos].val| == LINK_BYTES && pos !in links
      modifies this`kvdata, this`log, this`links, this`stamp, this`clock
      modifies this`counts, this`countsPages, this`countsNextFree, this`countsFree, this`countsUsed, this`free, this`owner
      modifies this`countsLo, this`countsHi
      ensures LogPart() && CounterPart()
      ensures SameRecords(old(log), log, links.Keys) && links.Keys == old(links.Keys) + {pos}
      ensures Tallies(Graph()) == old(Tallies(Graph()))[pos := (l, 1)]
    {
      hide LogOk, SlotsOk, LinksStored, SameRecords, Keyed, GraphOk, Gap;
      ghost var g := Graph();
      LowEnd(g, l);
      var low := countsLo[l];
      if low == NONE {
        InsertNode(l, NONE, NONE, 1, pos);
      } else if 1 < counts[low].count {
        InsertNode(l, NONE, low, 1, pos);
      } else {
        CountsFit();
        JoinNode(low, pos);
      }
    }

    ghost predicate Valid()
      reads this
    {
      IndexPart() && LogPart() && CounterPart()
    }

    /** What the program goes by to tell a counter: a value of twelve bytes that begins with the number of a count slot. */
    ghost predicate ReadsAsCounter(pos: nat)
      reads this`log, this`counts
    {
      pos in log && |log[pos].val| == LINK_BYTES && Get4(log[pos].val, 0) < |counts|
    }

    /**
     * The record at pos may be incremented in list l: if it is a counter it is in that list and its
     * count has not reached the end of its field; if it is not, it does not read as one.
     */
    ghost predicate CanCount(pos: nat, l: nat)
      reads this`log, this`counts, this`links, this`countsLo, this`countsHi, this`owner, this`stamp
    {
      if pos in links then
        pos in Tallies(Graph()) && Tallies(Graph())[pos].0 == l && Tallies(Graph())[pos].1 + 1 < COUNT_MAX
      else
        !ReadsAsCounter(pos)
    }

    /** Incrementing key k in list l keeps within what the counters can hold. */
    ghost predicate CanInc(k: seq<byte>, l: nat)
      reads this
    {
      l < LISTS && countsPages + 1 < PAGES_MAX && (k in dir ==> CanCount(dir[k].pos, l))
    }

    /** The length of a value and, when it is as long as a link, the slot it names if it is one. */
    method PeekLink(pos: nat) returns (valLen: nat, slot: nat)
      requires LogPart() && LinkPart() && pos in log
      ensures valLen == |log[pos].val|
      ensures valLen == LINK_BYTES ==> slot == Get4(log[pos].val, 0)
      ensures pos in links ==> valLen == LINK_BYTES && slot == links[pos].slot
    {
      ghost var r := log[pos];
      assert EntryOk(kvdata, kvdataUsed, log, pos);
      hide LogOk;
      UnpackFindsRecord(kvdata, pos, r);
      var part := Unpack(kvdata, pos);
      var v := pos + part.headerLen + part.keyLen;
      valLen := part.valLen;
      slot := if valLen == LINK_BYTES then Get4(kvdata, v) else 0;
      assert kvdata[v..v + valLen] == r.val;
      if valLen == LINK_BYTES {
        assert forall i :: 0 <= i < 4 ==> r.val[i] == kvdata[v + i];
      }
      if pos in links {
        assert r.val == LinkBytes(links[pos]);
        assert r.val[0..4] == Le4(links[pos].slot);
        Le4RoundTrip(links[pos].slot, r.val, 0);
      }
    }

    /** Store a key that is to become a counter, with room for its link; 0 if it cannot be stored. */
    method PutCounter(q: Query, junk: seq<byte>) returns (pos: nat, ok: bool)
      requires IndexPart() && LogPart() && LinkPart()
      requires q == Prepare(hash, q.key) && q.key !in dir && |junk| == LINK_BYTES
      modifies this`sheets, this`sheetsIndex, this`cellsUsed, this`kvdata, this`kvdataUsed, this`dir, this`at, this`log
      ensures IndexPart() && LogPart() && LinkPart()
      ensures !ok ==> pos == 0 && !old(Fits(|q.key|, LINK_BYTES))
      ensures pos == 0 ==> dir == old(dir) && log == old(log) && kvdata == old(kvdata) && kvdataUsed == old(kvdataUsed)
      ensures pos == 0 && ok ==> Refuses(|q.key|, LINK_BYTES) || NoRoom(q)
      ensures pos != 0 ==>
                && q.key in dir && dir[q.key].pos == pos && dir == old(dir)[q.key := dir[q.key]]
                && pos !in old(log) && pos !in links && log == old(log)[pos := Rec(q.key, junk)]
    {
      hide IndexOk, LogOk, LinksStored, Keyed, Fits;
      ghost var log0 := log;
      var uid;
      uid, ok := PutVal(q, junk);
      if uid.NoUid? { return 0, ok; }
      LinksStoredMore(log0, links, dir[q.key].pos, Rec(q.key, junk));
      pos := GetHkvRaw(q);
    }

    /** Increment a key that is not stored: store it as a counter with count 1, unless it is refused or there is no room. */
    method IncAbsent(q: Query, l: nat, junk: seq<byte>) returns (count: nat, ok: bool)
      requires IndexPart() && LogPart() && CounterPart()
      requires q == Prepare(hash, q.key) && q.key !in dir && |junk| == LINK_BYTES
      requires l < LISTS && countsPages + 1 < PAGES_MAX
      modifies this
      ensures IndexPart() && LogPart() && CounterPart()
      ensures IncStep(old(Snap()), Snap(), q.key, l, count)
      ensures !ok ==> q.key !in dir && !old(Fits(|q.key|, LINK_BYTES))
      ensures q.key !in dir ==> kvdata == old(kvdata) && kvdataUsed == old(kvdataUsed)
      ensures q.key !in dir && ok ==> Refuses(|q.key|, LINK_BYTES) || NoRoom(q)
    {
      hide IndexOk, LogOk, SlotsOk, LinksStored, Keyed, GraphOk, Tallies, IncStep, FreshStamp, Fits, NoRoom, Refuses;
      ghost var s0, g0 := Snap(), Graph();
      TalliesInLog();
      var pos;
      pos, ok := PutCounter(q, junk);
      assert Graph() == g0;
      if pos == 0 {
        NoIncIsStep(s0, Snap(), q.key, l);
        count := 0;
      } else {
        EnterStep(q.key, l, pos, s0);
        count := 1;
      }
    }

    /** Enter the record just appended for key k; s0 is the instance before it was. */
    method EnterStep(ghost k: seq<byte>, l: nat, pos: nat, ghost s0: Snapshot)
      requires IndexPart() && LogPart() && CounterPart() && countsPages + 1 < PAGES_MAX && l < LISTS
      requires k in dir && dir[k].pos == pos && pos in log && log[pos].key == k && |log[pos].val| == LINK_BYTES && pos !in links
      requires k !in s0.dir && dir == s0.dir[k := dir[k]] && pos !in s0.log && log == s0.log[pos := log[pos]]
      requires s0.tallies == Tallies(Graph()) && s0.tallies.Keys <= s0.log.Keys
      modifies this`kvdata, this`log, this`links, this`stamp, this`clock
      modifies this`counts, this`countsPages, this`countsNextFree, this`countsFree, this`countsUsed, this`free, this`owner
      modifies this`countsLo, this`countsHi
      ensures LogPart() && CounterPart()
      ensures IncStep(s0, Snap(), k, l, 1)
    {
      hide IndexOk, LogOk, SlotsOk, LinksStored, SameRecords, RecordsKept, Keyed, GraphOk, Tallies, IncStep, OwnRecords;
      ghost var r := log[pos];
      IndexHasOwnRecords(hash, sheetsIndex, sheets, dir, at);
      KeysOfTallies();
      Enter(l, pos);
      AppendedRecordsAreKept(s0.log, pos, r, log, s0.tallies.Keys);
      FirstIncIsStep(s0, Snap(), k, l);
    }

    lemma {:induction false} KeysOfTallies()
      requires GraphPart()
      ensures Tallies(Graph()).Keys == links.Keys
    {
      TalliesAreTally(Graph());
    }

    /**
     * What inc makes of a key that is stored at pos, before it touches anything: 0 for an early
     * out, and else the count that it is going to give the key and return.
     */
    method CountNew(pos: nat) returns (count: nat)
      requires LogPart() && LinkPart() && GraphPart() && pos in log
      ensures count == 0 <==> !ReadsAsCounter(pos)
      ensures pos in links ==> pos in Tallies(Graph()) && count == Tallies(Graph())[pos].1 + 1
    {
      SlotsLive(pos);
      KeysOfTallies();
      if pos in links { TallyAt(Graph(), pos); }
      hide LogOk, LinksStored, Keyed, GraphOk, Tallies, Get4, FreshStamp;
      var valLen, slot := PeekLink(pos);
      if valLen != LINK_BYTES { return 0; }
      if slot >= |counts| { return 0; }
      count := counts[slot].count + 1;
    }

    /** Increment a key that is stored at pos, if it is a counter. */
    method IncStored(ghost k: seq<byte>, l: nat, pos: nat) returns (count: nat)
      requires IndexPart() && LogPart() && CounterPart() && countsPages + 1 < PAGES_MAX
      requires k in dir && dir[k].pos == pos && pos in log && CanCount(pos, l)
      modifies this`kvdata, this`log, this`links, this`stamp, this`clock
      modifies this`counts, this`countsPages, this`countsNextFree, this`countsFree, this`countsUsed, this`free, this`owner
      modifies this`countsLo, this`countsHi
      ensures LogPart() && CounterPart()
      ensures IncStep(old(Snap()), Snap(), k, l, count)
      ensures count == 0 ==> old(pos !in links) && unchanged(this)
    {
      hide IndexOk, LogOk, SlotsOk, LinksStored, Keyed, GraphOk, Tallies, IncStep, Get4, FreshStamp;
      TalliesInLog();
      count := CountNew(pos);
      if count == 0 {
        NoIncIsStep(Snap(), Snap(), k, l);
      } else {
        count := IncCounter(k, l, pos);
      }
    }

    method IncCounter(ghost k: seq<byte>, l: nat, pos: nat) returns (count: nat)
      requires IndexPart() && LogPart() && CounterPart() && countsPages + 1 < PAGES_MAX
      requires k in dir && dir[k].pos == pos && pos in links && pos in Tallies(Graph()) && Tallies(Graph())[pos].0 == l
      modifies this`kvdata, this`log, this`links, this`stamp, this`clock
      modifies this`counts, this`countsPages, this`countsNextFree, this`countsFree, this`countsUsed, this`free, this`owner
      modifies this`countsLo, this`countsHi
      ensures LogPart() && CounterPart()
      ensures IncStep(old(Snap()), Snap(), k, l, count) && count > 0
    {
      hide IndexOk, LogOk, SlotsOk, LinksStored, SameRecords, RecordsKept, Keyed, GraphOk, Tallies, IncStep, OwnRecords;
      ghost var s0 := Snap();
      TalliesInLog();
      IndexHasOwnRecords(hash, sheetsIndex, sheets, dir, at);
      count := Climb(l, pos);
      SameRecordsAreKept(s0.log, log, s0.tallies.Keys);
      NextIncIsStep(s0, Snap(), k, l, count);
    }

    /** The instance as it is now. */
    ghost function Snap(): Snapshot
      reads this`sheetsIndex, this`sheets, this`dir, this`at, this`log
      reads this`counts, this`links, this`countsLo, this`countsHi, this`owner, this`stamp
    {
      Snapshot(sheetsIndex, sheets, dir, at, log, Tallies(Graph()))
    }

    lemma {:induction false} TalliesInLog()
      requires LinkPart() && GraphPart()
      ensures Tallies(Graph()).Keys == links.Keys <= log.Keys
    {
      TalliesAreTally(Graph());
      forall p | p in links ensures p in log { StoredInLog(log, links, p); }
    }

    lemma {:induction false} SnapIsOk()
      requires IndexPart() && LogPart() && CounterPart()
      ensures SnapshotOk(hash, Snap())
    {
      TalliesInLog();
    }

    /** Store a plain key: no counter is touched.  The UID is a number; `ok` is as for PutVal. */
    method Put(q: Query, val: seq<byte>) returns (u: nat, ok: bool)
      requires IndexPart() && LogPart() && LinkPart() && GraphPart()
      requires q == Prepare(hash, q.key) && q.key !in dir
      modifies this`sheets, this`sheetsIndex, this`cellsUsed, this`kvdata, this`kvdataUsed, this`dir, this`at, this`log
      ensures IndexPart() && LogPart() && LinkPart()
      ensures !ok ==> u == UID_NONE && !old(Refuses(|q.key|, |val|)) && !old(Fits(|q.key|, |val|))
      ensures u == UID_NONE && ok && !old(Refuses(|q.key|, |val|)) ==> NoRoom(q)
      ensures old(Refuses(|q.key|, |val|)) ==> u == UID_NONE
      ensures if u == UID_NONE then Same(old(Snap()), Snap()) && kvdata == old(kvdata) && kvdataUsed == old(kvdataUsed)
              else
                && PutStep(old(Snap()), Snap(), q.key, val) && q.key in dir
                && UidOk(UidOf(q.key)) && u == Packed(0, UidOf(q.key))
                && |kvdata| == GrownSize(old(|kvdata|), old(kvdataUsed), RecLen(Rec(q.key, val)))
                && kvdataUsed == old(kvdataUsed) + RecLen(Rec(q.key, val))
    {
      hide IndexOk, LogOk, LinksStored, Keyed, GraphOk, Tallies, PutStep, Fits, GrownSize;
      ghost var s0 := Snap();
      TalliesInLog();
      var uid;
      uid, ok := PutVal(q, val);
      if uid.Uid? {
        LinksStoredMore(s0.log, links, dir[q.key].pos, Rec(q.key, val));
        PutIsStep(s0, Snap(), q.key, val);
      }
      u := Packed(0, uid);
    }

    /** A counter key names a live slot. */
    lemma {:induction false} SlotsLive(pos: nat)
      requires GraphPart()
      ensures pos in links ==> links[pos].slot < |counts|
    {
      if pos in links { assert CdbCounts.KeyOk(Graph(), pos); }
    }

    /**
     * Increment the counter of a key in list l.  A key that is not stored yet becomes a
     * counter with count 1, unless it is refused, there is no room for it, or the sizes wrap;
     * at a key that is not a counter nothing at all changes.
     */
    method Inc(q: Query, l: nat, junk: seq<byte>) returns (count: nat, ok: bool)
      requires IndexPart() && LogPart() && CounterPart()
      requires q == Prepare(hash, q.key) && |junk| == LINK_BYTES && CanInc(q.key, l)
      modifies this
      ensures IndexPart() && LogPart() && CounterPart()
      ensures IncStep(old(Snap()), Snap(), q.key, l, count)
      ensures !ok ==> q.key !in dir && !old(Fits(|q.key|, LINK_BYTES))
      ensures q.key !in dir ==> kvdata == old(kvdata) && kvdataUsed == old(kvdataUsed)
      ensures q.key !in dir && ok ==> Refuses(|q.key|, LINK_BYTES) || NoRoom(q)
      ensures old(q.key in dir) && count == 0 ==> unchanged(this)
    {
      hide IndexOk, LogOk, SlotsOk, LinksStored, Keyed, GraphOk, Tallies, IncStep, CanCount, Fits;
      var pos := GetHkvRaw(q);
      if pos == 0 {
        count, ok := IncAbsent(q, l, junk);
      } else {
        ok := true;
        count := IncStored(q.key, l, pos);
      }
    }

    // -------------------------------------------------------------- walking

    /**
     * Whether a walk position looks bad, for any position: as IsBad says, and never for that
     * of a counter key and its count.  `beyond` is the memory behind kvdata.
     */
    method WalkPosIsBad(cnt: nat, hkv: nat, beyond: Memory) returns (bad: bool)
      ensures bad == IsBad(Mem(kvdata, beyond), kvdataUsed, |counts|, cnt, hkv)
      ensures LogPart() && LinkPart() && hkv in links && links[hkv].slot == cnt <= |counts| ==> !bad
    {
      hide LogOk, Keyed, LinksStored, LinkAt, PartAt, HLen;
      if hkv in links && links[hkv].slot == cnt <= |counts| && LogPart() && LinkPart() { CounterIsGood(hkv, beyond); }
      if cnt == NONE || hkv == NONE { return false; }
      var m := Mem(kvdata, beyond);
      if cnt > |counts| { return true; }
      if (hkv + 1) % U32 > kvdataUsed { return true; }
      var headerLen := HLen(m(hkv));
      if (hkv + headerLen) % U32 > kvdataUsed { return true; }
      var part := PartAt(m, hkv);
      var len := (part.headerLen + part.keyLen + part.valLen) % U32;
      if (hkv + len) % U32 > kvdataUsed { return true; }
      if part.valLen == LINK_BYTES {
        var k := LinkAt(m, hkv);
        if k.slot != cnt { return true; }
      }
      return false;
    }

    /** The position of a counter key does not look bad, and its link is read there. */
    lemma {:induction false} CounterIsGood(p: nat, beyond: Memory)
      requires LogPart() && LinkPart() && p in links && links[p].slot <= |counts|
      ensures var m := Mem(kvdata, beyond);
              !IsBad(m, kvdataUsed, |counts|, links[p].slot, p) && LinkAt(m, p) == links[p]
    {
      StoredInLog(log, links, p);
      assert links[p] == links[p];
      hide LogOk, Keyed;
      RealIsGood(kvdata, kvdataUsed, log, beyond, |counts|, links[p].slot, p, links[p]);
    }

    /** A visit of the key at a position of list l, or of nothing at the end of the list. */
    ghost predicate IsVisit(l: nat, down: bool, w: W.Pos, key: nat, count: nat, next: W.Pos)
      reads this`counts, this`links, this`countsLo, this`countsHi, this`owner, this`stamp
    {
      if w == W.END then key == 0 && next == W.END
      else
        && key == w.hkv && key in links && w.cnt < |counts| && next == W.Next(Graph(), down, w)
        && key in Tallies(Graph()) && Tallies(Graph())[key] == (l, count)
    }

    /** At a position that a walk can stand at, a call visits the key there. */
    lemma {:induction false} RealVisit(l: nat, down: bool, w: W.Pos, beyond: Memory, outside: nat -> Count)
      requires LogPart() && CounterPart() && W.PosOk(Graph(), l, w) && w != W.END
      ensures var v := VisitAt(Mem(kvdata, beyond), kvdataUsed, |counts|, Slots(counts, outside), down, w);
              IsVisit(l, down, w, v.key, v.count, v.next)
    {
      TallyAt(Graph(), w.hkv);
      LinkNext(w.hkv);
      hide LogOk, LinksStored, Keyed, GraphOk, SlotsOk, Tallies, IsBad, LinkAt;
      CounterIsGood(w.hkv, beyond);
      var n := links[w.hkv].next;
      if n == NONE {
        NoneIsGood(Mem(kvdata, beyond), w.cnt);
      } else {
        CounterIsGood(n, beyond);
      }
    }

    lemma {:induction false} NoneIsGood(m: Memory, cnt: nat)
      ensures !IsBad(m, kvdataUsed, |counts|, cnt, NONE)
    {
    }

    /**
     * One call of walk.  At the start of list l, and at any position that a walk of it can
     * stand at, it visits the key there; at every other position it visits what VisitAt says.
     * `key` is the position of the visited record, or 0; `beyond` and `outside` are the memory
     * behind kvdata and counts.
     */
    method Walk(down: bool, at: W.Pos, l: nat, beyond: Memory, outside: nat -> Count) returns (key: nat, count: nat, next: W.Pos)
      requires LogPart() && CounterPart()
      ensures at.cnt == NONE && l >= LISTS ==> key == 0 && next == W.END
      ensures at.cnt == NONE && l < LISTS ==>
                var w := W.Start(Graph(), l, down); W.PosOk(Graph(), l, w) && IsVisit(l, down, w, key, count, next)
      ensures at.cnt != NONE && W.PosOk(Graph(), l, at) ==> IsVisit(l, down, at, key, count, next)
      ensures at.cnt != NONE ==>
                Visit(key, count, next) == VisitAt(Mem(kvdata, beyond), kvdataUsed, |counts|, Slots(counts, outside), down, at)
    {
      var w := at;
      if w.cnt == NONE {
        if l >= LISTS { return 0, 0, W.END; }
        W.StartSeesAll(Graph(), l, down);
        EndsInRange(l);
        w := AtNode(Slots(counts, outside), if down then countsHi[l] else countsLo[l]);
        assert w == W.Start(Graph(), l, down);
      }
      if w.cnt == NONE { return 0, 0, W.END; }
      if W.PosOk(Graph(), l, w) { RealVisit(l, down, w, beyond, outside); }
      hide LogOk, LinksStored, Keyed, GraphOk, SlotsOk, Tallies, VisitAt, W.PosOk, IsVisit;
      key, count, next := VisitHere(down, w, beyond, outside);
    }

    /** Visit the key at a position that is not the end of the list. */
    method VisitHere(down: bool, w: W.Pos, beyond: Memory, outside: nat -> Count) returns (key: nat, count: nat, next: W.Pos)
      requires w.cnt != NONE
      ensures Visit(key, count, next) == VisitAt(Mem(kvdata, beyond), kvdataUsed, |counts|, Slots(counts, outside), down, w)
    {
      hide LogOk, LinksStored, Keyed, IsBad, LinkAt;
      key, count, next := 0, 0, W.END;
      var m, slotAt := Mem(kvdata, beyond), Slots(counts, outside);
      var hkv := w.hkv;
      if hkv != NONE {
        var bad := WalkPosIsBad(w.cnt, hkv, beyond);
        if bad { return; }
        var found := LinkAt(m, hkv).next;
        bad := WalkPosIsBad(w.cnt, found, beyond);
        if bad { return; }
        key, count, hkv := hkv, slotAt(w.cnt).count, found;
      }
      next := if hkv == NONE then NextNode(slotAt, down, w.cnt) else W.Pos(w.cnt, hkv);
    }

    lemma {:induction false} EndsInRange(l: nat)
      requires GraphPart() && l < LISTS
      ensures countsLo[l] == NONE || countsLo[l] < |counts|
      ensures countsHi[l] == NONE || countsHi[l] < |counts|
    {
      assert EndsOk(Graph(), l);
      if countsLo[l] != NONE { assert SlotOk(Graph(), countsLo[l]); }
      if countsHi[l] != NONE { assert SlotOk(Graph(), countsHi[l]); }
    }

    lemma {:induction false} LinkNext(p: nat)
      requires GraphPart() && p in links
      ensures links[p].next != NONE ==> links[p].next in links && links[links[p].next].slot == links[p].slot
      ensures links[p].slot in owner && links[p].slot < |counts|
      ensures counts[links[p].slot].next < |counts| && counts[links[p].slot].last < |counts|
    {
      assert CdbCounts.KeyOk(Graph(), p);
      assert SlotOk(Graph(), links[p].slot);
    }

    // -------------------------------------------------------------- a new instance

    /**
     * An empty instance, with as many sheets at the start as so many keys call for; the
     * sheet indexes name them in turn.
     */
    constructor (hash: Hasher, keysAtStart: nat, kvdataMaximum: nat)
      requires keysAtStart / KEYS_PER_SHEET * 2 <= SHEETS_MAX
      ensures Valid() && dir == map[] && log == map[] && links == map[] && Snap().Counters() == map[]
      ensures this.hash == hash && this.kvdataMaximum == kvdataMaximum
      ensures countsPages == 0 && |kvdata| == KERNEL_PAGE && kvdataUsed == 1
      ensures |sheets| == var n := keysAtStart / KEYS_PER_SHEET * 2; if n == 0 then 1 else n
      ensures forall i {:trigger sheetsIndex[i]} :: 0 <= i < SHEETS_MAX ==> sheetsIndex[i] == i % |sheets|
    {
      hide IndexOk, LogOk, SlotsOk, LinksStored, Keyed, GraphOk, Tallies, ByKey;
      this.hash := hash;
      this.kvdataMaximum := kvdataMaximum;
      var max := keysAtStart / KEYS_PER_SHEET * 2;
      var size := if max == 0 then 1 else max;
      var idx := InTurn(max);
      var empty := seq(LISTS, _ => NONE);
      sheetsIndex := idx;
      sheets := seq(size, _ => EmptySheet());
      cellsUsed := 0;
      kvdata := Zeros(KERNEL_PAGE);
      kvdataUsed := 1;
      counts := [];
      countsPages := 0;
      countsNextFree := 1;
      countsFree := 0;
      countsUsed := 0;
      countsLo := empty;
      countsHi := empty;
      dir, at, log := map[], map[], map[];
      links, owner, stamp, clock, free := map[], map[], map[], 0, [];
      EmptyIndexOk(hash, idx, size);
      EmptyLogOk(Zeros(KERNEL_PAGE));
      EmptyGraphOk(empty);
      EmptySlotsOk();
    }

    /** Sheet indexes that name so many sheets in turn. */
    static method InTurn(max: nat) returns (idx: seq<nat>)
      ensures |idx| == SHEETS_MAX
      ensures var n := if max == 0 then 1 else max; forall i {:trigger idx[i]} :: 0 <= i < SHEETS_MAX ==> idx[i] == i % n < n
    {
      var size := if max == 0 then 1 else max;
      idx := [];
      var sheet, si := 0, 0;
      while si < SHEETS_MAX
        invariant si <= SHEETS_MAX && |idx| == si
        invariant sheet == si % size
        invariant forall i {:trigger idx[i]} :: 0 <= i < si ==> idx[i] == i % size < size
      {
        idx := idx + [sheet];
        NextInTurn(si, size);
        sheet := sheet + 1;
        sheet := if sheet >= max then 0 else sheet;
        si := si + 1;
      }
    }
  }

  lemma {:induction false} EmptyIndexOk(h: Hasher, idx: seq<nat>, n: nat)
    requires n > 0 && |idx| == SHEETS_MAX && forall i {:trigger idx[i]} :: 0 <= i < SHEETS_MAX ==> idx[i] < n
    ensures IndexOk(h, idx, seq(n, _ => EmptySheet()), map[], map[])
  {
  }

  lemma {:induction false} EmptyLogOk(d: seq<byte>)
    requires |d| >= 1
    ensures LogOk(d, 1, map[]) && Keyed(map[], map[])
  {
  }

  lemma {:induction false} EmptyGraphOk(ends: seq<nat>)
    requires forall l :: 0 <= l < |ends| ==> ends[l] == NONE
    ensures var g := Graph([], map[], ends, ends, map[], map[]);
            GraphOk(g) && Tallies(g) == map[] && FreshStamp(g, 0)
  {
  }

  lemma {:induction false} EmptySlotsOk()
    ensures SlotsOk([], map[], 1, 0, 0, 0, []) && LinksStored(map[], map[])
    ensures ByKey<(nat, nat)>(map[], map[]) == map[]
  {
  }

  lemma {:induction false} NextInTurn(i: nat, n: nat)
    requires n > 0
    ensures (i + 1) % n == if i % n + 1 >= n then 0 else i % n + 1
  {
    var q := i / n;
    assert i + 1 == q * n + (i % n + 1);
    if i % n + 1 >= n {
      assert i + 1 == (q + 1) * n;
      DivOf(q + 1, n, 0);
    } else {
      DivOf(q, n, i % n + 1);
    }
  }

}
