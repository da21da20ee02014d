module CdbIndex {
  // The two-choice bucketed index of one instance: sheets of rows of cells.  The sheet of
  // a key is looked up through sheets_index, so that a full sheet can be split in two
  // without moving any key to another row or cell.

  import opened Bytes
  import opened CdbRecord

  const SHEETS_MAX: nat := 8192
  const ROWS: nat := 4096
  const CELLS: nat := 16

  type u16 = n: int | 0 <= n < 0x1_0000

  /** One cell; pos 0 marks it unused. */
  datatype Cell = Cell(hashLo: u16, hashHi: u16, pos: nat)

  type Sheets = seq<seq<seq<Cell>>>

  const EMPTY := Cell(0, 0, 0)

  /** The five 16-bit parts of the 128-bit key hash that the index looks at. */
  datatype Hash = Hash(u0: u16, u1: u16, u2: u16, u3: u16, u4: u16)

  // ---------------------------------------------------------------- sxe_cdb_prepare

  /** Replace u1 by another part of the hash until it differs from u2. */
  function Prepared(h: Hash): (r: Hash)
    ensures r.u1 != r.u2 && r == h.(u1 := r.u1)
    ensures h.u1 != h.u2 ==> r == h
    ensures h.u1 == h.u2 ==> r.u1 == h.u3 || (h.u3 == h.u2 && r.u1 in {h.u4, (h.u2 + 1) % 0x1_0000})
  {
    if h.u1 != h.u2 then h
    else if h.u3 != h.u2 then h.(u1 := h.u3)
    else if h.u4 != h.u2 then h.(u1 := h.u4)
    else h.(u1 := (h.u2 + 1) % 0x1_0000)
  }

  /** What the program looks for: a key and the prepared hash of it. */
  datatype Query = Query(key: seq<byte>, hash: Hash)
  {
    function SheetIndex(): (i: nat)
      ensures i < SHEETS_MAX
    {
      hash.u0 % SHEETS_MAX
    }
    function Row1(): (r: nat)
      ensures r < ROWS
    {
      hash.u1 % ROWS
    }
    function Row2(): (r: nat)
      ensures r < ROWS
    {
      hash.u2 % ROWS
    }
  }

  type Hasher = seq<byte> -> Hash

  function Prepare(h: Hasher, key: seq<byte>): Query {
    Query(key, Prepared(h(key)))
  }

  // ---------------------------------------------------------------- invariant

  /** The permanent place of a key within whichever sheet holds it, and its record. */
  datatype Home = Home(row: nat, cell: nat, pos: nat)

  type Dir = map<seq<byte>, Home>

  ghost predicate Shaped(sheets: Sheets) {
    && (forall s {:trigger sheets[s]} :: 0 <= s < |sheets| ==> |sheets[s]| == ROWS)
    && (forall s, r {:trigger sheets[s][r]} :: 0 <= s < |sheets| && 0 <= r < ROWS ==> |sheets[s][r]| == CELLS)
  }

  ghost predicate IdxOk(idx: seq<nat>, n: nat) {
    && |idx| == SHEETS_MAX
    && forall i {:trigger idx[i]} :: 0 <= i < |idx| ==> idx[i] < n
  }

  /** Key k is in its home cell of the sheet that sheets_index names. */
  ghost predicate HomeOk(h: Hasher, idx: seq<nat>, sheets: Sheets, dir: Dir, at: map<nat, seq<byte>>, k: seq<byte>)
    requires Shaped(sheets) && IdxOk(idx, |sheets|) && k in dir
  {
    var e, q := dir[k], Prepare(h, k);
    && (e.row == q.Row1() || e.row == q.Row2())
    && e.cell < CELLS
    && e.pos != 0 && e.pos in at && at[e.pos] == k
    && sheets[idx[q.SheetIndex()]][e.row][e.cell] == Cell(q.hash.u1, q.hash.u0, e.pos)
  }

  /** A used cell is the home of the key of its record. */
  ghost predicate CellOk(h: Hasher, idx: seq<nat>, sheets: Sheets, dir: Dir, at: map<nat, seq<byte>>, s: nat, r: nat,
          c: nat)
    requires Shaped(sheets) && IdxOk(idx, |sheets|) && s < |sheets| && r < ROWS && c < CELLS
  {
    var x := sheets[s][r][c];
    x.pos != 0 ==>
      && x.pos in at && at[x.pos] in dir
      && dir[at[x.pos]] == Home(r, c, x.pos)
      && idx[x.hashHi % SHEETS_MAX] == s
      && x.hashHi == Prepare(h, at[x.pos]).hash.u0
      && x.hashLo == Prepare(h, at[x.pos]).hash.u1
  }

  ghost predicate IndexOk(h: Hasher, idx: seq<nat>, sheets: Sheets, dir: Dir, at: map<nat, seq<byte>>) {
    && Shaped(sheets) && IdxOk(idx, |sheets|)
    && (forall k {:trigger HomeOk(h, idx, sheets, dir, at, k)} :: k in dir ==> HomeOk(h, idx, sheets, dir, at, k))
    && (forall s, r, c {:trigger CellOk(h, idx, sheets, dir, at, s, r, c)} ::
          0 <= s < |sheets| && 0 <= r < ROWS && 0 <= c < CELLS ==> CellOk(h, idx, sheets, dir, at, s, r, c))
    && (forall p {:trigger at[p]} :: p in at ==> at[p] in dir && dir[at[p]].pos == p)
  }

  /** No two keys share a record. */
  ghost predicate OwnRecords(dir: Dir) {
    forall k, k' {:trigger dir[k], dir[k']} :: k in dir && k' in dir && dir[k].pos == dir[k'].pos ==> k == k'
  }

  lemma {:induction false} IndexHasOwnRecords(h: Hasher, idx: seq<nat>, sheets: Sheets, dir: Dir, at: map<nat, seq<byte>>)
    requires IndexOk(h, idx, sheets, dir, at)
    ensures OwnRecords(dir)
    ensures forall k :: k in dir ==> dir[k].pos in at
  {
    forall k | k in dir ensures dir[k].pos in at && at[dir[k].pos] == k {
      assert HomeOk(h, idx, sheets, dir, at, k);
    }
  }

  /** What the positions stand for, by key. */
  ghost function ByKey<T>(dir: Dir, t: map<nat, T>): map<seq<byte>, T> {
    map k | k in dir && dir[k].pos in t :: t[dir[k].pos]
  }

  lemma {:induction false} ByKeyIsKeyed<T>(dir: Dir, t: map<nat, T>)
    ensures ByKey(dir, t).Keys <= dir.Keys
  {
  }

  lemma {:induction false} ByKeyUpdate<T>(dir: Dir, t: map<nat, T>, k: seq<byte>, x: T)
    requires OwnRecords(dir) && k in dir
    ensures ByKey(dir, t[dir[k].pos := x]) == ByKey(dir, t)[k := x]
  {
  }

  lemma {:induction false} ByKeyNewKey<T>(dir: Dir, t: map<nat, T>, k: seq<byte>, e: Home)
    requires k !in dir && e.pos !in t
    ensures ByKey(dir[k := e], t) == ByKey(dir, t)
  {
  }

  /** Counting one more for the record of k counts one more for k, or nothing if it is no counter. */
  lemma {:induction false} ByKeyCounted(dir: Dir, t: map<nat, (nat, nat)>, t': map<nat, (nat, nat)>, k: seq<byte>,
          l: nat, count: nat)
    requires OwnRecords(dir) && k in dir
    requires if dir[k].pos in t then count == t[dir[k].pos].1 + 1 && t' == t[dir[k].pos := (l, count)] else t' == t
    ensures if k in ByKey(dir, t) then count == ByKey(dir, t)[k].1 + 1 && ByKey(dir, t') == ByKey(dir, t)[k := (l, count)]
            else dir[k].pos !in t && ByKey(dir, t') == ByKey(dir, t)
  {
  }

  /** Entering a new record for a new key enters the key. */
  lemma {:induction false} ByKeyEntered(dir: Dir, dir': Dir, t: map<nat, (nat, nat)>, k: seq<byte>, e: Home,
          x: (nat, nat))
    requires OwnRecords(dir') && k !in dir && dir' == dir[k := e] && e.pos !in t
    ensures ByKey(dir', t[e.pos := x]) == ByKey(dir, t)[k := x]
  {
    ByKeyNewKey(dir, t, k, e);
    ByKeyUpdate(dir', t, k, x);
  }

  // ---------------------------------------------------------------- looking a key up

  /** Whether a cell matches a query on both stored hash parts and on the bytes of its record. */
  ghost predicate Hit(x: Cell, q: Query, at: map<nat, seq<byte>>) {
    x.hashLo == q.hash.u1 && x.hashHi == q.hash.u0 && x.pos != 0 && x.pos in at && at[x.pos] == q.key
  }

  /** In the sheet of the query exactly the home cell of its key matches, if the key is stored at all. */
  lemma {:induction false} HitIsHome(h: Hasher, idx: seq<nat>, sheets: Sheets, dir: Dir, at: map<nat, seq<byte>>,
          k: seq<byte>, r: nat, c: nat)
    requires IndexOk(h, idx, sheets, dir, at) && r < ROWS && c < CELLS
    ensures var q := Prepare(h, k);
            var x := sheets[idx[q.SheetIndex()]][r][c];
            && (Hit(x, q, at) ==> k in dir && dir[k] == Home(r, c, x.pos))
            && (k in dir && dir[k].row == r && dir[k].cell == c ==> Hit(x, q, at) && x.pos == dir[k].pos)
  {
    var q := Prepare(h, k);
    assert CellOk(h, idx, sheets, dir, at, idx[q.SheetIndex()], r, c);
    if k in dir { assert HomeOk(h, idx, sheets, dir, at, k); }
  }

  /** Without a matching cell in either of its rows a key is not stored. */
  lemma {:induction false} NoHitNoKey(h: Hasher, idx: seq<nat>, sheets: Sheets, dir: Dir, at: map<nat, seq<byte>>,
          k: seq<byte>)
    requires IndexOk(h, idx, sheets, dir, at)
    requires var q := Prepare(h, k);
             forall c :: 0 <= c < CELLS ==>
               && !Hit(sheets[idx[q.SheetIndex()]][q.Row1()][c], q, at)
               && !Hit(sheets[idx[q.SheetIndex()]][q.Row2()][c], q, at)
    ensures k !in dir
  {
    if k in dir {
      assert HomeOk(h, idx, sheets, dir, at, k);
      HitIsHome(h, idx, sheets, dir, at, k, dir[k].row, dir[k].cell);
    }
  }

  // ---------------------------------------------------------------- putting a key

  function SetCell(sheets: Sheets, s: nat, r: nat, c: nat, x: Cell): (z: Sheets)
    requires s < |sheets| && r < |sheets[s]| && c < |sheets[s][r]|
    ensures |z| == |sheets|
  {
    sheets[s := sheets[s][r := sheets[s][r][c := x]]]
  }

  lemma {:induction false} SetCellShape(sheets: Sheets, s: nat, r: nat, c: nat, x: Cell)
    requires Shaped(sheets) && s < |sheets| && r < ROWS && c < CELLS
    ensures Shaped(SetCell(sheets, s, r, c, x))
    ensures forall s', r', c' :: 0 <= s' < |sheets| && 0 <= r' < ROWS && 0 <= c' < CELLS ==>
              SetCell(sheets, s, r, c, x)[s'][r'][c'] ==
              if (s', r', c') == (s, r, c) then x else sheets[s'][r'][c']
  {
  }

  /** Filling a free cell of one of the key's two rows with a new record stores the key and disturbs no other. */
  lemma {:induction false} PutKeeps(h: Hasher, idx: seq<nat>, sheets: Sheets, dir: Dir, at: map<nat, seq<byte>>,
                 k: seq<byte>, r: nat, c: nat, p: nat)
    requires IndexOk(h, idx, sheets, dir, at)
    requires k !in dir && p !in at && p != 0
    requires var q := Prepare(h, k); (r == q.Row1() || r == q.Row2()) && c < CELLS
    requires sheets[idx[Prepare(h, k).SheetIndex()]][r][c].pos == 0
    ensures var q := Prepare(h, k);
            IndexOk(h, idx, SetCell(sheets, idx[q.SheetIndex()], r, c, Cell(q.hash.u1, q.hash.u0, p)),
                    dir[k := Home(r, c, p)], at[p := k])
  {
    var q := Prepare(h, k);
    var s := idx[q.SheetIndex()];
    var x := Cell(q.hash.u1, q.hash.u0, p);
    var sheets' := SetCell(sheets, s, r, c, x);
    var dir', at' := dir[k := Home(r, c, p)], at[p := k];
    SetCellShape(sheets, s, r, c, x);
    forall k' | k' in dir' ensures HomeOk(h, idx, sheets', dir', at', k') {
      if k' != k { assert HomeOk(h, idx, sheets, dir, at, k'); }
    }
    forall s', r', c' | 0 <= s' < |sheets'| && 0 <= r' < ROWS && 0 <= c' < CELLS
      ensures CellOk(h, idx, sheets', dir', at', s', r', c')
    {
      assert CellOk(h, idx, sheets, dir, at, s', r', c');
    }
  }

  // ---------------------------------------------------------------- splitting a sheet

  /** How many of the first n sheet indexes name this sheet. */
  function Named(idx: seq<nat>, full: nat, n: nat): (m: nat)
    requires n <= |idx|
    ensures m <= n
  {
    if n == 0 then 0 else Named(idx, full, n - 1) + if idx[n - 1] == full then 1 else 0
  }

  /** Every second index that names this sheet is made to name that sheet. */
  ghost predicate IsSplitIndex(idx: seq<nat>, idx': seq<nat>, full: nat, added: nat) {
    && |idx'| == |idx|
    && forall i {:trigger idx'[i]} :: 0 <= i < |idx| ==>
         idx'[i] == if idx[i] == full && Named(idx, full, i) % 2 == 1 then added else idx[i]
  }

  lemma {:induction false} NamedSoFar(idx: seq<nat>, idx': seq<nat>, full: nat, added: nat, n: nat)
    requires IsSplitIndex(idx, idx', full, added) && added !in idx && n <= |idx|
    ensures Named(idx, full, n) == multiset(idx[..n])[full]
    ensures multiset(idx'[..n])[full] == (multiset(idx[..n])[full] + 1) / 2
    ensures multiset(idx'[..n])[added] == multiset(idx[..n])[full] / 2
  {
    if n > 0 {
      NamedSoFar(idx, idx', full, added, n - 1);
      assert idx[..n] == idx[..n - 1] + [idx[n - 1]] && idx'[..n] == idx'[..n - 1] + [idx'[n - 1]];
      assert full in idx ==> full != added;
    } else {
      assert idx[..0] == [] && idx'[..0] == [];
    }
  }

  /** Of the sheet indexes that name a sheet the first, third and so on still name it after its split, and the others the added sheet. */
  lemma {:induction false} SplitHalves(idx: seq<nat>, idx': seq<nat>, full: nat, added: nat)
    requires IsSplitIndex(idx, idx', full, added) && added !in idx
    ensures multiset(idx')[full] == (multiset(idx)[full] + 1) / 2 && multiset(idx')[added] == multiset(idx)[full] / 2
    ensures forall i :: 0 <= i < |idx| && idx[i] != full ==> idx'[i] == idx[i]
    ensures forall i :: 0 <= i < |idx| && idx[i] == full ==>
              idx'[i] == if multiset(idx[..i])[full] % 2 == 0 then full else added
  {
    NamedSoFar(idx, idx', full, added, |idx|);
    assert idx[..|idx|] == idx && idx'[..|idx|] == idx';
    forall i | 0 <= i < |idx| ensures Named(idx, full, i) == multiset(idx[..i])[full] {
      NamedSoFar(idx, idx', full, added, i);
    }
  }

  /** Whether a cell belongs to that sheet after the split. */
  predicate Moves(idx': seq<nat>, added: nat, x: Cell)
    requires |idx'| == SHEETS_MAX
  {
    x.pos != 0 && idx'[x.hashHi % SHEETS_MAX] == added
  }

  ghost predicate IsSplitCell(x: Cell, kept: Cell, moved: Cell, idx': seq<nat>, added: nat)
    requires |idx'| == SHEETS_MAX
  {
    && kept == (if Moves(idx', added, x) then x.(pos := 0) else x)
    && moved == (if Moves(idx', added, x) then x else EMPTY)
  }

  /** Cells that belong to that sheet move there, to the same row and cell; all others stay. */
  ghost predicate IsSplitSheets(sheets: Sheets, sheets': Sheets, idx': seq<nat>, full: nat)
    requires Shaped(sheets) && full < |sheets| && |idx'| == SHEETS_MAX
  {
    var added := |sheets|;
    && |sheets'| == added + 1 && Shaped(sheets')
    && (forall s :: 0 <= s < added && s != full ==> sheets'[s] == sheets[s])
    && (forall r, c {:trigger sheets'[full][r][c]} {:trigger sheets'[added][r][c]} :: 0 <= r < ROWS && 0 <= c < CELLS ==>
          IsSplitCell(sheets[full][r][c], sheets'[full][r][c], sheets'[added][r][c], idx', added))
  }

  /** Splitting a sheet loses no key and moves none to another row or cell. */
  lemma {:induction false} SplitKeeps(h: Hasher, idx: seq<nat>, sheets: Sheets, dir: Dir, at: map<nat, seq<byte>>,
                   full: nat, idx': seq<nat>, sheets': Sheets)
    requires IndexOk(h, idx, sheets, dir, at) && full < |sheets|
    requires IsSplitIndex(idx, idx', full, |sheets|)
    requires IsSplitSheets(sheets, sheets', idx', full)
    ensures IndexOk(h, idx', sheets', dir, at)
  {
    forall k | k in dir ensures HomeOk(h, idx', sheets', dir, at, k) {
      assert HomeOk(h, idx, sheets, dir, at, k);
    }
    forall s, r, c | 0 <= s < |sheets'| && 0 <= r < ROWS && 0 <= c < CELLS
      ensures CellOk(h, idx', sheets', dir, at, s, r, c)
    {
      if s < |sheets| { assert CellOk(h, idx, sheets, dir, at, s, r, c); }
      else { assert CellOk(h, idx, sheets, dir, at, full, r, c); }
    }
  }
}
