module CdbLog {
  // The append-only byte log of one instance: kvdata[1..used) is a concatenation of
  // records.  `log` names the record that starts at each position; it is not stored.

  import opened Bytes
  import opened CdbRecord
  import opened CdbCounts

  type Log = map<nat, Rec>

  ghost predicate EntryOk(d: seq<byte>, used: nat, log: Log, p: nat)
    requires p in log
  {
    && 1 <= p && RecordAt(d, p, log[p])
    && p + RecLen(log[p]) <= used
    && (p + RecLen(log[p]) == used || p + RecLen(log[p]) in log)
  }

  ghost predicate Apart(log: Log, p: nat, q: nat)
    requires p in log && q in log
  {
    p < q ==> p + RecLen(log[p]) <= q
  }

  ghost predicate LogOk(d: seq<byte>, used: nat, log: Log) {
    && 1 <= used <= |d|
    && (used == 1 || 1 in log)
    && (forall p {:trigger EntryOk(d, used, log, p)} :: p in log ==> EntryOk(d, used, log, p))
    && (forall p, q {:trigger Apart(log, p, q)} :: p in log && q in log ==> Apart(log, p, q))
  }

  // ---------------------------------------------------------------- memory sizes

  const KERNEL_PAGE: nat := 4096

  /** The memory size after making room for want more bytes. */
  function GrownSize(size: nat, used: nat, want: nat): nat
    requires used <= size
  {
    if want > size - used then size + (want + (KERNEL_PAGE - 1)) / KERNEL_PAGE * KERNEL_PAGE + KERNEL_PAGE else size
  }

  lemma {:induction false} GrownSizeFits(size: nat, used: nat, want: nat)
    requires used <= size
    ensures used + want <= GrownSize(size, used, want)
  {
    assert want <= (want + (KERNEL_PAGE - 1)) / KERNEL_PAGE * KERNEL_PAGE;
  }

  /** Memory grows, by whole pages, only for a record that it has no room for: by a page at least more than the record, and less than two. */
  lemma {:induction false} GrownSizeIs(size: nat, used: nat, want: nat)
    requires used <= size
    ensures var grown := GrownSize(size, used, want);
            if used + want <= size then grown == size
            else (grown - size) % 4096 == 0 && size + want + 4096 <= grown < size + want + 2 * 4096
  {
    var pages := (want + (KERNEL_PAGE - 1)) / KERNEL_PAGE;
    assert want <= pages * KERNEL_PAGE < want + KERNEL_PAGE;
    assert (pages * KERNEL_PAGE + KERNEL_PAGE) == (pages + 1) * KERNEL_PAGE;
  }

  /** d with s written over it at p. */
  function Poke(d: seq<byte>, p: nat, s: seq<byte>): (r: seq<byte>)
    requires p + |s| <= |d|
    ensures |r| == |d|
  {
    d[..p] + s + d[p + |s|..]
  }

  /** Writing elsewhere leaves a record alone. */
  lemma {:induction false} PokeElsewhere(d: seq<byte>, p: nat, s: seq<byte>, q: nat, r: Rec)
    requires p + |s| <= |d| && RecordAt(d, q, r)
    requires q + RecLen(r) <= p || p + |s| <= q
    ensures RecordAt(Poke(d, p, s), q, r)
  {
    var d' := Poke(d, p, s);
    assert d'[q..q + RecLen(r)] == d[q..q + RecLen(r)];
  }

  lemma {:induction false} StartsInside(d: seq<byte>, used: nat, log: Log, p: nat)
    requires LogOk(d, used, log) && p in log
    ensures 1 <= p < used <= |d|
  {
    assert EntryOk(d, used, log, p);
  }

  /** Appending a record at the end of the used bytes keeps the log a concatenation of records. */
  lemma {:induction false} AppendKeeps(d: seq<byte>, used: nat, log: Log, r: Rec)
    requires LogOk(d, used, log) && Storable(r) && used + RecLen(r) <= |d|
    ensures used !in log
    ensures LogOk(Poke(d, used, Encode(r)), used + RecLen(r), log[used := r])
  {
    if used in log { StartsInside(d, used, log, used); }
    var d' := Poke(d, used, Encode(r));
    var log' := log[used := r];
    assert d'[used..used + RecLen(r)] == Encode(r);
    forall p | p in log' ensures EntryOk(d', used + RecLen(r), log', p) {
      if p != used {
        assert EntryOk(d, used, log, p);
        PokeElsewhere(d, used, Encode(r), p, log[p]);
      }
    }
    forall p, q | p in log' && q in log' ensures Apart(log', p, q) {
      if p in log && p != used {
        assert EntryOk(d, used, log, p);
        if q in log && q != used { assert Apart(log, p, q); }
      } else if q in log && q != used { assert EntryOk(d, used, log, q); }
    }
  }

  /** Extending the memory does not disturb the records. */
  lemma {:induction false} GrowKeeps(d: seq<byte>, used: nat, log: Log, more: seq<byte>)
    requires LogOk(d, used, log)
    ensures LogOk(d + more, used, log)
  {
    forall p | p in log ensures EntryOk(d + more, used, log, p) {
      assert EntryOk(d, used, log, p);
      assert (d + more)[p..p + RecLen(log[p])] == d[p..p + RecLen(log[p])];
    }
  }

  function ValuePos(p: nat, r: Rec): nat {
    p + HeaderLen(|r.key|, |r.val|) + |r.key|
  }

  /** Overwriting a value in place by one of the same length changes that record only. */
  lemma {:induction false} StoreKeeps(d: seq<byte>, used: nat, log: Log, p: nat, v: seq<byte>)
    requires LogOk(d, used, log) && p in log && |v| == |log[p].val|
    ensures ValuePos(p, log[p]) + |v| <= |d|
    ensures LogOk(Poke(d, ValuePos(p, log[p]), v), used, log[p := Rec(log[p].key, v)])
  {
    var r, r' := log[p], Rec(log[p].key, v);
    assert EntryOk(d, used, log, p);
    StoreHere(d, p, r, v);
    var d' := Poke(d, ValuePos(p, r), v);
    var log' := log[p := r'];
    forall q | q in log' ensures EntryOk(d', used, log', q) { StoreEntry(d, used, log, p, v, q); }
    forall q, q' | q in log' && q' in log' ensures Apart(log', q, q') { assert Apart(log, q, q'); }
  }

  lemma {:induction false} StoreEntry(d: seq<byte>, used: nat, log: Log, p: nat, v: seq<byte>, q: nat)
    requires LogOk(d, used, log) && p in log && |v| == |log[p].val| && q in log
    requires ValuePos(p, log[p]) + |v| <= |d|
    ensures EntryOk(Poke(d, ValuePos(p, log[p]), v), used, log[p := Rec(log[p].key, v)], q)
  {
    assert EntryOk(d, used, log, p);
    assert EntryOk(d, used, log, q);
    hide LogOk, Encode;
    if q == p {
      StoreHere(d, p, log[p], v);
    } else {
      assert Apart(log, p, q) && Apart(log, q, p) by { ApartBoth(d, used, log, p, q); }
      PokeElsewhere(d, ValuePos(p, log[p]), v, q, log[q]);
    }
  }

  lemma {:induction false} ApartBoth(d: seq<byte>, used: nat, log: Log, p: nat, q: nat)
    requires LogOk(d, used, log) && p in log && q in log
    ensures Apart(log, p, q) && Apart(log, q, p)
  {
  }

  lemma {:induction false} StoreHere(d: seq<byte>, p: nat, r: Rec, v: seq<byte>)
    requires RecordAt(d, p, r) && |v| == |r.val|
    ensures ValuePos(p, r) + |v| <= |d|
    ensures RecordAt(Poke(d, ValuePos(p, r), v), p, Rec(r.key, v))
  {
    var h := HeaderLen(|r.key|, |r.val|);
    var w := d[p..p + RecLen(r)];
    var d' := Poke(d, ValuePos(p, r), v);
    assert w[..h + |r.key|] == Header(|r.key|, |r.val|) + r.key;
    assert d'[p..p + h + |r.key|] == d[p..p + h + |r.key|] == w[..h + |r.key|];
    assert d'[p + h + |r.key|..p + RecLen(r)] == v;
    assert d'[p..p + RecLen(r)] == d'[p..p + h + |r.key|] + d'[p + h + |r.key|..p + RecLen(r)];
  }

  // ---------------------------------------------------------------- reading the log back

  /** The records from position p to the end of the used bytes. */
  ghost function Records(d: seq<byte>, used: nat, log: Log, p: nat): seq<Rec>
    requires LogOk(d, used, log) && (p in log || p == used)
    decreases used - p
  {
    if p !in log then [] else
    assert EntryOk(d, used, log, p);
    [log[p]] + Records(d, used, log, p + RecLen(log[p]))
  }

  function Flatten(rs: seq<Rec>): seq<byte>
    requires forall r :: r in rs ==> Storable(r)
  {
    if rs == [] then [] else Encode(rs[0]) + Flatten(rs[1..])
  }

  /** The used bytes from a record on are the concatenation of the records from there. */
  lemma {:induction false} LogIsRecords(d: seq<byte>, used: nat, log: Log, p: nat)
    requires LogOk(d, used, log) && (p in log || p == used)
    ensures p <= used
    ensures forall r :: r in Records(d, used, log, p) ==> Storable(r)
    ensures Flatten(Records(d, used, log, p)) == d[p..used]
    decreases used - p
  {
    if p in log {
      assert EntryOk(d, used, log, p);
      var n := p + RecLen(log[p]);
      LogIsRecords(d, used, log, n);
      var rs := Records(d, used, log, p);
      assert rs[0] == log[p] && rs[1..] == Records(d, used, log, n);
      assert d[p..used] == d[p..n] + d[n..used];
    }
  }

  /** kvdata[1..used) is the concatenation of all records, in the order they were appended. */
  lemma {:induction false} WholeLogIsRecords(d: seq<byte>, used: nat, log: Log)
    requires LogOk(d, used, log)
    ensures 1 in log || 1 == used
    ensures forall r :: r in Records(d, used, log, 1) ==> Storable(r)
    ensures Flatten(Records(d, used, log, 1)) == d[1..used]
    ensures forall p :: p in log ==> log[p] in Records(d, used, log, 1)
  {
    LogIsRecords(d, used, log, 1);
    forall p | p in log ensures log[p] in Records(d, used, log, 1) {
      StartsInside(d, used, log, p);
      ReachesAll(d, used, log, 1, p);
    }
  }

  lemma {:induction false} ReachesAll(d: seq<byte>, used: nat, log: Log, p: nat, q: nat)
    requires LogOk(d, used, log) && (p in log || p == used) && q in log && p <= q
    ensures log[q] in Records(d, used, log, p)
    decreases used - p
  {
    if p != q {
      assert EntryOk(d, used, log, q);
      assert EntryOk(d, used, log, p);
      assert Apart(log, p, q);
      ReachesAll(d, used, log, p + RecLen(log[p]), q);
    }
  }

  // ---------------------------------------------------------------- counter values

  const LINK_BYTES: nat := 12

  ghost predicate LinkFits(k: Link) {
    k.slot < U32 && k.next < U32 && k.last < U32
  }

  function LinkBytes(k: Link): (s: seq<byte>)
    requires k.slot < U32 && k.next < U32 && k.last < U32
    ensures |s| == LINK_BYTES
  {
    Le4(k.slot) + Le4(k.next) + Le4(k.last)
  }

  function GetLink(d: seq<byte>, p: nat): Link
    requires p + LINK_BYTES <= |d|
  {
    Link(Get4(d, p), Get4(d, p + 4), Get4(d, p + 8))
  }

  /** The three numbers of a link are words of 32 bits, low byte first: its slot, the key behind and the key before it. */
  lemma {:induction false} LinkIsNumber(k: Link)
    requires LinkFits(k)
    ensures LowFirst(LinkBytes(k)) == k.slot + 0x1_0000_0000 * k.next + 0x1_0000_0000_0000_0000 * k.last
  {
    var a, b, c := Le4(k.slot), Le4(k.next), Le4(k.last);
    assert LinkBytes(k) == a + (b + c);
    LowFirstOfTwo(a, b + c);
    LowFirstOfTwo(b, c);
    Le4Back(k.slot);
    Le4Back(k.next);
    Le4Back(k.last);
  }

  lemma {:induction false} LinkRoundTrip(d: seq<byte>, p: nat, k: Link)
    requires LinkFits(k) && p + LINK_BYTES <= |d| && d[p..p + LINK_BYTES] == LinkBytes(k)
    ensures GetLink(d, p) == k
  {
    var w := d[p..p + LINK_BYTES];
    assert w[..4] == Le4(k.slot) && w[4..8] == Le4(k.next) && w[8..12] == Le4(k.last);
    Window(d, p, LINK_BYTES, 0, 4);
    Window(d, p, LINK_BYTES, 4, 8);
    Window(d, p, LINK_BYTES, 8, 12);
    Le4RoundTrip(k.slot, d, p);
    Le4RoundTrip(k.next, d, p + 4);
    Le4RoundTrip(k.last, d, p + 8);
  }

  /** Every counter key's record holds its chain link. */
  ghost predicate LinksStored(log: Log, links: map<nat, Link>) {
    forall p {:trigger links[p]} :: p in links ==>
      p in log && |log[p].val| == LINK_BYTES && LinkFits(links[p]) && log[p].val == LinkBytes(links[p])
  }

  lemma {:induction false} LinksStoredLess(log: Log, links: map<nat, Link>, p: nat)
    requires LinksStored(log, links)
    ensures LinksStored(log, links - {p})
  {
    forall q | q in links - {p}
      ensures q in log && |log[q].val| == LINK_BYTES && LinkFits(links[q]) && log[q].val == LinkBytes(links[q])
    {
    }
  }

  /** The same records with the same keys; only the values of counter keys may differ. */
  ghost predicate SameRecords(log: Log, log': Log, counters: set<nat>) {
    && log'.Keys == log.Keys
    && forall p {:trigger log'[p]} {:trigger log[p]} :: p in log ==>
         && log'[p].key == log[p].key && |log'[p].val| == |log[p].val|
         && (p !in counters ==> log'[p] == log[p])
  }

  lemma {:induction false} SameRecordsRefl(a: Log, counters: set<nat>)
    ensures SameRecords(a, a, counters)
  {
  }

  lemma {:induction false} SameRecordsTrans(a: Log, b: Log, c: Log, counters: set<nat>, counters': set<nat>)
    requires SameRecords(a, b, counters) && SameRecords(b, c, counters') && counters <= counters'
    ensures SameRecords(a, c, counters')
  {
    forall p | p in a
      ensures c[p].key == a[p].key && |c[p].val| == |a[p].val| && (p !in counters' ==> c[p] == a[p])
    {
      var r := b[p];
    }
  }

  /** The records and the index agree on which key starts at which position. */
  ghost predicate Keyed(log: Log, at: map<nat, seq<byte>>) {
    log.Keys == at.Keys && forall p {:trigger log[p]} {:trigger at[p]} :: p in log ==> log[p].key == at[p]
  }

  lemma {:induction false} KeyedMore(log: Log, at: map<nat, seq<byte>>, p: nat, r: Rec)
    requires Keyed(log, at)
    ensures p in log <==> p in at
    ensures Keyed(log[p := r], at[p := r.key])
  {
    assert p in log.Keys <==> p in at.Keys;
  }

  lemma {:induction false} StoredInLog(log: Log, links: map<nat, Link>, p: nat)
    requires LinksStored(log, links) && p in links
    ensures p in log && |log[p].val| == LINK_BYTES
  {
    var k := links[p];
  }

  lemma {:induction false} LinksStoredMore(log: Log, links: map<nat, Link>, p: nat, r: Rec)
    requires LinksStored(log, links) && p !in log
    ensures LinksStored(log[p := r], links) && p !in links
  {
    if p in links { StoredInLog(log, links, p); }
    forall q | q in links
      ensures q in log[p := r] && log[p := r][q] == log[q]
      ensures |log[q].val| == LINK_BYTES && LinkFits(links[q]) && log[q].val == LinkBytes(links[q])
    {
      var k := links[q];
    }
  }

  /** Every record is still there; only values of counter keys may have changed. */
  ghost predicate RecordsKept(log: Log, log': Log, counters: set<nat>) {
    forall p {:trigger log'[p]} {:trigger log[p]} :: p in log ==>
      && p in log' && log'[p].key == log[p].key && |log'[p].val| == |log[p].val|
      && (p !in counters ==> log'[p] == log[p])
  }

  lemma {:induction false} SameRecordsAreKept(a: Log, b: Log, counters: set<nat>)
    requires SameRecords(a, b, counters)
    ensures RecordsKept(a, b, counters)
  {
    forall p | p in a
      ensures p in b && b[p].key == a[p].key && |b[p].val| == |a[p].val| && (p !in counters ==> b[p] == a[p])
    {
      var r := a[p];
    }
  }

  /** Appending a counter's record and then writing its link keeps all earlier records. */
  lemma {:induction false} AppendedRecordsAreKept(a: Log, p: nat, r: Rec, b: Log, counters: set<nat>)
    requires p !in a && SameRecords(a[p := r], b, counters + {p})
    ensures RecordsKept(a, b, counters)
  {
    forall q | q in a
      ensures q in b && b[q].key == a[q].key && |b[q].val| == |a[q].val| && (q !in counters ==> b[q] == a[q])
    {
      var x := a[p := r][q];
      var y := b[q];
    }
  }

  /** Overwriting a value by a link keeps the log and leaves all other records and links alone. */
  lemma {:induction false} StoreLinkKeeps(d: seq<byte>, used: nat, log: Log, at: map<nat, seq<byte>>,
          links: map<nat, Link>, p: nat, k: Link)
    requires LogOk(d, used, log) && Keyed(log, at) && LinksStored(log, links)
    requires p in log && |log[p].val| == LINK_BYTES && LinkFits(k)
    ensures p < |d| && p + HLen(d[p]) <= |d|
    ensures Unpack(d, p) == Part(HeaderLen(|log[p].key|, LINK_BYTES), |log[p].key|, LINK_BYTES)
    ensures ValuePos(p, log[p]) + LINK_BYTES <= |d|
    ensures var log' := log[p := Rec(log[p].key, LinkBytes(k))];
            && LogOk(Poke(d, ValuePos(p, log[p]), LinkBytes(k)), used, log')
            && Keyed(log', at) && LinksStored(log', links[p := k]) && SameRecords(log, log', links.Keys + {p})
  {
    assert EntryOk(d, used, log, p);
    StoreKeeps(d, used, log, p, LinkBytes(k));
    UnpackFindsRecord(d, p, log[p]);
  }
}
