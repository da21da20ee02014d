module CdbPositions {
  // Walk positions that may come from anywhere: what sxe_cdb_instance_walk_pos_is_bad makes
  // of them.  It adds positions and lengths in 32 bits, so some sums wrap.

  import opened Bytes
  import opened CdbRecord
  import opened CdbCounts
  import opened CdbLog
  import W = CdbWalk

  /** All bytes that an address behind kvdata can reach: those of kvdata, and whatever follows them. */
  type Memory = nat -> byte

  function Mem(d: seq<byte>, beyond: Memory): Memory {
    (p: nat) => if p < |d| then d[p] else beyond(p)
  }

  /** The n bytes at a position. */
  function BytesAt(m: Memory, p: nat, n: nat): (s: seq<byte>)
    ensures |s| == n && forall i :: 0 <= i < n ==> s[i] == m(p + i)
  {
    seq(n, i requires 0 <= i < n => m(p + i))
  }

  function PartAt(m: Memory, p: nat): Part {
    Unpack(BytesAt(m, p, 8), 0)
  }

  /** The bytes from the header to the end of the value that a header tells of. */
  function Extent(part: Part): nat {
    part.headerLen + part.keyLen + part.valLen
  }

  function LinkAt(m: Memory, p: nat): Link {
    var part := PartAt(m, p);
    GetLink(BytesAt(m, p + part.headerLen + part.keyLen, LINK_BYTES), 0)
  }

  /** The test, with its sums as wide as the program's. */
  function IsBad(m: Memory, used: nat, slots: nat, cnt: nat, hkv: nat): bool {
    if cnt == NONE || hkv == NONE then false
    else if cnt > slots then true
    else if (hkv + 1) % U32 > used then true
    else if (hkv + HLen(m(hkv))) % U32 > used then true
    else
      var part := PartAt(m, hkv);
      if (hkv + Extent(part) % U32) % U32 > used then true
      else part.valLen == LINK_BYTES && LinkAt(m, hkv).slot != cnt
  }

  /** Header and record at a position lie within the used bytes. */
  predicate Inside(m: Memory, used: nat, hkv: nat) {
    && hkv < used && hkv + HLen(m(hkv)) <= used
    && hkv + Extent(PartAt(m, hkv)) <= used
  }

  /** What is accepted lies within the used bytes if and only if none of the three sums reaches 2^32. */
  lemma {:induction false} InsideIffNoWrap(m: Memory, used: nat, slots: nat, cnt: nat, hkv: nat)
    requires used < U32 && cnt != NONE && hkv != NONE && !IsBad(m, used, slots, cnt, hkv)
    ensures Inside(m, used, hkv) <==>
              hkv + 1 < U32 && hkv + HLen(m(hkv)) < U32 && hkv + Extent(PartAt(m, hkv)) < U32
  {
    hide PartAt, LinkAt, HLen, Extent;
    var h, e := HLen(m(hkv)), Extent(PartAt(m, hkv));
    if hkv + 1 < U32 && hkv + h < U32 && hkv + e < U32 {
      Unwrapped(hkv + 1);
      Unwrapped(hkv + h);
      Unwrapped(e);
      Unwrapped(hkv + e);
    }
  }

  lemma {:induction false} Unwrapped(n: nat)
    requires n < U32
    ensures n % U32 == n
  {
  }

  /**
   * A position at which no sum wraps is bad if and only if its slot lies beyond the one
   * behind the last, header or record do not lie within the used bytes, or the record has
   * a value as long as a link that names another slot.
   */
  lemma {:induction false} BadIfNotInside(m: Memory, used: nat, slots: nat, cnt: nat, hkv: nat)
    requires cnt != NONE && hkv != NONE
    requires hkv + 1 < U32 && hkv + HLen(m(hkv)) < U32 && hkv + Extent(PartAt(m, hkv)) < U32
    ensures IsBad(m, used, slots, cnt, hkv) <==>
              || cnt > slots || !Inside(m, used, hkv)
              || (PartAt(m, hkv).valLen == 12 && LinkAt(m, hkv).slot != cnt)
  {
    hide PartAt, LinkAt, HLen, Extent;
    var e := Extent(PartAt(m, hkv));
    Unwrapped(hkv + 1);
    Unwrapped(hkv + HLen(m(hkv)));
    Unwrapped(e);
    Unwrapped(hkv + e);
  }

  /** What is accepted names a count slot, unless it names the one behind the last. */
  lemma {:induction false} SlotUnlessLast(m: Memory, used: nat, slots: nat, cnt: nat, hkv: nat)
    requires cnt != NONE && hkv != NONE && !IsBad(m, used, slots, cnt, hkv)
    ensures cnt < slots <==> cnt != slots
  {
    hide PartAt, LinkAt;
  }

  /** Within the used bytes there is a record whose value is a link to this slot. */
  predicate HoldsLink(m: Memory, used: nat, cnt: nat, hkv: nat) {
    Inside(m, used, hkv) && PartAt(m, hkv).valLen == LINK_BYTES && LinkAt(m, hkv).slot == cnt
  }

  /** What is accepted is a counter's record with this slot if and only if nothing wraps and its value is as long as a link. */
  lemma {:induction false} HoldsLinkIff(m: Memory, used: nat, slots: nat, cnt: nat, hkv: nat)
    requires used < U32 && cnt != NONE && hkv != NONE && !IsBad(m, used, slots, cnt, hkv)
    ensures var part := PartAt(m, hkv);
            HoldsLink(m, used, cnt, hkv) <==>
              && hkv + 1 < U32 && hkv + HLen(m(hkv)) < U32 && hkv + Extent(part) < U32
              && part.valLen == LINK_BYTES
  {
    hide Inside, PartAt, LinkAt;
    InsideIffNoWrap(m, used, slots, cnt, hkv);
  }

  /** The bytes of an instance that holds one record, with a key of one byte and no value. */
  function PlainRecord(): seq<byte> {
    [0, 2, 1]
  }

  /** That record is accepted with any count slot, and the link that walk then reads is all behind the used bytes. */
  lemma {:induction false} PlainRecordAccepted(beyond: Memory, slots: nat, cnt: nat)
    requires 0 < cnt <= slots
    ensures LogOk(PlainRecord(), 3, map[1 := Rec([1], [])])
    ensures var m := Mem(PlainRecord(), beyond);
            && !IsBad(m, 3, slots, cnt, 1) && Inside(m, 3, 1) && !HoldsLink(m, 3, cnt, 1)
            && PartAt(m, 1) == Part(1, 1, 0) && LinkAt(m, 1) == GetLink(BytesAt(beyond, 3, LINK_BYTES), 0)
  {
    var d := PlainRecord();
    assert d[1..3] == [2, 1];
    var m := Mem(d, beyond);
    var s := BytesAt(m, 1, 8);
    assert s[0] == 2;
    assert BytesAt(m, 3, LINK_BYTES) == BytesAt(beyond, 3, LINK_BYTES);
    hide GetLink;
  }

  /** The last position of all: its successor wraps to 0, and 4 GB beyond the memory are read. */
  lemma {:induction false} LastPositionAccepted(used: nat, slots: nat)
    requires 4 <= used < U32 && slots >= 1
    ensures !IsBad(_ => 0, used, slots, 1, 0xffff_ffff) && !Inside(_ => 0, used, 0xffff_ffff)
  {
    var s := BytesAt(_ => 0, 0xffff_ffff, 8);
    assert HLen(s[0]) == 5 && Get2(s, 1) == 0 && Get2(s, 3) == 0;
  }

  /** The bytes of an instance that holds one record, whose value looks like the header of a record of 4 GB. */
  function HeaderInValue(): seq<byte> {
    [0, 130, 1, 16, 0, 0, 0, 255, 255, 255, 255, 0]
  }

  /** The sum of the lengths wraps to 7, and a record that runs 4 GB beyond the used bytes is accepted. */
  lemma {:induction false} HeaderInValueAccepted(beyond: Memory)
    ensures LogOk(HeaderInValue(), 11, map[1 := Rec([1], HeaderInValue()[3..11])])
    ensures var m := Mem(HeaderInValue(), beyond);
            !IsBad(m, 11, 1, 1, 3) && Extent(PartAt(m, 3)) == U32 + 7 && !Inside(m, 11, 3)
  {
    var d := HeaderInValue();
    assert d[1..11] == [130, 1] + d[3..11];
    var s := BytesAt(Mem(d, beyond), 3, 8);
    assert s == d[3..11];
    assert Get3(s, 1) == 0 && Get4(s, 4) == 0xffff_ffff;
  }

  /** At the record of a counter key, bytes and sums are as they should be. */
  lemma {:induction false} MemoryOfRecord(d: seq<byte>, beyond: Memory, p: nat, r: Rec)
    requires RecordAt(d, p, r)
    ensures var m := Mem(d, beyond);
            && HLen(m(p)) == HeaderLen(|r.key|, |r.val|)
            && PartAt(m, p) == Part(HeaderLen(|r.key|, |r.val|), |r.key|, |r.val|)
  {
    UnpackFindsRecord(d, p, r);
    var s := BytesAt(Mem(d, beyond), p, 8);
    assert forall i :: 0 <= i < HLen(d[p]) ==> s[i] == d[p + i];
  }

  lemma {:induction false} LinkOfRecord(d: seq<byte>, beyond: Memory, p: nat, r: Rec, k: Link)
    requires RecordAt(d, p, r) && LinkFits(k) && r.val == LinkBytes(k)
    ensures LinkAt(Mem(d, beyond), p) == k
  {
    hide LinkBytes, GetLink, HLen, HeaderLen, Encode, Unpack;
    UnpackFindsRecord(d, p, r);
    MemoryOfRecord(d, beyond, p, r);
    var m, v := Mem(d, beyond), p + HeaderLen(|r.key|, |r.val|) + |r.key|;
    assert LinkAt(m, p) == GetLink(BytesAt(m, v, LINK_BYTES), 0);
    hide PartAt, LinkAt;
    assert d[v..v + LINK_BYTES] == LinkBytes(k);
    LinkInMemory(d, beyond, v, k);
  }

  lemma {:induction false} LinkInMemory(d: seq<byte>, beyond: Memory, v: nat, k: Link)
    requires LinkFits(k) && v + LINK_BYTES <= |d| && d[v..v + LINK_BYTES] == LinkBytes(k)
    ensures GetLink(BytesAt(Mem(d, beyond), v, LINK_BYTES), 0) == k
  {
    hide LinkBytes, GetLink;
    var s := BytesAt(Mem(d, beyond), v, LINK_BYTES);
    assert s == d[v..v + LINK_BYTES];
    assert s[0..LINK_BYTES] == s;
    LinkRoundTrip(s, 0, k);
  }

  // ---------------------------------------------------------------- one call of walk

  /** All count nodes that an index can reach: those of counts, and whatever follows them. */
  function Slots(counts: seq<Count>, outside: nat -> Count): nat -> Count {
    (c: nat) => if c < |counts| then counts[c] else outside(c)
  }

  /** What a call visits and where it leaves the walk. */
  datatype Visit = Visit(key: nat, count: nat, next: W.Pos)

  function AtNode(slotAt: nat -> Count, c: nat): W.Pos {
    if c == NONE then W.END else W.Pos(c, slotAt(c).hkv1)
  }

  function NextNode(slotAt: nat -> Count, down: bool, c: nat): W.Pos {
    AtNode(slotAt, if down then slotAt(c).last else slotAt(c).next)
  }

  /** A call at any position but a start: it visits the record there, if that and the key behind it do not look bad. */
  function VisitAt(m: Memory, used: nat, slots: nat, slotAt: nat -> Count, down: bool, w: W.Pos): Visit {
    if w.hkv == NONE then Visit(0, 0, NextNode(slotAt, down, w.cnt))
    else if IsBad(m, used, slots, w.cnt, w.hkv) then Visit(0, 0, W.END)
    else
      var next := LinkAt(m, w.hkv).next;
      if IsBad(m, used, slots, w.cnt, next) then Visit(0, 0, W.END)
      else Visit(w.hkv, slotAt(w.cnt).count, if next != NONE then W.Pos(w.cnt, next) else NextNode(slotAt, down, w.cnt))
  }

  /** The record of a counter key does not look bad. */
  lemma {:induction false} RealIsGood(d: seq<byte>, used: nat, log: Log, beyond: Memory, slots: nat, cnt: nat, hkv: nat, k: Link)
    requires LogOk(d, used, log) && |d| < U32 && hkv in log && LinkFits(k) && log[hkv].val == LinkBytes(k)
    requires k.slot == cnt <= slots
    ensures var m := Mem(d, beyond); !IsBad(m, used, slots, cnt, hkv) && LinkAt(m, hkv) == k && Inside(m, used, hkv)
  {
    hide LogOk, LinkBytes, HLen, PartAt, LinkAt, Mem;
    ExtentOfRecord(d, used, log, beyond, hkv);
    LinkOfRecord(d, beyond, hkv, log[hkv], k);
    var m := Mem(d, beyond);
    NoneWraps(hkv, HLen(m(hkv)), Extent(PartAt(m, hkv)), used);
  }

  lemma {:induction false} ExtentOfRecord(d: seq<byte>, used: nat, log: Log, beyond: Memory, p: nat)
    requires LogOk(d, used, log) && p in log
    ensures var m := Mem(d, beyond);
            && 1 <= HLen(m(p)) <= Extent(PartAt(m, p)) && p + Extent(PartAt(m, p)) <= used
            && p != NONE && RecordAt(d, p, log[p]) && used <= |d|
  {
    assert EntryOk(d, used, log, p);
    hide LogOk, Encode;
    MemoryOfRecord(d, beyond, p, log[p]);
  }

  lemma {:induction false} NoneWraps(hkv: nat, h: nat, e: nat, used: nat)
    requires 1 <= h <= e && hkv + e <= used < U32
    ensures (hkv + 1) % U32 <= used && (hkv + h) % U32 <= used && (hkv + e % U32) % U32 <= used
  {
  }
}
