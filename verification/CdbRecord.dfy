module CdbRecord {
  // The bytes of one key,value record: a header of 1, 3, 5 or 8 bytes, the key, the value.
  // The four header layouts overlap; which one is in use is told by the first byte.

  import opened Bytes

  const U32: nat := 0x1_0000_0000

  datatype Rec = Rec(key: seq<byte>, val: seq<byte>)

  /** The header length that sxe_cdb_instance_put_val chooses; 0 when it refuses the lengths. */
  function HeaderLen(keyLen: nat, valLen: nat): nat {
    if keyLen == 0 then 0
    else if keyLen <= 0x7 && valLen <= 0xf then 1
    else if keyLen <= 0x7f && valLen <= 0xffff then 3
    else if keyLen <= 0xffff && valLen <= 0xffff then 5
    else if keyLen <= 0xff_ffff && valLen <= 0xffff_ffff then 8
    else 0
  }

  /** The fields of a header of h bytes hold these lengths: 3 and 4 bits, 7 and 16, 16 and 16, or 24 and 32. */
  predicate FieldsHold(h: nat, keyLen: nat, valLen: nat) {
    || (h == 1 && keyLen < 0x8 && valLen < 0x10)
    || (h == 3 && keyLen < 0x80 && valLen < 0x1_0000)
    || (h == 5 && keyLen < 0x1_0000 && valLen < 0x1_0000)
    || (h == 8 && keyLen < 0x100_0000 && valLen < 0x1_0000_0000)
  }

  /** The lengths of a record that can be stored. */
  predicate LengthsOk(keyLen: nat, valLen: nat) {
    1 <= keyLen <= 0xff_ffff && valLen <= 0xffff_ffff
  }

  /** Just these lengths get a header, and it is the shortest one whose fields hold them. */
  lemma {:induction false} HeaderLenIs(keyLen: nat, valLen: nat)
    ensures var h := HeaderLen(keyLen, valLen);
            && (h != 0 <==> LengthsOk(keyLen, valLen))
            && (h != 0 ==> FieldsHold(h, keyLen, valLen) && forall g: nat :: g < h ==> !FieldsHold(g, keyLen, valLen))
  {
  }

  predicate Storable(r: Rec) {
    HeaderLen(|r.key|, |r.val|) != 0
  }

  /** The bytes of a record with a key and a value of these lengths. */
  function Length(keyLen: nat, valLen: nat): nat {
    HeaderLen(keyLen, valLen) + keyLen + valLen
  }

  function RecLen(r: Rec): nat {
    Length(|r.key|, |r.val|)
  }

  // ---------------------------------------------------------------- little-endian fields

  function Le2(n: nat): (s: seq<byte>)
    requires n < 0x1_0000
    ensures |s| == 2
  {
    [n % 256, n / 256]
  }

  function Le3(n: nat): (s: seq<byte>)
    requires n < 0x100_0000
    ensures |s| == 3
  {
    [n % 256, n / 256 % 256, n / 256 / 256]
  }

  function Get2(d: seq<byte>, p: nat): nat
    requires p + 2 <= |d|
  {
    var a: nat, b: nat := d[p], d[p + 1];
    a + 256 * b
  }

  function Get3(d: seq<byte>, p: nat): nat
    requires p + 3 <= |d|
  {
    var a: nat, b: nat, c: nat := d[p], d[p + 1], d[p + 2];
    a + 256 * b + 0x1_0000 * c
  }

  function Get4(d: seq<byte>, p: nat): nat
    requires p + 4 <= |d|
  {
    var a: nat, b: nat, c: nat, e: nat := d[p], d[p + 1], d[p + 2], d[p + 3];
    a + 256 * b + 0x1_0000 * c + 0x100_0000 * e
  }

  lemma {:induction false} Le4RoundTrip(n: nat, d: seq<byte>, p: nat)
    requires n < U32 && p + 4 <= |d| && d[p..p + 4] == Le4(n)
    ensures Get4(d, p) == n
  {
    var s := Le4(n);
    assert d[p] == d[p..p + 4][0] && d[p + 1] == d[p..p + 4][1] && d[p + 2] == d[p..p + 4][2] && d[p + 3] == d[p..p + 4][3];
    var n1 := n / 256;
    var n2 := n1 / 256;
    assert n == n % 256 + 256 * n1 && n1 == n1 % 256 + 256 * n2 && n2 == n2 % 256 + 256 * (n2 / 256);
  }

  // ---------------------------------------------------------------- headers

  /** The header bytes that put_val writes; bit-fields are laid out from the low bit up. */
  function Header(keyLen: nat, valLen: nat): (h: seq<byte>)
    requires HeaderLen(keyLen, valLen) != 0
    ensures |h| == HeaderLen(keyLen, valLen)
  {
    match HeaderLen(keyLen, valLen)
    case 1 => [0 + 2 * keyLen + 16 * valLen]
    case 3 => [1 + 2 * keyLen] + Le2(valLen)
    case 5 => [0] + Le2(keyLen) + Le2(valLen)
    case _ => [16] + Le3(keyLen) + Le4(valLen)
  }

  function Encode(r: Rec): (s: seq<byte>)
    requires Storable(r)
    ensures |s| == RecLen(r)
  {
    Header(|r.key|, |r.val|) + r.key + r.val
  }

  /** sxe_cdb_h_len: the header length told by the first byte of a record. */
  function HLen(b: byte): nat {
    var flag, keyBits, valBits := b % 2, b / 2 % 8, b / 16;
    if flag == 0 && keyBits == 0 && valBits == 1 then 8
    else if flag == 0 && keyBits == 0 && valBits == 0 then 5
    else if flag == 0 && keyBits != 0 then 1
    else 3
  }

  /**
   * The header as one number, low byte first: in the shortest layout the lengths are bits
   * 1 to 3 and 4 to 7; in the next bit 0 is set, and they are bits 1 to 7 and 8 to 23; in
   * the others they are what follows a first byte of 0 or 0x10.
   */
  lemma {:induction false} HeaderIsNumber(keyLen: nat, valLen: nat)
    requires HeaderLen(keyLen, valLen) != 0
    ensures var k, v := keyLen, valLen;
            LowFirst(Header(k, v)) == match HeaderLen(k, v) {
              case 1 => 2 * k + 0x10 * v
              case 3 => 1 + 2 * k + 0x100 * v
              case 5 => 0x100 * k + 0x100_0000 * v
              case _ => 0x10 + 0x100 * k + 0x1_0000_0000 * v
            }
  {
    var h := Header(keyLen, valLen);
    match HeaderLen(keyLen, valLen) {
      case 1 => assert h[1..] == [];
      case 3 => assert h[1..] == Le2(valLen); Le2Back(valLen);
      case 5 =>
        assert h[1..] == Le2(keyLen) + Le2(valLen);
        Le2Back(keyLen);
        Le2Back(valLen);
        LowFirstBehind2(Le2(keyLen), Le2(valLen));
      case _ =>
        assert h[..4] == [16] + Le3(keyLen) && h[4..] == Le4(valLen) && h == h[..4] + h[4..];
        Le3Back(keyLen);
        LowFirstOfTwo(h[..4], h[4..]);
        Le4Back(valLen);
    }
  }

  lemma {:induction false} Le2Back(n: nat)
    requires n < 0x1_0000
    ensures LowFirst(Le2(n)) == n
  {
    assert Le2(n)[1..] == [n / 256] && Le2(n)[1..][1..] == [];
    assert LowFirst([n / 256]) == n / 256;
  }

  lemma {:induction false} LowFirstBehind2(a: seq<byte>, b: seq<byte>)
    requires |a| == 2
    ensures LowFirst(a + b) == LowFirst(a) + 0x1_0000 * LowFirst(b)
  {
    var s := a + b;
    assert s[1..][1..] == b && a[1..][1..] == [];
    assert LowFirst(s[1..]) == s[1] + 256 * LowFirst(b) && LowFirst(a[1..]) == a[1];
  }

  /** A header of eight bytes begins with 0x10 and the key length in three bytes. */
  lemma {:induction false} Le3Back(n: nat)
    requires n < 0x100_0000
    ensures LowFirst([16] + Le3(n)) == 16 + 0x100 * n
  {
    LowFirstOf4([16] + Le3(n));
    var a := n / 256;
    assert n == 256 * a + n % 256 && a == 256 * (a / 256) + a % 256;
  }

  datatype Part = Part(headerLen: nat, keyLen: nat, valLen: nat)

  /** sxe_cdb_hkv_unpack: the parts of the record at p. */
  function Unpack(d: seq<byte>, p: nat): Part
    requires p < |d| && p + HLen(d[p]) <= |d|
  {
    match HLen(d[p])
    case 8 => Part(8, Get3(d, p + 1), Get4(d, p + 4))
    case 5 => Part(5, Get2(d, p + 1), Get2(d, p + 3))
    case 1 => Part(1, d[p] / 2 % 8, d[p] / 16)
    case _ => Part(3, d[p] / 2, Get2(d, p + 1))
  }

  /** The bytes at p are the record r. */
  ghost predicate RecordAt(d: seq<byte>, p: nat, r: Rec) {
    Storable(r) && p + RecLen(r) <= |d| && d[p..p + RecLen(r)] == Encode(r)
  }

  ghost predicate HeaderAt(d: seq<byte>, p: nat, k: nat, v: nat, h: nat) {
    && HeaderLen(k, v) == h != 0 && p + h <= |d|
    && forall i :: 0 <= i < h ==> d[p + i] == Header(k, v)[i]
  }

  lemma {:induction false} FirstByte(k: nat, v: nat)
    requires 0 < k <= 7 && v <= 15
    ensures var b := 2 * k + 16 * v; b % 2 == 0 && b / 2 == k + 8 * v && b / 2 % 8 == k && b / 16 == v
  {
  }

  lemma {:induction false} HeaderReads1(d: seq<byte>, p: nat, k: nat, v: nat)
    requires HeaderAt(d, p, k, v, 1)
    ensures HLen(d[p]) == 1 && Unpack(d, p) == Part(1, k, v)
  {
    assert d[p] == d[p + 0] == Header(k, v)[0] == 2 * k + 16 * v;
    FirstByte(k, v);
  }

  lemma {:induction false} HeaderReads3(d: seq<byte>, p: nat, k: nat, v: nat)
    requires HeaderAt(d, p, k, v, 3)
    ensures HLen(d[p]) == 3 && Unpack(d, p) == Part(3, k, v)
  {
    assert d[p] == d[p + 0] == Header(k, v)[0] == 1 + 2 * k;
    assert d[p + 1] == Header(k, v)[1] == v % 256;
    assert d[p + 2] == Header(k, v)[2] == v / 256;
  }

  lemma {:induction false} HeaderReads5(d: seq<byte>, p: nat, k: nat, v: nat)
    requires HeaderAt(d, p, k, v, 5)
    ensures HLen(d[p]) == 5 && Unpack(d, p) == Part(5, k, v)
  {
    var hd := Header(k, v);
    assert d[p] == d[p + 0] == hd[0] == 0;
    assert d[p + 1] == hd[1] == k % 256;
    assert d[p + 2] == hd[2] == k / 256;
    assert d[p + 3] == hd[3] == v % 256;
    assert d[p + 4] == hd[4] == v / 256;
  }

  lemma {:induction false} Get3Back(d: seq<byte>, p: nat, n: nat)
    requires p + 3 <= |d| && n < 0x100_0000 && d[p] == Le3(n)[0] && d[p + 1] == Le3(n)[1] && d[p + 2] == Le3(n)[2]
    ensures Get3(d, p) == n
  {
  }

  lemma {:induction false} HeaderReads8(d: seq<byte>, p: nat, k: nat, v: nat)
    requires HeaderAt(d, p, k, v, 8)
    ensures HLen(d[p]) == 8 && Unpack(d, p) == Part(8, k, v)
  {
    var hd := Header(k, v);
    assert d[p] == d[p + 0] == hd[0] == 16;
    assert d[p + 1] == hd[1] && d[p + 2] == hd[2] && d[p + 3] == hd[3];
    assert Get3(d, p + 1) == k by { Get3Back(d, p + 1, k); }
    hide Get3;
    assert d[p + 4] == hd[4] && d[p + 5] == hd[5] && d[p + 6] == hd[6] && d[p + 7] == hd[7];
    assert d[p + 4..p + 4 + 4] == Le4(v);
    Le4RoundTrip(v, d, p + 4);
  }

  lemma {:induction false} HeaderReads(d: seq<byte>, p: nat, k: nat, v: nat, h: nat)
    requires HeaderAt(d, p, k, v, h)
    ensures HLen(d[p]) == h && Unpack(d, p) == Part(h, k, v)
  {
    match h {
      case 1 => HeaderReads1(d, p, k, v);
      case 3 => HeaderReads3(d, p, k, v);
      case 5 => HeaderReads5(d, p, k, v);
      case _ => HeaderReads8(d, p, k, v);
    }
  }

  /** A slice of a slice. */
  lemma {:induction false} Window(d: seq<byte>, p: nat, n: nat, a: nat, b: nat)
    requires p + n <= |d| && a <= b <= n
    ensures d[p..p + n][a..b] == d[p + a..p + b]
  {
    var x, y := d[p..p + n][a..b], d[p + a..p + b];
    forall i | 0 <= i < b - a ensures x[i] == y[i] { assert x[i] == d[p..p + n][a + i] == d[p + (a + i)]; }
  }

  lemma {:induction false} RecordParts(d: seq<byte>, p: nat, r: Rec)
    requires RecordAt(d, p, r)
    ensures var h := HeaderLen(|r.key|, |r.val|);
            && HeaderAt(d, p, |r.key|, |r.val|, h)
            && d[p + h..p + h + |r.key|] == r.key
            && d[p + h + |r.key|..p + h + |r.key| + |r.val|] == r.val
  {
    hide Header;
    var h := HeaderLen(|r.key|, |r.val|);
    var w := d[p..p + RecLen(r)];
    assert w[..h] == Header(|r.key|, |r.val|);
    forall i | 0 <= i < h ensures d[p + i] == Header(|r.key|, |r.val|)[i] {
      assert d[p + i] == w[i] == w[..h][i];
    }
    Window(d, p, RecLen(r), h, h + |r.key|);
    Window(d, p, RecLen(r), h + |r.key|, RecLen(r));
    assert w[h..h + |r.key|] == r.key;
    assert w[h + |r.key|..RecLen(r)] == r.val;
  }

  /**
   * Unpacking finds the parts of whatever record was packed, for every key and value
   * length that can be stored: no header is ever taken for one of another layout.
   */
  lemma {:induction false} UnpackFindsRecord(d: seq<byte>, p: nat, r: Rec)
    requires RecordAt(d, p, r)
    ensures p < |d| && HLen(d[p]) == HeaderLen(|r.key|, |r.val|) && p + HLen(d[p]) <= |d|
    ensures Unpack(d, p) == Part(HeaderLen(|r.key|, |r.val|), |r.key|, |r.val|)
    ensures var h := HLen(d[p]);
            && d[p + h..p + h + |r.key|] == r.key
            && d[p + h + |r.key|..p + h + |r.key| + |r.val|] == r.val
  {
    RecordParts(d, p, r);
    HeaderReads(d, p, |r.key|, |r.val|, HeaderLen(|r.key|, |r.val|));
  }

  /** Packing and unpacking: every key of 1 to 2^24 - 1 bytes and every value of less than 2^32 come back. */
  lemma {:induction false} PackedComesBack(key: seq<byte>, val: seq<byte>)
    requires 1 <= |key| < 0x100_0000 && |val| < 0x1_0000_0000
    ensures Storable(Rec(key, val))
    ensures var d := Encode(Rec(key, val));
            && |d| > 0 && HLen(d[0]) <= |d|
            && var part := Unpack(d, 0);
            && part.keyLen == |key| && part.valLen == |val| && part.headerLen + |key| + |val| == |d|
            && FieldsHold(part.headerLen, |key|, |val|)
            && d[part.headerLen..part.headerLen + |key|] == key && d[part.headerLen + |key|..] == val
  {
    var r := Rec(key, val);
    HeaderLenIs(|key|, |val|);
    var d := Encode(r);
    assert d[0..0 + RecLen(r)] == d;
    UnpackFindsRecord(d, 0, r);
  }

  /** No record's bytes are the start of another's, so a position determines its record. */
  lemma {:induction false} RecordIsUnique(d: seq<byte>, p: nat, r: Rec, r': Rec)
    requires RecordAt(d, p, r) && RecordAt(d, p, r')
    ensures r == r'
  {
    UnpackFindsRecord(d, p, r);
    UnpackFindsRecord(d, p, r');
  }
}
