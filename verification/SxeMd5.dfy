module SxeMd5 {
  // A streaming MD5 digest, after RFC 1321.  How one 64-byte block changes the four words is
  // a parameter; what is modelled is the cutting of the message into blocks, the padding and
  // the bit count that is kept in two parts.

  import opened Arithmetic
  import opened Bytes

  type word = w: int | 0 <= w < 0x1_0000_0000

  const BLOCK: nat := 64
  const WORD: nat := 0x1_0000_0000

  // The low part of the byte count has 29 bits.
  const LOW: nat := 0x2000_0000

  datatype Words = Words(a: word, b: word, c: word, d: word)

  const INIT := Words(0x67452301, 0xefcdab89, 0x98badcfe, 0x10325476)

  type Compress = (Words, seq<byte>) -> Words

  // ---------------------------------------------------------------- the auxiliary functions

  /** A word bit by bit. */
  type Bits = s: seq<bool> | |s| == 32 witness seq(32, _ => false)

  function Each(x: Bits, y: Bits, z: Bits, op: (bool, bool, bool) -> bool): Bits {
    seq(32, i requires 0 <= i < 32 => op(x[i], y[i], z[i]))
  }

  /** F and G as section 3.4 of RFC 1321 defines them. */
  function F(x: Bits, y: Bits, z: Bits): Bits { Each(x, y, z, (a, b, c) => (a && b) || (!a && c)) }

  function G(x: Bits, y: Bits, z: Bits): Bits { Each(x, y, z, (a, b, c) => (a && c) || (b && !c)) }

  /** F and G as the program computes them, without a complement; != is exclusive or. */
  function FastF(x: Bits, y: Bits, z: Bits): Bits { Each(x, y, z, (a, b, c) => c != (a && (b != c))) }

  function FastG(x: Bits, y: Bits, z: Bits): Bits { Each(x, y, z, (a, b, c) => b != (c && (a != b))) }

  lemma {:induction false} FastFormsAgree(x: Bits, y: Bits, z: Bits)
    ensures FastF(x, y, z) == F(x, y, z) && FastG(x, y, z) == G(x, y, z)
  {
    forall i | 0 <= i < 32 ensures FastF(x, y, z)[i] == F(x, y, z)[i] && FastG(x, y, z)[i] == G(x, y, z)[i] { }
  }

  // ---------------------------------------------------------------- what a digest is

  /** The words after a row of whole blocks. */
  function Fold(f: Compress, w: Words, s: seq<byte>): Words
    requires |s| % BLOCK == 0
    decreases |s|
  {
    if s == [] then w else Fold(f, f(w, s[..BLOCK]), s[BLOCK..])
  }

  lemma {:induction false} FoldSplits(f: Compress, w: Words, a: seq<byte>, b: seq<byte>)
    requires |a| % BLOCK == 0 && |b| % BLOCK == 0
    ensures Fold(f, w, a + b) == Fold(f, Fold(f, w, a), b)
    decreases |a|
  {
    if a == [] {
      assert a + b == b;
    } else {
      assert (a + b)[..BLOCK] == a[..BLOCK] && (a + b)[BLOCK..] == a[BLOCK..] + b;
      FoldSplits(f, f(w, a[..BLOCK]), a[BLOCK..], b);
    }
  }

  /** How many zero bytes follow the byte 0x80: as many as bring the length to 56 modulo 64. */
  function ZerosFor(len: nat): (k: nat)
    ensures k < BLOCK && (len + 1 + k) % BLOCK == 56
  {
    (119 - len % BLOCK) % BLOCK
  }

  lemma {:induction false} RoomForLength(n: nat)
    requires n % BLOCK == 56
    ensures (n + 8) % BLOCK == 0
  {
  }

  /** A length in bytes as eight bytes of a length in bits, modulo 2^64. */
  function BitLength(n: nat): (s: seq<byte>)
    ensures |s| == 8
  {
    Le4(8 * n % WORD) + Le4(8 * n / WORD % WORD)
  }

  /** A message padded as sections 3.1 and 3.2 of RFC 1321 say. */
  function Padded(m: seq<byte>): (s: seq<byte>)
    ensures |s| % BLOCK == 0
  {
    RoomForLength(|m| + 1 + ZerosFor(|m|));
    m + [0x80] + Zeros(ZerosFor(|m|)) + BitLength(|m|)
  }

  function Output(w: Words): seq<byte> {
    Le4(w.a) + Le4(w.b) + Le4(w.c) + Le4(w.d)
  }

  /** Sixteen bytes: the words A, B, C and D, low byte first, as section 3.5 of RFC 1321 says. */
  predicate IsOutput(s: seq<byte>, w: Words) {
    |s| == 16 && LowFirst(s[..4]) == w.a && LowFirst(s[4..8]) == w.b && LowFirst(s[8..12]) == w.c && LowFirst(s[12..]) == w.d
  }

  lemma {:induction false} OutputIs(w: Words)
    ensures IsOutput(Output(w), w)
  {
    var s := Output(w);
    Le4Back(w.a);
    Le4Back(w.b);
    Le4Back(w.c);
    Le4Back(w.d);
    assert s[..4] == Le4(w.a) && s[4..8] == Le4(w.b) && s[8..12] == Le4(w.c) && s[12..] == Le4(w.d);
  }

  /** The words that a digest begins with are given as these bytes in section 3.3 of RFC 1321. */
  lemma {:induction false} OutputOfInit()
    ensures Output(INIT) == [0x01, 0x23, 0x45, 0x67, 0x89, 0xab, 0xcd, 0xef, 0xfe, 0xdc, 0xba, 0x98, 0x76, 0x54, 0x32, 0x10]
  {
    assert Le4(INIT.a) == [0x01, 0x23, 0x45, 0x67] && Le4(INIT.b) == [0x89, 0xab, 0xcd, 0xef];
    assert Le4(INIT.c) == [0xfe, 0xdc, 0xba, 0x98] && Le4(INIT.d) == [0x76, 0x54, 0x32, 0x10];
  }

  /** One block is taken in by compressing it once. */
  lemma {:induction false} OneBlock(f: Compress, w: Words, s: seq<byte>)
    requires |s| == 64
    ensures Fold(f, w, s) == f(w, s)
  {
    assert s[..BLOCK] == s && s[BLOCK..] == [];
  }

  lemma {:induction false} BitLengthIs(n: nat)
    ensures LowFirst(BitLength(n)) == 8 * n % 0x1_0000_0000_0000_0000
  {
    var lo, hi := 8 * n % WORD, 8 * n / WORD % WORD;
    Le4Back(lo);
    Le4Back(hi);
    LowFirstOfTwo(Le4(lo), Le4(hi));
    var q := 8 * n / WORD;
    assert 8 * n == WORD * q + lo && q == WORD * (q / WORD) + hi;
  }

  /**
   * The padded message is the message, the byte 0x80, as few zeros as fill up whole blocks
   * together with eight bytes more, and those eight: 8 times the length modulo 2^64, low byte first.
   */
  lemma {:induction false} PaddedIs(m: seq<byte>)
    ensures var s := Padded(m);
            && |s| % 64 == 0 && |m| + 9 <= |s| < |m| + 9 + 64
            && s[..|m|] == m && s[|m|] == 0x80
            && (forall i :: |m| < i < |s| - 8 ==> s[i] == 0)
            && LowFirst(s[|s| - 8..]) == 8 * |m| % 0x1_0000_0000_0000_0000
  {
    var s, z := Padded(m), ZerosFor(|m|);
    BitLengthIs(|m|);
    assert s == m + [0x80] + Zeros(z) + BitLength(|m|);
    assert s[|s| - 8..] == BitLength(|m|);
    hide BitLength, ZerosFor, LowFirst;
    forall i | |m| < i < |s| - 8 ensures s[i] == 0 { assert s[i] == Zeros(z)[i - |m| - 1]; }
  }

  function Digest(f: Compress, m: seq<byte>): seq<byte> {
    Output(Fold(f, INIT, Padded(m)))
  }

  // ---------------------------------------------------------------- counting

  /** The two parts of the byte count after more bytes. */
  function Counted(lo: nat, hi: nat, size: nat): (nat, nat) {
    var lo' := (lo + size) % LOW;
    var hi' := if lo' < lo then (hi + 1) % WORD else hi;
    (lo', (hi' + size / LOW) % WORD)
  }

  lemma {:induction false} AddMod(a: int, b: int)
    ensures (a % WORD + b) % WORD == (a + b) % WORD
  {
    var q := a / WORD;
    assert a + b == (a % WORD + b) + WORD * q;
    ModShift(WORD, a % WORD + b, q);
  }

  /** The two parts stay those of the whole byte count: a carry is found by comparing the low parts. */
  lemma {:induction false} CountedRight(n: nat, size: nat)
    ensures Counted(n % LOW, n / LOW % WORD, size) == ((n + size) % LOW, (n + size) / LOW % WORD)
  {
    var lo, s, q, t := n % LOW, size % LOW, n / LOW, size / LOW;
    assert n == LOW * q + lo && size == LOW * t + s;
    var lo' := (lo + size) % LOW;
    var carry := if lo + s >= LOW then 1 else 0;
    assert lo + size == LOW * (t + carry) + (lo + s - LOW * carry);
    assert lo' == lo + s - LOW * carry;
    assert lo' < lo <==> carry == 1;
    assert n + size == LOW * (q + t + carry) + lo';
    assert (n + size) / LOW == q + t + carry && (n + size) % LOW == lo';
    AddMod(q, 1);
    AddMod(q + carry, t);
    AddMod(q, t);
  }

  /** The count in bytes, in its two parts, is the count in bits, in two words. */
  lemma {:induction false} CountInBits(n: nat)
    ensures n % LOW * 8 == 8 * n % WORD && n / LOW % WORD == 8 * n / WORD % WORD
  {
    var lo, q := n % LOW, n / LOW;
    assert n == LOW * q + lo;
    assert 8 * n == WORD * q + 8 * lo;
  }

  // ---------------------------------------------------------------- the context

  /** The whole blocks of a message. */
  function Blocks(m: seq<byte>): (s: seq<byte>)
    ensures |s| % BLOCK == 0
  {
    m[..|m| - |m| % BLOCK]
  }

  /** What is left over after the whole blocks. */
  function Left(m: seq<byte>): seq<byte> {
    m[|m| - |m| % BLOCK..]
  }

  class Context {
    const compress: Compress
    var words: Words
    var lo: nat
    var hi: nat
    const buffer: array<byte>

    /** All that has been put in so far; the program does not keep it. */
    ghost var message: seq<byte>

    ghost predicate Valid()
      reads this, buffer
    {
      && buffer.Length == BLOCK
      && lo == |message| % LOW && hi == |message| / LOW % WORD
      && words == Fold(compress, INIT, Blocks(message))
      && buffer[..|message| % BLOCK] == Left(message)
    }

    constructor (compress: Compress)
      ensures Valid() && fresh(buffer) && message == [] && this.compress == compress
    {
      this.compress := compress;
      words := INIT;
      lo, hi := 0, 0;
      buffer := new byte[BLOCK](_ => 0);
      message := [];
    }

    /** Take in one or more whole blocks. */
    method Body(data: seq<byte>)
      requires |data| > 0 && |data| % BLOCK == 0
      modifies this`words
      ensures words == Fold(compress, old(words), data)
    {
      var size: nat, at: nat := |data|, 0;
      assert data[0..] == data;
      while size > 0
        invariant at + size == |data| && size % BLOCK == 0
        invariant Fold(compress, words, data[at..]) == Fold(compress, old(words), data)
        decreases size
      {
        assert data[at..][..BLOCK] == data[at..at + BLOCK] && data[at..][BLOCK..] == data[at + BLOCK..];
        words := compress(words, data[at..at + BLOCK]);
        at := at + BLOCK;
        size := size - BLOCK;
      }
      assert data[at..] == [];
    }

    /** Copy bytes into the buffer. */
    method CopyIn(at: nat, data: seq<byte>)
      requires at + |data| <= buffer.Length
      modifies buffer
      ensures buffer[..at] == old(buffer[..at]) && buffer[at..at + |data|] == data
      ensures buffer[at + |data|..] == old(buffer[at + |data|..])
    {
      forall i | 0 <= i < |data| { buffer[at + i] := data[i]; }
    }

    /** The words are those after a message of whole blocks. */
    ghost predicate After(seen: seq<byte>)
      reads this`words
    {
      |seen| % BLOCK == 0 && words == Fold(compress, INIT, seen)
    }

    /** Add to the byte count. */
    method Count(size: nat, ghost n: nat) returns (used: nat)
      requires lo == n % LOW && hi == n / LOW % WORD
      modifies this`lo, this`hi
      ensures lo == (n + size) % LOW && hi == (n + size) / LOW % WORD
      ensures used == n % BLOCK
    {
      CountedRight(n, size);
      UsedIsLow(n);
      var savedLo := lo;
      lo := (savedLo + size) % LOW;
      if lo < savedLo {
        hi := (hi + 1) % WORD;
      }
      hi := (hi + size / LOW) % WORD;
      used := savedLo % BLOCK;
    }

    /** Complete the block in the buffer and take it in. */
    method TakeBuffer(data: seq<byte>, ghost m: seq<byte>)
      requires buffer.Length == BLOCK && |m| % BLOCK + |data| == BLOCK
      requires words == Fold(compress, INIT, Blocks(m)) && buffer[..|m| % BLOCK] == Left(m)
      modifies this`words, buffer
      ensures After(m + data)
    {
      hide Fold, Blocks, Left;
      ghost var used := |m| % BLOCK;
      CopyIn(BLOCK - |data|, data);
      FillsBlock(compress, m, data);
      assert buffer[..] == buffer[..used] + buffer[used..used + |data|];
      Body(buffer[..]);
    }

    /** Take in what there is of whole blocks and keep the rest in the buffer. */
    method TakeRest(data: seq<byte>, ghost seen: seq<byte>)
      requires buffer.Length == BLOCK && After(seen)
      modifies this`words, buffer
      ensures words == Fold(compress, INIT, Blocks(seen + data)) && buffer[..|seen + data| % BLOCK] == Left(seen + data)
    {
      hide Fold, Blocks, Left;
      var rest := data;
      ghost var all := seen;
      if |data| >= BLOCK {
        var whole := |data| - |data| % BLOCK;
        FoldSplits(compress, INIT, seen, data[..whole]);
        Body(data[..whole]);
        all := seen + data[..whole];
        rest := data[whole..];
        assert all + rest == seen + data;
      }
      CopyIn(0, rest);
      Settled(all, rest);
    }

    /** Take in some more of the message. */
    method Update(data: seq<byte>)
      requires Valid()
      modifies this, buffer
      ensures Valid() && message == old(message) + data
    {
      hide Fold, Blocks, Left;
      ghost var m := message;
      var used := Count(|data|, |m|);
      message := m + data;
      if used > 0 && |data| < BLOCK - used {
        CopyIn(used, data);
        StillPartial(m, data);
        assert buffer[..used + |data|] == buffer[..used] + buffer[used..used + |data|];
      } else if used > 0 {
        var free := BLOCK - used;
        TakeBuffer(data[..free], m);
        assert m + data[..free] + data[free..] == message;
        TakeRest(data[free..], m + data[..free]);
      } else {
        NoneLeft(m);
        TakeRest(data, m);
      }
    }

    /** Put the byte 0x80 behind what is in the buffer. */
    method Mark(used: nat, ghost left: seq<byte>)
      requires used < buffer.Length && buffer[..used] == left
      modifies buffer
      ensures buffer[..used + 1] == left + [0x80]
    {
      buffer[used] := 0x80;
      assert buffer[..used + 1] == buffer[..used] + [buffer[used]];
    }

    /** Put the byte 0x80 behind the message, and zeros to the end of the block if the length does not fit in it. */
    method StartPadding(ghost m: seq<byte>) returns (used: nat, ghost done: seq<byte>)
      requires Valid() && m == message
      modifies this`words, buffer
      ensures used <= 56 && After(done) && buffer.Length == BLOCK
      ensures done + buffer[..used] + Zeros(56 - used) == m + [0x80] + Zeros(ZerosFor(|m|))
    {
      hide Fold, Blocks, Left, ZerosFor, Zeros;
      UsedIsLow(|m|);
      LeftIs(m);
      used := lo % BLOCK;
      done := Blocks(m);
      Mark(used, Left(m));
      used := used + 1;
      var free := BLOCK - used;
      if free < 8 {
        CopyIn(used, Zeros(free));
        TwoParts(buffer[..], used, BLOCK);
        ghost var last := buffer[..];
        assert last == last[..BLOCK];
        FoldSplits(compress, INIT, done, last);
        Body(buffer[..]);
        LongPadding(m, done, last);
        done := done + last;
        used := 0;
        assert buffer[..0] == [] && done + [] == done;
      } else {
        ShortPadding(m, done, buffer[..used]);
      }
    }

    /** Pad the message and give out its digest. */
    method Final() returns (result: seq<byte>)
      requires Valid()
      modifies this, buffer
      ensures result == Digest(compress, old(message))
      ensures IsOutput(result, Fold(compress, INIT, Padded(old(message))))
    {
      hide Fold, IsOutput, Output, Blocks, Left, ZerosFor, Zeros, Le4;
      ghost var m := message;
      ghost var done;
      var used;
      used, done := StartPadding(m);
      ghost var start := buffer[..used];
      CopyIn(used, Zeros(56 - used));
      TwoParts(buffer[..], used, 56);
      CountInBits(|m|);
      lo := lo * 8 % WORD;
      CopyIn(56, Le4(lo));
      TwoParts(buffer[..], 56, 60);
      CopyIn(60, Le4(hi));
      TwoParts(buffer[..], 60, 64);
      Completed(m, done, start, Zeros(56 - used), buffer[..]);
      FoldSplits(compress, INIT, done, buffer[..]);
      Body(buffer[..]);
      OutputIs(words);
      result := Output(words);
      words, lo, hi := Words(0, 0, 0, 0), 0, 0;
    }
  }

  lemma {:induction false} LeftIs(m: seq<byte>)
    ensures |Left(m)| == |m| % BLOCK && m == Blocks(m) + Left(m)
  {
  }

  lemma {:induction false} LengthIs(n: nat)
    ensures BitLength(n) == Le4(8 * n % WORD) + Le4(8 * n / WORD % WORD)
  {
  }

  lemma {:induction false} TwoParts(block: seq<byte>, i: nat, j: nat)
    requires i <= j <= |block|
    ensures block[..j] == block[..i] + block[i..j]
  {
  }

  lemma {:induction false} Completed(m: seq<byte>, done: seq<byte>, start: seq<byte>, zeros: seq<byte>, block: seq<byte>)
    requires done + start + zeros == m + [0x80] + Zeros(ZerosFor(|m|))
    requires |block| == BLOCK && block[..64] == start + zeros + Le4(8 * |m| % WORD) + Le4(8 * |m| / WORD % WORD)
    ensures done + block == Padded(m)
  {
    LengthIs(|m|);
    hide Zeros, ZerosFor, BitLength, Le4;
    assert block == block[..64];
    assert done + block == done + start + zeros + BitLength(|m|);
  }

  lemma {:induction false} ZerosForIs(n: nat)
    ensures ZerosFor(n) == if n % BLOCK <= 55 then 55 - n % BLOCK else 119 - n % BLOCK
  {
  }

  lemma {:induction false} ShortPadding(m: seq<byte>, done: seq<byte>, start: seq<byte>)
    requires |m| % BLOCK <= 55 && done == Blocks(m) && start == Left(m) + [0x80]
    ensures |start| <= 56 && done + start + Zeros(56 - |start|) == m + [0x80] + Zeros(ZerosFor(|m|))
  {
    LeftIs(m);
    ZerosForIs(|m|);
    hide ZerosFor, Blocks, Left;
    assert done + start == m + [0x80];
  }

  lemma {:induction false} LongPadding(m: seq<byte>, done: seq<byte>, last: seq<byte>)
    requires |m| % BLOCK > 55 && done == Blocks(m) && last == Left(m) + [0x80] + Zeros(63 - |m| % BLOCK)
    ensures done + last + Zeros(56) == m + [0x80] + Zeros(ZerosFor(|m|))
  {
    LeftIs(m);
    ZerosForIs(|m|);
    hide ZerosFor, Blocks, Left;
    assert done + last == m + [0x80] + Zeros(63 - |m| % BLOCK);
    assert Zeros(63 - |m| % BLOCK) + Zeros(56) == Zeros(119 - |m| % BLOCK);
  }

  lemma {:induction false} UsedIsLow(n: nat)
    ensures n % LOW % BLOCK == n % BLOCK
  {
    var q, r := n / LOW, n % LOW;
    var t := r / BLOCK;
    assert n == LOW * q + r && r == BLOCK * t + r % BLOCK;
    assert n == BLOCK * (LOW / BLOCK * q + t) + r % BLOCK;
  }

  lemma {:induction false} StillPartial(m: seq<byte>, data: seq<byte>)
    requires |m| % BLOCK + |data| < BLOCK
    ensures Blocks(m + data) == Blocks(m) && Left(m + data) == Left(m) + data
    ensures |m + data| % BLOCK == |m| % BLOCK + |data|
  {
    var q, r := |m| / BLOCK, |m| % BLOCK;
    assert |m| == BLOCK * q + r && |m + data| == BLOCK * q + (r + |data|);
    assert |m + data| % BLOCK == r + |data|;
    assert (m + data)[..BLOCK * q] == m[..BLOCK * q] && (m + data)[BLOCK * q..] == m[BLOCK * q..] + data;
  }

  /** Bytes that complete a block. */
  lemma {:induction false} FillsBlock(f: Compress, m: seq<byte>, data: seq<byte>)
    requires |m| % BLOCK + |data| == BLOCK
    ensures |m + data| % BLOCK == 0 && |Left(m) + data| == BLOCK
    ensures Fold(f, Fold(f, INIT, Blocks(m)), Left(m) + data) == Fold(f, INIT, m + data)
  {
    FoldSplits(f, INIT, Blocks(m), Left(m) + data);
    assert m + data == Blocks(m) + (Left(m) + data);
  }

  lemma {:induction false} NoneLeft(m: seq<byte>)
    requires |m| % BLOCK == 0
    ensures Blocks(m) == m
  {
  }

  lemma {:induction false} Settled(seen: seq<byte>, rest: seq<byte>)
    requires |seen| % BLOCK == 0 && |rest| < BLOCK
    ensures Blocks(seen + rest) == seen && Left(seen + rest) == rest && |seen + rest| % BLOCK == |rest|
  {
  }

  // ---------------------------------------------------------------- any way of cutting a message

  function Joined(parts: seq<seq<byte>>): seq<byte> {
    if parts == [] then [] else Joined(parts[..|parts| - 1]) + parts[|parts| - 1]
  }

  /** However a message is cut into updates, the digest is that of the whole message. */
  method DigestInParts(compress: Compress, parts: seq<seq<byte>>) returns (result: seq<byte>)
    ensures result == Digest(compress, Joined(parts))
  {
    var c := new Context(compress);
    var i := 0;
    while i < |parts|
      invariant i <= |parts| && c.Valid() && fresh(c) && fresh(c.buffer)
      invariant c.message == Joined(parts[..i]) && c.compress == compress
    {
      assert parts[..i + 1][..i] == parts[..i];
      c.Update(parts[i]);
      i := i + 1;
    }
    assert parts[..i] == parts;
    result := c.Final();
  }
}
