// Rows of bits, high bit first, and the numbers that they stand for.
module BaseBits {
  import opened Arithmetic
  import opened Bytes

  type Bits = seq<bool>

  function Pow2(n: nat): (p: nat)
    ensures p > 0
  {
    if n == 0 then 1 else 2 * Pow2(n - 1)
  }

  function Val(s: Bits): (v: nat)
    ensures v < Pow2(|s|)
  {
    if s == [] then 0 else 2 * Val(s[..|s| - 1]) + if s[|s| - 1] then 1 else 0
  }

  /** The lowest w bits of a number. */
  function BitsOf(v: nat, w: nat): (s: Bits)
    ensures |s| == w
  {
    if w == 0 then [] else BitsOf(v / 2, w - 1) + [v % 2 == 1]
  }

  function ZeroBits(n: nat): (s: Bits)
    ensures |s| == n
  {
    seq(n, _ => false)
  }

  lemma {:induction false} BitsOfVal(s: Bits)
    ensures BitsOf(Val(s), |s|) == s
  {
    if s != [] { BitsOfVal(s[..|s| - 1]); }
  }

  lemma {:induction false} ValOfBits(v: nat, w: nat)
    requires v < Pow2(w)
    ensures Val(BitsOf(v, w)) == v
  {
    if w > 0 {
      ValOfBits(v / 2, w - 1);
      var s := BitsOf(v, w);
      assert s[..|s| - 1] == BitsOf(v / 2, w - 1);
    }
  }

  lemma {:induction false} PowSum(a: nat, b: nat)
    ensures Pow2(a + b) == Pow2(a) * Pow2(b)
  {
    if b > 0 {
      PowSum(a, b - 1);
      assert Pow2(a) * (2 * Pow2(b - 1)) == 2 * (Pow2(a) * Pow2(b - 1));
    }
  }

  lemma {:induction false} Mul3(a: int, b: int, c: int)
    ensures (a * b) * c == a * (b * c)
  {
  }

  lemma {:induction false} Dist(a: int, b: int, c: int)
    ensures (a + b) * c == a * c + b * c
  {
  }

  lemma {:induction false} ValMore(s: Bits, c: bool)
    ensures Val(s + [c]) == 2 * Val(s) + if c then 1 else 0
  {
    assert (s + [c])[..|s|] == s;
  }

  lemma {:induction false} PowMore(n: nat)
    ensures Pow2(n + 1) == 2 * Pow2(n)
  {
  }

  lemma {:induction false} ValSplit(a: Bits, b: Bits)
    ensures Val(a + b) == Val(a) * Pow2(|b|) + Val(b)
  {
    if b == [] {
      assert a + b == a;
    } else {
      hide Val, Pow2;
      var c, x := b[..|b| - 1], b[|b| - 1];
      assert a + b == (a + c) + [x] && b == c + [x];
      ValSplit(a, c);
      ValMore(a + c, x);
      ValMore(c, x);
      PowMore(|c|);
      Mul3(Val(a), Pow2(|c|), 2);
    }
  }

  lemma {:induction false} ValZeros(n: nat)
    ensures Val(ZeroBits(n)) == 0
  {
    if n > 0 {
      ValZeros(n - 1);
      assert ZeroBits(n)[..n - 1] == ZeroBits(n - 1);
    }
  }

  // ---------------------------------------------------------------- division

  lemma {:induction false} TopInt(k: nat, m: nat, n: nat, a: nat, b: nat)
    requires a < m && b < n
    ensures var x := (m * n) * k + (a * n + b); x / n % m == a && x % n == b
  {
    Mul3(m, n, k);
    Mul3(m, k, n);
    Dist(m * k, a, n);
    DivOf(m * k + a, n, b);
    DivOf(k, m, a);
  }

  lemma {:induction false} AppendedInt(k: nat, m: nat, n: nat, a: nat, b: nat)
    requires a < m && b < n
    ensures ((m * k + a) * n + b) % (m * n) == a * n + b
  {
    Dist(m * k, a, n);
    Mul3(m, k, n);
    Mul3(k, m, n);
    Scale(m - 1, a, n);
    Dist(m, -1, n);
    DivOf(k, m * n, a * n + b);
  }

  lemma {:induction false} CutInt(x: nat, d: nat, m: nat, n: nat)
    requires m > 0 && n > 0 && d == n * m > 0
    ensures x % d % m == x % m
  {
    var k, y := Divide(x, d);
    var l, z := Divide(y, m);
    Mul3(n, m, k);
    Mul3(n, k, m);
    Dist(n * k, l, m);
    assert x == (n * k + l) * m + z;
    DivOf(n * k + l, m, z);
  }

  lemma {:induction false} TopOf(x: nat, d: nat, m: nat, n: nat, a: nat, b: nat)
    requires d == m * n > 0 && a < m && b < n && x % d == a * n + b
    ensures x / n % m == a && x % n == b
  {
    var k, y := Divide(x, d);
    TopInt(k, m, n, a, b);
  }

  lemma {:induction false} AppendedTo(x: nat, d: nat, m: nat, n: nat, a: nat, b: nat)
    requires d == m * n > 0 && a < m && b < n && x % m == a
    ensures (x * n + b) % d == a * n + b
  {
    var k, y := Divide(x, m);
    AppendedInt(k, m, n, a, b);
  }

  /** The bits of a number above the lowest |b| ones, cut to |a| of them. */
  lemma {:induction false} TopBits(x: nat, a: Bits, b: Bits)
    requires x % Pow2(|a| + |b|) == Val(a + b)
    ensures x / Pow2(|b|) % Pow2(|a|) == Val(a) && x % Pow2(|b|) == Val(b)
  {
    hide Val, Pow2;
    PowSum(|a|, |b|);
    ValSplit(a, b);
    TopOf(x, Pow2(|a| + |b|), Pow2(|a|), Pow2(|b|), Val(a), Val(b));
  }

  /** Appending bits to a number. */
  lemma {:induction false} Appended(x: nat, a: Bits, b: Bits)
    requires x % Pow2(|a|) == Val(a)
    ensures (x * Pow2(|b|) + Val(b)) % Pow2(|a| + |b|) == Val(a + b)
  {
    hide Val, Pow2;
    PowSum(|a|, |b|);
    ValSplit(a, b);
    AppendedTo(x, Pow2(|a| + |b|), Pow2(|a|), Pow2(|b|), Val(a), Val(b));
  }

  /** Cutting a number to 32 bits does not change its lowest bits. */
  lemma {:induction false} CutTo32(x: nat, w: nat)
    requires w <= 32
    ensures x % Pow2(32) % Pow2(w) == x % Pow2(w)
  {
    hide Pow2;
    PowSum(32 - w, w);
    CutInt(x, Pow2(32), Pow2(w), Pow2(32 - w));
  }

  // ---------------------------------------------------------------- bytes

  function ByteBits(s: seq<byte>): (r: Bits)
    ensures |r| == 8 * |s|
  {
    if s == [] then [] else ByteBits(s[..|s| - 1]) + BitsOf(s[|s| - 1], 8)
  }

  lemma {:induction false} ByteBitsMore(s: seq<byte>, b: byte)
    ensures ByteBits(s + [b]) == ByteBits(s) + BitsOf(b, 8)
  {
    assert (s + [b])[..|s|] == s;
  }

  lemma {:induction false} ByteBitsUnique(a: seq<byte>, b: seq<byte>)
    requires |a| == |b| && ByteBits(a) == ByteBits(b)
    ensures a == b
  {
    if a != [] {
      var n := |a| - 1;
      var x, y := ByteBits(a), ByteBits(b);
      assert x[..8 * n] == ByteBits(a[..n]) && y[..8 * n] == ByteBits(b[..n]);
      assert x[8 * n..] == BitsOf(a[n], 8) && y[8 * n..] == BitsOf(b[n], 8);
      ByteBitsUnique(a[..n], b[..n]);
      assert Pow2(8) == 256;
      ValOfBits(a[n], 8);
      ValOfBits(b[n], 8);
      assert a == a[..n] + [a[n]] && b == b[..n] + [b[n]];
    }
  }
}
