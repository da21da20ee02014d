// A dictionary: buckets of linked nodes, with a table that grows as entries are added.
module SxeDict {
  import opened Bytes
  import opened CStrings
  import opened Sequences

  const NIL: int := -1
  const U32: nat := 0x1_0000_0000

  type u32 = n: int | 0 <= n < U32

  /** A value pointer, which may be NULL. */
  datatype Ptr<V> = Null | Ptr(v: V)

  /** What an operation comes to: it is done, there is no memory for a bigger table, or there are no buckets to divide by. */
  datatype Outcome = Done | NoMemory | DividesByZero

  /** The size that a table is to grow to: a product of 32 bits, passed on as a signed number. */
  function NewSize(size: u32, growth: u32): (n: int)
    ensures -0x8000_0000 <= n < 0x8000_0000
  {
    var p := size * growth % U32;
    if p < 0x8000_0000 then p else p - U32
  }

  /** As long as the product of size and growth is less than 2^31, that is the new size. */
  lemma {:induction false} NewSizeIsProduct(size: u32, growth: u32)
    ensures size * growth < 0x8000_0000 ==> NewSize(size, growth) == size * growth
    ensures (NewSize(size, growth) - size * growth) % 0x1_0000_0000 == 0
  {
    var p := size * growth;
    var q, r := p / U32, p % U32;
    assert p == U32 * q + r;
    if NewSize(size, growth) == r {
      assert NewSize(size, growth) - p == U32 * -q;
    } else {
      assert NewSize(size, growth) - p == U32 * (-q - 1);
    }
  }

  /** Settings with which a table cannot grow. */
  lemma {:induction false} BadGrowth()
    ensures forall size: u32 {:trigger NewSize(size, 0)} :: NewSize(size, 0) == 0
    ensures NewSize(2, 0x8000_0000) == 0
    ensures NewSize(1, 0x8000_0000) < 0 && NewSize(0x4000_0000, 2) < 0
  {
  }

  // ---------------------------------------------------------------- string keys

  /** The copy that is stored of the first len bytes of a string key. */
  function Copy(key: seq<byte>, len: nat): seq<byte>
    requires len <= |key|
  {
    key[..len] + [0]
  }

  /** Whether a string key is found in a stored one: both are compared as strings, whatever the length that came with it. */
  predicate SameString(stored: seq<byte>, key: seq<byte>) {
    Cut(stored) == Cut(key)
  }

  /** What a node is hashed by when the table grows is what its key was hashed by when it was added. */
  predicate SameHashed(stored: seq<byte>, key: seq<byte>, len: nat)
    requires len <= |key|
  {
    Cut(stored) == key[..len]
  }

  lemma {:induction false} CutBefore(s: seq<byte>, n: nat, rest: seq<byte>)
    requires n <= |s| && (rest == [] || rest[0] == 0)
    ensures Strlen(s[..n] + rest) == if Strlen(s) < n then Strlen(s) else n
  {
    var t := s[..n] + rest;
    if n > 0 {
      CutBefore(s[1..], n - 1, rest);
      assert t[1..] == s[1..][..n - 1] + rest;
    } else {
      assert t == rest;
    }
  }

  /**
   * A string key that was added with a length is found again with it, and hashed by the same
   * bytes when the table grows, copied or not, if and only if it ends at that length.
   */
  lemma {:induction false} StringKeyIff(key: seq<byte>, len: nat)
    requires len <= |key|
    ensures SameString(Copy(key, len), key) <==> Strlen(key) <= len
    ensures SameHashed(Copy(key, len), key, len) <==> len <= Strlen(key)
    ensures SameString(key, key) && (SameHashed(key, key, len) <==> len == Strlen(key))
  {
    var n, c := Strlen(key), Copy(key, len);
    CutBefore(key, len, [0]);
    assert |Cut(key)| == n && |Cut(c)| == if n < len then n else len;
    if n <= len { assert Cut(c) == Cut(key); }
    if len <= n { assert Cut(c) == key[..len]; }
  }

  /** Adding the first three bytes of foobar again makes another entry. */
  lemma {:induction false} ShortStringNotFound()
    ensures !SameString(Copy([102, 111, 111, 98, 97, 114], 3), [102, 111, 111, 98, 97, 114])
  {
    var key: seq<byte> := [102, 111, 111, 98, 97, 114];
    StringKeyIff(key, 3);
    StrlenWhole(key);
  }

  // ---------------------------------------------------------------- chains of nodes

  /** From a link on, these are the nodes. */
  ghost predicate Chain(next: seq<int>, at: int, c: seq<nat>)
    decreases |c|
  {
    if c == [] then at == NIL else at == c[0] && c[0] < |next| && Chain(next, next[c[0]], c[1..])
  }

  lemma {:induction false} ChainFrame(next: seq<int>, at: int, c: seq<nat>, x: nat, to: int)
    requires Chain(next, at, c) && x < |next| && x !in c
    ensures Chain(next[x := to], at, c)
    decreases |c|
  {
    if c != [] { ChainFrame(next, next[c[0]], c[1..], x, to); }
  }

  lemma {:induction false} ChainGrows(next: seq<int>, at: int, c: seq<nat>, to: int)
    requires Chain(next, at, c)
    ensures Chain(next + [to], at, c)
    decreases |c|
  {
    if c != [] { ChainGrows(next, next[c[0]], c[1..], to); }
  }

  /** Linking a new node behind the last one of a chain. */
  lemma {:induction false} ChainAppend(next: seq<int>, at: int, c: seq<nat>, x: nat)
    requires Chain(next, at, c) && c != [] && Distinct(c) && x !in c && x < |next| && next[x] == NIL
    ensures c[|c| - 1] < |next|
    ensures Chain(next[c[|c| - 1] := x], at, c + [x])
    decreases |c|
  {
    var last := c[|c| - 1];
    if |c| == 1 {
      var c' := c + [x];
      var next' := next[last := x];
      assert c'[1..] == [x] && [x][1..] == [];
      assert Chain(next', NIL, []);
      assert Chain(next', next'[c[0]], c'[1..]);
    } else {
      assert Distinct(c[1..]);
      ChainAppend(next, next[c[0]], c[1..], x);
      assert (c + [x])[1..] == c[1..] + [x];
      assert c[0] != last;
    }
  }

  lemma {:induction false} EmptyChain(next: seq<int>, at: int, c: seq<nat>)
    requires Chain(next, at, c)
    ensures at == NIL <==> c == []
  {
  }

  function At(chains: seq<seq<nat>>, i: nat): seq<nat> {
    if i < |chains| then chains[i] else []
  }

  // ---------------------------------------------------------------- the dictionary

  class Dict<K(==), V> {
    const hash: K -> nat
    const load: u32
    const growth: u32
    var size: u32
    var count: u32
    var table: seq<int>
    var key: seq<K>
    var next: seq<int>
    var value: seq<Ptr<V>>

    /** The nodes of each bucket, and the node of each key. */
    ghost var chains: seq<seq<nat>>
    ghost var node: map<K, nat>

    /** The bucket of a node in a table of a size. */
    function Home(x: nat, n: nat): nat
      requires x < |key| && n > 0
      reads this`key
    {
      hash(key[x]) % n
    }

    ghost predicate BucketOk(b: nat)
      requires b < |chains| && b < |table| && size > 0
      reads this`chains, this`table, this`next, this`key, this`size
    {
      && Chain(next, table[b], chains[b])
      && Distinct(chains[b])
      && forall i :: 0 <= i < |chains[b]| ==> chains[b][i] < |key| && Home(chains[b][i], size) == b
    }

    ghost predicate NodeOk(x: nat)
      requires x < |key|
      reads this`chains, this`key, this`size, this`node
    {
      && key[x] in node && node[key[x]] == x
      && size > 0 && Home(x, size) < |chains| && x in chains[Home(x, size)]
    }

    ghost predicate Valid()
      reads this
    {
      && |table| == |chains| == size && (size == 0 ==> |key| == 0)
      && |key| == |next| == |value| == |node| && count == |key| % U32
      && (forall k {:trigger node[k]} :: k in node ==> node[k] < |key| && key[node[k]] == k)
      && (forall b {:trigger BucketOk(b)} :: 0 <= b < size ==> BucketOk(b))
      && (forall x {:trigger NodeOk(x)} :: 0 <= x < |key| ==> NodeOk(x))
    }

    /** What the dictionary stands for. */
    ghost function Entries(): map<K, Ptr<V>>
      reads this
    {
      EntriesOf(node, value)
    }

    static ghost function EntriesOf(node: map<K, nat>, value: seq<Ptr<V>>): map<K, Ptr<V>> {
      map k | k in node && node[k] < |value| :: value[node[k]]
    }

    constructor (hash: K -> nat, initialSize: u32, load: u32, growth: u32)
      ensures Valid() && Entries() == map[] && count == 0
      ensures this.hash == hash && this.load == load && this.growth == growth && size == initialSize
      ensures forall b {:trigger chains[b]} :: 0 <= b < size ==> chains[b] == []
    {
      this.hash, this.load, this.growth := hash, load, growth;
      size, count := initialSize, 0;
      table := seq(initialSize, _ => NIL);
      key, next, value := [], [], [];
      chains := seq(initialSize, _ => []);
      node := map[];
    }

    // -------------------------------------------------------------- finding

    /** Where in a bucket a key is: its node, or NIL, and the node before it. */
    method Search(b: nat, k: K) returns (x: int, before: int)
      requires Valid() && b < size && b == hash(k) % size
      ensures x == if k in node then node[k] else NIL
      ensures x == NIL ==> before == if chains[b] == [] then NIL else chains[b][|chains[b]| - 1]
    {
      assert BucketOk(b);
      ghost var c := chains[b];
      ghost var i := 0;
      if k in node { assert NodeOk(node[k]); }
      x, before := table[b], NIL;
      assert c[0..] == c;
      while x != NIL && key[x] != k
        invariant i <= |c| && Chain(next, x, c[i..]) && (i < |c| ==> x == c[i])
        invariant before == if i == 0 then NIL else c[i - 1]
        invariant forall j :: 0 <= j < i ==> key[c[j]] != k
        decreases |c| - i
      {
        before := x;
        x := next[x];
        i := i + 1;
        assert c[i - 1..][1..] == c[i..];
      }
      if x != NIL {
        assert NodeOk(c[i]);
      }
    }

    /** The value of a key; NULL when the key is not there. */
    method Find(k: K) returns (v: Ptr<V>)
      requires Valid()
      ensures v == if k in Entries() then Entries()[k] else Null
    {
      if size == 0 {
        v := Null;
      } else {
        var x, before := Search(hash(k) % size, k);
        v := if x == NIL then Null else value[x];
      }
    }

    // -------------------------------------------------------------- growing

    /**
     * Every node whose old bucket comes before old bucket i, or is i and which is no more
     * among the rest of it, is in its new bucket, and no other node is in any.
     */
    ghost predicate Moved(x: nat, oldSize: nat, i: nat, rest: seq<nat>)
      requires x < |key| && oldSize > 0 && size > 0 && |chains| == size
      reads this`chains, this`key, this`size
    {
      var done := Home(x, oldSize) < i || (Home(x, oldSize) == i && x !in rest);
      Home(x, size) < size && (x in chains[Home(x, size)] <==> done)
    }

    ghost predicate AllMoved(oldSize: nat, i: nat, rest: seq<nat>)
      requires oldSize > 0 && size > 0 && |chains| == size
      reads this`chains, this`key, this`size
    {
      forall x {:trigger Moved(x, oldSize, i, rest)} :: 0 <= x < |key| ==> Moved(x, oldSize, i, rest)
    }

    ghost predicate NewBuckets()
      reads this
    {
      && size > 0 && |table| == |chains| == size && |next| == |key|
      && (forall b {:trigger BucketOk(b)} :: 0 <= b < size ==> BucketOk(b))
    }

    /** The nodes of one old bucket that have not been moved yet. */
    ghost predicate OldBucket(c: seq<nat>, at: int, b: nat, oldSize: nat)
      requires oldSize > 0
      reads this`next, this`key
    {
      Chain(next, at, c) && Distinct(c) && forall i :: 0 <= i < |c| ==> c[i] < |key| && Home(c[i], oldSize) == b
    }

    /** Put a node at the head of its bucket. */
    method Reinsert(x: nat, ghost oldSize: nat, ghost i: nat, ghost rest: seq<nat>)
      requires NewBuckets() && x < |key| && oldSize > 0 && rest != [] && rest[0] == x && Home(x, oldSize) == i && Distinct(rest)
      requires AllMoved(oldSize, i, rest)
      modifies this`table, this`next, this`chains
      ensures NewBuckets() && |next| == old(|next|)
      ensures forall y :: 0 <= y < |next| && y != x ==> next[y] == old(next)[y]
      ensures AllMoved(oldSize, i, rest[1..])
    {
      var n := Home(x, size);
      hide Chain;
      assert BucketOk(n) && Moved(x, oldSize, i, rest);
      EmptyChain(next, table[n], chains[n]);
      ghost var was, wasNext, wasTable := chains, next, table;
      if table[n] == NIL {
        next := next[x := NIL];
        table := table[n := x];
      } else {
        next := next[x := table[n]];
        table := table[n := x];
      }
      chains := chains[n := [x] + chains[n]];
      assert wasTable[n] == NIL ==> was[n] == [];
      assert x !in was[n];
      forall b | 0 <= b < size ensures BucketOk(b) {
        assert old(BucketOk(b));
        if b == n {
          HeadAdded(b, wasNext, wasTable[b], was[b], x);
        } else {
          NotHome(b, was[b], x);
          OtherKept(b, wasNext, wasTable[b], was[b], x);
        }
      }
      forall y | 0 <= y < |key| ensures Moved(y, oldSize, i, rest[1..]) {
        assert old(Moved(y, oldSize, i, rest));
        InRest(rest, y);
      }
    }

    /** A node whose home is elsewhere is in no chain of this bucket. */
    lemma {:induction false} NotHome(b: nat, c: seq<nat>, x: nat)
      requires size > 0 && x < |key| && Home(x, size) != b
      requires forall i :: 0 <= i < |c| ==> c[i] < |key| && Home(c[i], size) == b
      ensures x !in c
    {
    }

    lemma {:induction false} HeadAdded(b: nat, was: seq<int>, at: int, c: seq<nat>, x: nat)
      requires b < |table| == |chains| && size > 0 && x < |key| && Home(x, size) == b && x < |was| == |next|
      requires Chain(was, at, c) && Distinct(c) && x !in c
      requires forall i :: 0 <= i < |c| ==> c[i] < |key| && Home(c[i], size) == b
      requires next == was[x := at] && table[b] == x && chains[b] == [x] + c
      ensures BucketOk(b)
    {
      ChainFrame(was, at, c, x, at);
      assert ([x] + c)[1..] == c;
    }

    lemma {:induction false} OtherKept(b: nat, was: seq<int>, at: int, c: seq<nat>, x: nat)
      requires b < |table| == |chains| && size > 0 && x < |was| == |next| && x !in c
      requires Chain(was, at, c) && Distinct(c)
      requires forall i :: 0 <= i < |c| ==> c[i] < |key| && Home(c[i], size) == b
      requires next == was[x := next[x]] && table[b] == at && chains[b] == c
      ensures BucketOk(b)
    {
      ChainFrame(was, at, c, x, next[x]);
    }

    /**
     * Move all nodes to a table of another size, if there can be such a table: for a negative
     * size there is no memory, and size 0 leaves nothing to divide by (the model stops there).
     */
    method Resize(newSize: int) returns (r: Outcome)
      requires Valid() && newSize < U32 && size > 0 && |key| > 0
      modifies this`size, this`table, this`next, this`chains
      ensures Valid() && Entries() == old(Entries())
      ensures r == if newSize > 0 then Done else if newSize < 0 then NoMemory else DividesByZero
      ensures if newSize > 0 then size == newSize else unchanged(this)
    {
      if newSize <= 0 {
        return if newSize < 0 then NoMemory else DividesByZero;
      }
      r := Done;
      hide Chain, Distinct, BucketOk, OldBucket, NodeOk, Moved;
      NodesAreHome();
      OldBuckets();
      ghost var oldChains := chains;
      var oldSize, old_ := size, table;
      Clear(newSize);
      MoveBuckets(old_, oldSize, oldChains);
      AllHome(oldSize, []);
    }

    /** An empty table; the nodes are still linked as they were. */
    method Clear(newSize: u32)
      requires newSize > 0 && size > 0 && |chains| == size && |next| == |key|
      requires forall x :: 0 <= x < |key| ==> x in chains[Home(x, size)]
      modifies this`size, this`table, this`chains
      ensures size == newSize && NewBuckets() && AllMoved(old(size), 0, At(old(chains), 0))
    {
      hide Chain, Distinct, BucketOk, Moved;
      ghost var oldSize, oldChains := size, chains;
      size := newSize;
      table := seq(newSize, _ => NIL);
      chains := seq(newSize, _ => []);
      NoneYet();
      StartMoving(oldSize, oldChains);
    }

    /** Move the nodes of all old buckets. */
    method MoveBuckets(heads: seq<int>, oldSize: nat, ghost oldChains: seq<seq<nat>>)
      requires NewBuckets() && 0 < oldSize == |oldChains| == |heads|
      requires forall b {:trigger oldChains[b]} :: 0 <= b < oldSize ==> OldBucket(oldChains[b], heads[b], b, oldSize)
      requires AllMoved(oldSize, 0, At(oldChains, 0))
      requires forall x :: 0 <= x < |key| ==> x in oldChains[Home(x, oldSize)]
      modifies this`table, this`next, this`chains
      ensures NewBuckets() && AllMoved(oldSize, oldSize, [])
    {
      hide Chain, Distinct, BucketOk, OldBucket, NodeOk, Moved;
      var i := 0;
      while i < oldSize
        invariant i <= oldSize && NewBuckets()
        invariant forall b {:trigger oldChains[b]} :: i <= b < oldSize ==> OldBucket(oldChains[b], heads[b], b, oldSize)
        invariant AllMoved(oldSize, i, At(oldChains, i))
      {
        MoveBucket(heads[i], oldSize, i, oldChains, heads);
        NextBucket(oldSize, i, oldChains);
        i := i + 1;
      }
    }

    lemma {:induction false} OldBuckets()
      requires Valid() && size > 0
      ensures forall b {:trigger chains[b]} :: 0 <= b < size ==> OldBucket(chains[b], table[b], b, size)
    {
      forall b | 0 <= b < size ensures OldBucket(chains[b], table[b], b, size) { assert BucketOk(b); }
    }

    lemma {:induction false} NodesAreHome()
      requires Valid() && size > 0
      ensures forall x :: 0 <= x < |key| ==> x in chains[Home(x, size)] && key[x] in node && node[key[x]] == x
    {
      forall x | 0 <= x < |key| ensures x in chains[Home(x, size)] && key[x] in node && node[key[x]] == x { assert NodeOk(x); }
    }

    lemma {:induction false} NoneYet()
      requires size > 0 && |chains| == |table| == size
      requires forall b :: 0 <= b < size ==> chains[b] == [] && table[b] == NIL
      ensures forall b {:trigger BucketOk(b)} :: 0 <= b < size ==> BucketOk(b)
    {
      forall b | 0 <= b < size ensures BucketOk(b) { }
    }

    /** Once all old buckets are done every node is in its bucket. */
    lemma {:induction false} AllHome(oldSize: nat, rest: seq<nat>)
      requires size > 0 && |chains| == size && oldSize > 0 && AllMoved(oldSize, oldSize, rest)
      requires forall x :: 0 <= x < |key| ==> key[x] in node && node[key[x]] == x
      ensures forall x {:trigger NodeOk(x)} :: 0 <= x < |key| ==> NodeOk(x)
    {
      forall x | 0 <= x < |key| ensures NodeOk(x) { assert Moved(x, oldSize, oldSize, rest); }
    }

    lemma {:induction false} StartMoving(oldSize: nat, oldChains: seq<seq<nat>>)
      requires size > 0 && |chains| == size && oldSize > 0 && |oldChains| == oldSize
      requires forall b :: 0 <= b < size ==> chains[b] == []
      requires forall x :: 0 <= x < |key| ==> x in oldChains[Home(x, oldSize)]
      ensures AllMoved(oldSize, 0, At(oldChains, 0))
    {
    }

    lemma {:induction false} NextBucket(oldSize: nat, i: nat, oldChains: seq<seq<nat>>)
      requires size > 0 && |chains| == size && i < oldSize == |oldChains|
      requires AllMoved(oldSize, i, [])
      requires forall x :: 0 <= x < |key| ==> x in oldChains[Home(x, oldSize)]
      ensures AllMoved(oldSize, i + 1, At(oldChains, i + 1))
    {
      var i', c := i + 1, At(oldChains, i + 1);
      forall y | 0 <= y < |key| ensures Moved(y, oldSize, i', c) {
        assert Moved(y, oldSize, i, []);
      }
    }

    /** Move the nodes of one old bucket. */
    method MoveBucket(head: int, oldSize: nat, i: nat, ghost oldChains: seq<seq<nat>>, ghost heads: seq<int>)
      requires NewBuckets() && i < oldSize == |oldChains| == |heads| && head == heads[i]
      requires forall b {:trigger oldChains[b]} :: i <= b < oldSize ==> OldBucket(oldChains[b], heads[b], b, oldSize)
      requires AllMoved(oldSize, i, oldChains[i])
      modifies this`table, this`next, this`chains
      ensures NewBuckets() && |next| == old(|next|)
      ensures forall b {:trigger oldChains[b]} :: i < b < oldSize ==> OldBucket(oldChains[b], heads[b], b, oldSize)
      ensures AllMoved(oldSize, i, [])
    {
      ghost var rest := oldChains[i];
      var x := head;
      while x != NIL
        invariant NewBuckets() && |next| == old(|next|) && OldBucket(rest, x, i, oldSize)
        invariant forall b {:trigger oldChains[b]} :: i < b < oldSize ==> OldBucket(oldChains[b], heads[b], b, oldSize)
        invariant AllMoved(oldSize, i, rest)
        decreases |rest|
      {
        var after := next[x];
        ghost var was := next;
        Reinsert(x, oldSize, i, rest);
        assert Distinct(rest) && x !in rest[1..];
        KeepBucket(was, rest[1..], after, i, oldSize, x);
        forall b | i < b < oldSize ensures OldBucket(oldChains[b], heads[b], b, oldSize) {
          ghost var c := oldChains[b];
          assert x !in c by { assert forall j :: 0 <= j < |c| ==> Home(c[j], oldSize) == b; }
          KeepBucket(was, c, heads[b], b, oldSize, x);
        }
        rest := rest[1..];
        x := after;
      }
      assert rest == [];
    }

    /** A bucket that a relinked node is not in stays as it is. */
    lemma {:induction false} KeepBucket(was: seq<int>, c: seq<nat>, at: int, b: nat, oldSize: nat, x: nat)
      requires oldSize > 0 && |was| == |next| && x < |next| && x !in c
      requires forall y :: 0 <= y < |next| && y != x ==> next[y] == was[y]
      requires Chain(was, at, c) && Distinct(c) && forall i :: 0 <= i < |c| ==> c[i] < |key| && Home(c[i], oldSize) == b
      ensures OldBucket(c, at, b, oldSize)
    {
      ChainFrame(was, at, c, x, next[x]);
      assert next == was[x := next[x]];
    }

    // -------------------------------------------------------------- adding

    /** How many entries there are for every hundred buckets, computed in 32 bits. */
    function Load(): nat
      requires size > 0
      reads this`count, this`size
    {
      count * 100 % U32 / size
    }

    /** Whether adding a key calls for a bigger table: its bucket is taken and the load is high. */
    ghost predicate Grows(k: K)
      requires Valid()
      reads this
    {
      size > 0 && chains[hash(k) % size] != [] && Load() >= load
    }

    /**
     * Short of 42949673 entries a table grows if and only if the new key's bucket is taken
     * and there are at least `load` entries for every hundred buckets.
     */
    lemma {:induction false} GrowsIff(k: K)
      requires Valid() && count * 100 < 0x1_0000_0000
      ensures Grows(k) <==> size > 0 && chains[hash(k) % size] != [] && count * 100 >= load * size
    {
      if size > 0 {
        var n, l: nat := count * 100, load;
        assert n % U32 == n;
        AtLeast(n, size, l);
      }
    }

    static lemma {:induction false} AtLeast(n: nat, d: nat, l: nat)
      requires d > 0
      ensures n / d >= l <==> n >= l * d
    {
      var q, r := n / d, n % d;
      assert n == d * q + r;
      if q >= l { assert d * q == d * l + d * (q - l); assert d * (q - l) >= 0; }
      else { assert d * l == d * q + d + d * (l - q - 1); assert d * (l - q - 1) >= 0; }
    }

    /** How many buckets there are once a key is added. */
    ghost function SizeWith(k: K): u32
      requires Valid() && (Grows(k) ==> NewSize(size, growth) > 0)
      reads this
    {
      if size == 0 then 1 else if Grows(k) then NewSize(size, growth) else size
    }

    /**
     * The node of a key, which is added with a NULL value if it is not there.  The table may
     * have to grow first; adding fails, and changes nothing, exactly when it cannot.
     */
    method AddEntry(k: K) returns (r: Outcome, x: nat)
      requires Valid()
      modifies this
      ensures Valid()
      ensures r == Done <==> (old(Grows(k)) ==> NewSize(old(size), growth) > 0)
      ensures r == DividesByZero <==> old(Grows(k)) && NewSize(old(size), growth) == 0
      ensures r != Done ==> unchanged(this)
      ensures r == Done ==>
                && k in node && x == node[k] && x < |value|
                && Entries() == (if k in old(Entries()) then old(Entries()) else old(Entries())[k := Null])
                && |Entries()| == (if k in old(Entries()) then |old(Entries())| else |old(Entries())| + 1)
                && count == |Entries()| % U32
                && size == old(SizeWith(k))
    {
      hide BucketOk, NodeOk, Chain, Distinct, EntriesOf, NewSize;
      r, x := Done, 0;
      EntriesCount();
      if size == 0 {
        FirstBucket();
      }
      var bucket := hash(k) % size;
      TakenBucket(bucket);
      if table[bucket] != NIL {
        if Load() >= load {
          r := Resize(NewSize(size, growth));
          if r != Done { return; }
        }
        bucket := hash(k) % size;
      }
      var at, before := Search(bucket, k);
      if at != NIL {
        x := at;
      } else {
        x := NewNode(k, bucket, before);
      }
      EntriesCount();
    }

    lemma {:induction false} TakenBucket(b: nat)
      requires Valid() && b < size
      ensures table[b] != NIL <==> chains[b] != []
      ensures chains[b] != [] ==> |key| > 0
    {
      assert BucketOk(b);
    }

    /** An empty dictionary gets its first bucket. */
    method FirstBucket()
      requires Valid() && size == 0
      modifies this`table, this`size, this`chains
      ensures Valid() && size == 1 && Entries() == old(Entries()) && chains[0] == []
    {
      table, size, chains := [NIL], 1, [[]];
    }

    lemma {:induction false} EntriesCount()
      requires Valid()
      ensures |Entries()| == |key| && count == |Entries()| % U32 && forall k :: k in Entries() <==> k in node
    {
      assert Entries().Keys == node.Keys;
    }

    /** Link a node that is in no bucket behind the last one of its bucket. */
    method Link(x: nat, b: nat, before: int)
      requires size > 0 && |table| == |chains| == size && |next| == |key| && x < |key| && b == Home(x, size) && next[x] == NIL
      requires before == if chains[b] == [] then NIL else chains[b][|chains[b]| - 1]
      requires forall c {:trigger BucketOk(c)} :: 0 <= c < size ==> BucketOk(c)
      requires forall c {:trigger chains[c]} :: 0 <= c < size ==> forall i :: 0 <= i < |chains[c]| ==> chains[c][i] < x
      modifies this`table, this`next, this`chains
      ensures |table| == size && |next| == |key| && chains == old(chains)[b := old(chains)[b] + [x]]
      ensures forall c {:trigger BucketOk(c)} :: 0 <= c < size ==> BucketOk(c)
    {
      hide Chain, Distinct;
      ghost var wasChains, wasNext, wasTable := chains, next, table;
      assert BucketOk(b);
      if before == NIL {
        table := table[b := x];
      } else {
        next := next[before := x];
      }
      chains := chains[b := chains[b] + [x]];
      forall c | 0 <= c < size ensures BucketOk(c) {
        assert old(BucketOk(c));
        if c == b {
          TailAdded(c, wasNext, wasTable[c], wasChains[c], x, before);
        } else if before != NIL {
          NotHome(c, wasChains[c], before);
          OtherKept(c, wasNext, wasTable[c], wasChains[c], before);
        }
      }
    }

    /** A new node behind the last one of its bucket. */
    method NewNode(k: K, b: nat, before: int) returns (x: nat)
      requires Valid() && size > 0 && b == hash(k) % size && k !in node
      requires before == if chains[b] == [] then NIL else chains[b][|chains[b]| - 1]
      modifies this`count, this`table, this`key, this`next, this`value, this`chains, this`node
      ensures Valid() && node == old(node)[k := x] && x < |value| && Entries() == old(Entries())[k := Null]
    {
      hide Chain, Distinct, EntriesOf;
      x := |key|;
      EntriesGain(node, value, k);
      ghost var wasNext, wasKey := next, key;
      BucketsBelow();
      key, value, next := key + [k], value + [Null], next + [NIL];
      forall c | 0 <= c < size ensures BucketOk(c) {
        assert old(BucketOk(c));
        forall j | 0 <= j < |chains[c]| ensures chains[c][j] < |wasKey| && key[chains[c][j]] == wasKey[chains[c][j]] { }
        ChainGrows(wasNext, table[c], chains[c], NIL);
      }
      Link(x, b, before);
      node := node[k := x];
      NextCount(x);
      count := (count + 1) % U32;
      forall y | 0 <= y < |key| ensures NodeOk(y) {
        if y < x { assert old(NodeOk(y)) && key[y] == wasKey[y]; }
      }
    }

    static lemma {:induction false} NextCount(n: nat)
      ensures (n % U32 + 1) % U32 == (n + 1) % U32
    {
    }

    lemma {:induction false} BucketsBelow()
      requires Valid()
      ensures forall c {:trigger chains[c]} :: 0 <= c < size ==> forall i :: 0 <= i < |chains[c]| ==> chains[c][i] < |key|
    {
      forall c | 0 <= c < size ensures forall i :: 0 <= i < |chains[c]| ==> chains[c][i] < |key| { assert BucketOk(c); }
    }

    lemma {:induction false} TailAdded(b: nat, was: seq<int>, at: int, c: seq<nat>, x: nat, before: int)
      requires b < |table| == |chains| && size > 0 && x < |key| && Home(x, size) == b && x < |was| == |next| && was[x] == NIL
      requires Chain(was, at, c) && Distinct(c) && forall i :: 0 <= i < |c| ==> c[i] < x
      requires forall i :: 0 <= i < |c| ==> c[i] < |key| && Home(c[i], size) == b
      requires before == if c == [] then NIL else c[|c| - 1]
      requires if before == NIL then next == was && table[b] == x else next == was[before := x] && table[b] == at
      requires chains[b] == c + [x]
      ensures BucketOk(b)
    {
      if c == [] {
        assert [x][1..] == [] && chains[b] == [x];
      } else {
        ChainAppend(was, at, c, x);
      }
    }

    /** A new node adds an entry. */
    lemma {:induction false} EntriesGain(node: map<K, nat>, value: seq<Ptr<V>>, k: K)
      requires k !in node && forall j :: j in node ==> node[j] < |value|
      ensures EntriesOf(node[k := |value|], value + [Null]) == EntriesOf(node, value)[k := Null]
    {
    }

    /** Store a value for a key, which fails exactly when adding it does. */
    method Put(k: K, v: V) returns (r: Outcome)
      requires Valid()
      modifies this
      ensures Valid()
      ensures r == Done <==> (old(Grows(k)) ==> NewSize(old(size), growth) > 0)
      ensures r != Done ==> unchanged(this)
      ensures r == Done ==> Entries() == old(Entries())[k := Ptr(v)] && count == |Entries()| % U32
      ensures r == Done ==> size == old(SizeWith(k)) && k in node
    {
      hide BucketOk, NodeOk, EntriesOf, NewSize;
      var x;
      r, x := AddEntry(k);
      if r == Done {
        Stores(k, v);
        value := value[x := Ptr(v)];
        EntriesCount();
      }
    }

    /** No other key has the node of a key. */
    lemma {:induction false} Stores(k: K, v: V)
      requires Valid() && k in node && node[k] < |value|
      ensures EntriesOf(node, value[node[k] := Ptr(v)]) == Entries()[k := Ptr(v)]
    {
      forall j | j in node && j != k ensures node[j] != node[k] { assert key[node[j]] == j; }
    }
  }

  lemma {:induction false} InRest(s: seq<nat>, y: nat)
    requires s != []
    ensures y in s <==> y == s[0] || y in s[1..]
  {
    assert s == [s[0]] + s[1..];
  }

  // ---------------------------------------------------------------- walking

  function Flat(chains: seq<seq<nat>>): seq<nat> {
    if chains == [] then [] else Flat(chains[..|chains| - 1]) + chains[|chains| - 1]
  }

  lemma {:induction false} FlatMembers(chains: seq<seq<nat>>, x: nat)
    ensures x in Flat(chains) <==> exists b :: 0 <= b < |chains| && x in chains[b]
  {
    if chains != [] {
      var r := chains[..|chains| - 1];
      FlatMembers(r, x);
      if exists b :: 0 <= b < |r| && x in r[b] {
        var b :| 0 <= b < |r| && x in r[b];
        assert chains[b] == r[b];
      }
    }
  }

  /** Visit the entries bucket by bucket until a visit is refused. */
  method Walk<K(==), V>(d: Dict<K, V>, accepts: (seq<nat>, nat) -> bool) returns (t: Tour<nat>)
    requires d.Valid()
    ensures t == Visit(accepts, [], Flat(d.chains))
  {
    t := Tour([], true);
    var i := 0;
    assert d.chains[..0] == [];
    while i < d.size && t.ok
      invariant i <= d.size && t.ok ==> t == Visit(accepts, [], Flat(d.chains[..i]))
      invariant i <= d.size
      invariant !t.ok ==> t == Visit(accepts, [], Flat(d.chains))
      decreases d.size - i, t.ok
    {
      assert d.BucketOk(i);
      ghost var c := d.chains[i];
      ghost var before := t.seen;
      assert d.chains[..i + 1][..i] == d.chains[..i];
      VisitSplits(accepts, [], Flat(d.chains[..i]), c);
      t := WalkBucket(d, i, accepts, before, t);
      if !t.ok { CutShort(accepts, d.chains, i + 1); }
      i := i + 1;
    }
    assert d.chains[..d.size] == d.chains;
  }

  lemma {:induction false} CutShort(accepts: (seq<nat>, nat) -> bool, chains: seq<seq<nat>>, i: nat)
    requires i <= |chains| && !Visit(accepts, [], Flat(chains[..i])).ok
    ensures Visit(accepts, [], Flat(chains)) == Visit(accepts, [], Flat(chains[..i]))
    decreases |chains| - i
  {
    if i == |chains| {
      assert chains[..i] == chains;
    } else {
      assert chains[..i + 1][..i] == chains[..i];
      VisitSplits(accepts, [], Flat(chains[..i]), chains[i]);
      CutShort(accepts, chains, i + 1);
    }
  }

  /** Visit the entries of one bucket. */
  method WalkBucket<K(==), V>(d: Dict<K, V>, b: nat, accepts: (seq<nat>, nat) -> bool, ghost before: seq<nat>,
          t0: Tour<nat>) returns (t: Tour<nat>)
    requires d.Valid() && b < d.size && t0 == Tour(before, true)
    ensures t == Visit(accepts, before, d.chains[b])
  {
    assert d.BucketOk(b);
    ghost var c := d.chains[b];
    var x := d.table[b];
    t := t0;
    while x != NIL && t.ok
      invariant t.ok ==> Chain(d.next, x, c) && Visit(accepts, t.seen, c) == Visit(accepts, before, d.chains[b])
      invariant !t.ok ==> t == Visit(accepts, before, d.chains[b])
      decreases |c|, t.ok
    {
      t := Tour(t.seen + [x], accepts(t.seen, x));
      x := d.next[x];
      if t.ok { c := c[1..]; }
    }
  }

  /** A walk that is not cut short visits every entry exactly once. */
  lemma {:induction false} WalkVisitsAll<K, V>(d: Dict<K, V>)
    requires d.Valid()
    ensures Distinct(Flat(d.chains))
    ensures forall x: nat :: x in Flat(d.chains) <==> x < |d.key|
  {
    FlatDistinct(d, d.size);
    assert d.chains[..d.size] == d.chains;
    forall x: nat ensures x in Flat(d.chains) <==> x < |d.key| {
      FlatMembers(d.chains, x);
      if x < |d.key| { assert d.NodeOk(x); }
      if x in Flat(d.chains) {
        var b :| 0 <= b < |d.chains| && x in d.chains[b];
        assert d.BucketOk(b);
      }
    }
  }

  lemma {:induction false} FlatDistinct<K, V>(d: Dict<K, V>, n: nat)
    requires d.Valid() && n <= d.size
    ensures Distinct(Flat(d.chains[..n]))
  {
    if n > 0 {
      FlatDistinct(d, n - 1);
      var r, c := d.chains[..n - 1], d.chains[n - 1];
      assert d.chains[..n][..n - 1] == r;
      assert d.BucketOk(n - 1);
      forall j | 0 <= j < |c| ensures c[j] !in Flat(r) {
        FlatMembers(r, c[j]);
        forall b | 0 <= b < |r| ensures c[j] !in r[b] { assert d.BucketOk(b) && r[b] == d.chains[b]; }
      }
      DistinctJoin(Flat(r), c);
    }
  }

  lemma {:induction false} DistinctJoin(a: seq<nat>, c: seq<nat>)
    requires Distinct(a) && Distinct(c) && forall j :: 0 <= j < |c| ==> c[j] !in a
    ensures Distinct(a + c)
  {
    forall i, j | 0 <= i < j < |a + c| ensures (a + c)[i] != (a + c)[j] {
      if i < |a| <= j { assert c[j - |a|] !in a; }
    }
  }

  // ---------------------------------------------------------------- sequences of operations

  function Stored<K, V>(ops: seq<(K, V)>): map<K, Ptr<V>> {
    if ops == [] then map[] else Stored(ops[..|ops| - 1])[ops[|ops| - 1].0 := Ptr(ops[|ops| - 1].1)]
  }

  /**
   * Stores one after the other, with any settings, up to the first that fails because the
   * table cannot grow: the dictionary is the map that the stores make.
   */
  method StoreAll<K(==), V>(hash: K -> nat, initialSize: u32, load: u32, growth: u32, ops: seq<(K, V)>)
    returns (d: Dict<K, V>, done: nat)
    ensures fresh(d) && d.Valid() && done <= |ops|
    ensures d.Entries() == Stored(ops[..done]) && d.count == |Stored(ops[..done])| % U32
    ensures done < |ops| ==> d.Grows(ops[done].0) && NewSize(d.size, growth) <= 0
  {
    d := new Dict<K, V>(hash, initialSize, load, growth);
    hide NewSize, Dict.Grows;
    done := 0;
    var ok := true;
    while done < |ops| && ok
      invariant done <= |ops| && fresh(d) && d.Valid() && d.Entries() == Stored(ops[..done]) && d.growth == growth
      invariant d.count == |Stored(ops[..done])| % U32
      invariant !ok ==> done < |ops| && d.Grows(ops[done].0) && NewSize(d.size, growth) <= 0
      decreases |ops| - done, ok
    {
      var r := d.Put(ops[done].0, ops[done].1);
      ok := r == Done;
      if ok {
        assert ops[..done + 1][..done] == ops[..done];
        done := done + 1;
      }
    }
  }

  /** A dictionary that is full from the start: the second add succeeds exactly if the table can grow. */
  method AddTwice<K(==), V>(hash: K -> nat, initialSize: u32, growth: u32, k: K, v: V) returns (r: Outcome)
    requires initialSize > 0
    ensures r == Done <==> NewSize(initialSize, growth) > 0
    ensures r == DividesByZero <==> NewSize(initialSize, growth) == 0
  {
    hide NewSize;
    var d := new Dict<K, V>(hash, initialSize, 0, growth);
    assert !d.Grows(k);
    r := d.Put(k, v);
    assert d.NodeOk(d.node[k]);
    var x;
    r, x := d.AddEntry(k);
  }
}
