/** The Bloom filter of a table: double hashing into a table of bits, stored as 64-bit words. */
module Bloom {
  import opened Bytes
  import opened Bits
  import Murmur

  const WORD_SIZE: nat := 64

  type HashKey = k: seq<byte> | |k| < Murmur.MAX_KEY

  /** h |= 1. */
  function MakeOdd(h: u32): (r: u32)
    ensures r == if h % 2 == 0 then h + 1 else h
  {
    OrOne(h);
    Or(h, 1)
  }

  /** The two hashes of a key; the second is made odd. */
  function Hashes(key: HashKey): (u32, u32)
  {
    (Murmur.Hash(key, 0), MakeOdd(Murmur.Hash(key, 1)))
  }

  method GetHashes(key: HashKey) returns (h1: u32, h2: u32)
    ensures (h1, h2) == Hashes(key) && h2 % 2 == 1
  {
    hide MakeOdd, Murmur.Hash;
    h1 := Murmur.MurmurHash3_x86_32(key, 0);
    h2 := Murmur.MurmurHash3_x86_32(key, 1);
    h2 := MakeOdd(h2);
  }

  /** Before the second hash is made odd, the two hashes of a key differ. */
  lemma TwoSeedsDiffer(key: HashKey)
    ensures Murmur.Hash(key, 0) != Murmur.Hash(key, 1)
  {
    hide Murmur.Hash, Murmur.Unhash;
    var zero: u32, one: u32 := 0, 1;
    Murmur.HashIsBijectiveInSeed(key, zero);
    Murmur.HashIsBijectiveInSeed(key, one);
  }

  /** The seeds can be read off the two hashes of any key: they are 0, and 1 up to the bit that makes the second odd. */
  lemma SeedsRecovered(key: HashKey)
    ensures var (h1, h2) := Hashes(key);
            && Murmur.Unhash(key, h1) == 0
            && (Murmur.Unhash(key, h2) == 1 || (h2 % 2 == 1 && Murmur.Unhash(key, h2 - 1) == 1))
  {
    hide Murmur.Hash, Murmur.Unhash;
    var zero: u32, one: u32 := 0, 1;
    Murmur.HashIsBijectiveInSeed(key, zero);
    Murmur.HashIsBijectiveInSeed(key, one);
  }

  // ---------- probes ----------

  /** The bit that probe `i` looks at, in 64-bit arithmetic with the final cast to 32 bits. */
  function Probe(h1: u32, h2: u32, i: nat, tableSize: u64): u32
    requires tableSize > 0
  {
    And((h1 + i * h2) % LIMIT64, tableSize - 1) % LIMIT32
  }

  /** For every table size, a power of two or not, a probe stays inside the table. */
  lemma ProbeBelow(h1: u32, h2: u32, i: nat, tableSize: u64)
    requires tableSize > 0
    ensures Probe(h1, h2, i, tableSize) < tableSize
  {
    hide And;
    var hash := And((h1 + i * h2) % LIMIT64, tableSize - 1);
    AndBelow((h1 + i * h2) % LIMIT64, tableSize - 1);
    CastBelow(hash);
  }

  lemma CastBelow(n: nat)
    ensures n % LIMIT32 <= n
  {
  }

  /** Bits 0 to `tableSize` - 1 lie in whole 64-bit words. */
  predicate WholeWords(tableSize: u64) {
    tableSize > 0 && tableSize % WORD_SIZE == 0
  }

  lemma WordOf(b: nat, tableSize: u64)
    requires WholeWords(tableSize) && b < tableSize
    ensures b / WORD_SIZE < tableSize / WORD_SIZE
  {
  }

  /** How many of the low bits of the hash select the bit of the table. */
  function Selected(log: nat): nat {
    if log < 32 then log else 32
  }

  lemma ModSplits(x: nat, d: nat, e: nat)
    requires d > 0 && e > 0
    ensures x % (d * e) % d == x % d
  {
    var q, r := x / (d * e), x % (d * e);
    DivMod(x, d * e);
    DivMod(r, d);
    ModBelow(r, d);
    Regroup3(q, d, e);
    assert x == (q * e + r / d) * d + r % d by { Regroup(q * e, r / d, 0, d); }
    DivUnique(x, d, q * e + r / d, r % d);
  }

  lemma Regroup3(q: nat, d: nat, e: nat)
    ensures q * (d * e) == q * e * d
  {
  }

  /** Neither the 64-bit wrap-around nor the mask nor the cast changes which residue is probed. */
  lemma ProbeIsResidue(h1: u32, h2: u32, i: nat, log: nat)
    requires log <= 63
    ensures Pow2(log) < LIMIT64
    ensures Probe(h1, h2, i, Pow2(log)) == (h1 + i * h2) % Pow2(Selected(log))
  {
    hide And, Pow2;
    var x, s := h1 + i * h2, Selected(log);
    Pow2Splits(log, 64 - log);
    WordPow2();
    TableFits(log);
    MaskIsRemainder(x % LIMIT64, log);
    ModSplits(x, Pow2(log), Pow2(64 - log));
    if log >= 32 {
      Pow2Splits(32, log - 32);
      ModSplits(x, LIMIT32, Pow2(log - 32));
    } else {
      Pow2Splits(log, 32 - log);
      BelowWord(x % Pow2(log), Pow2(log), Pow2(32 - log));
    }
  }

  lemma BelowWord(r: nat, p: nat, q: nat)
    requires r < p && p * q == LIMIT32
    ensures r % LIMIT32 == r
  {
    assert q != 0;
    assert p * (q - 1) >= 0;
  }

  lemma WordPow2()
    ensures Pow2(6) == 64 && Pow2(32) == LIMIT32 && Pow2(64) == LIMIT64
  {
    Murmur.WordPow2();
    Pow2Splits(32, 32);
  }

  lemma TableFits(log: nat)
    requires log <= 63
    ensures Pow2(log) < LIMIT64
  {
    hide Pow2;
    Pow2Splits(log, 63 - log);
    Pow2Splits(1, 63);
    assert Pow2(1) == 2 by { Pow2One(); }
    WordPow2();
    assert Pow2(log) * (Pow2(63 - log) - 1) >= 0;
  }

  lemma Pow2One()
    ensures Pow2(1) == 2
  {
  }

  /** An odd factor cannot supply a factor of two. */
  lemma {:induction false} OddCancels(d: nat, h: nat, s: nat)
    requires h % 2 == 1 && d * h % Pow2(s) == 0
    ensures d % Pow2(s) == 0
  {
    if s > 0 {
      var p := Pow2(s - 1);
      assert Pow2(s) == 2 * p;
      EvenPart(d, h, p);
      OddCancels(d / 2, h, s - 1);
      HalfThen(d, p);
    }
  }

  lemma EvenPart(d: nat, h: nat, p: nat)
    requires h % 2 == 1 && p > 0 && d * h % (2 * p) == 0
    ensures d % 2 == 0 && d / 2 * h % p == 0
  {
    var q := d * h / (2 * p);
    DivMod(d * h, 2 * p);
    Doubled(q, p);
    SplitProduct(d, h);
    Halve(q * p, d / 2 * h, d % 2, h);
    DivUnique(d / 2 * h, p, q, 0);
  }

  lemma SplitProduct(d: nat, h: nat)
    ensures d * h == 2 * (d / 2 * h) + (if d % 2 == 0 then 0 else h)
  {
    var e := d / 2;
    assert d == 2 * e + d % 2;
    Doubled(h, e);
    if d % 2 == 1 { assert (2 * e + 1) * h == 2 * e * h + h; }
  }

  lemma Halve(y: nat, x: nat, bit: nat, h: nat)
    requires 2 * y == 2 * x + (if bit == 0 then 0 else h) && h % 2 == 1
    ensures bit == 0 && y == x
  {
  }

  /** Two residues agree exactly when their difference vanishes. */
  lemma SameResidue(x: nat, d: nat, m: nat)
    requires m > 0
    ensures x % m == (x + d) % m <==> d % m == 0
  {
    DivMod(x, m);
    DivMod(d, m);
    ModBelow(x, m);
    ModBelow(d, m);
    Residues(x / m, x % m, d / m, d % m, m);
  }

  lemma Residues(a: nat, b: nat, q: nat, r: nat, m: nat)
    requires b < m && r < m
    ensures (a * m + b + (q * m + r)) % m == b <==> r == 0
  {
    var sum := a * m + b + (q * m + r);
    if b + r < m {
      Regroup(a, q, 0, m);
      DivUnique(sum, m, a + q, b + r);
    } else {
      Regroup(a, q, 1, m);
      DivUnique(sum, m, a + q + 1, b + r - m);
    }
  }

  lemma Regroup(a: nat, q: nat, c: nat, m: nat)
    ensures (a + q + c) * m == a * m + q * m + c * m
  {
  }

  /** Two probes of a key hit the same bit exactly when their numbers agree modulo the bits the cast leaves;
      in particular probes with numbers below the table size and 2^32 are pairwise distinct. */
  lemma ProbesDistinct(h1: u32, h2: u32, i: nat, j: nat, log: nat)
    requires h2 % 2 == 1 && i <= j && log <= 63
    ensures Pow2(log) < LIMIT64
    ensures Probe(h1, h2, i, Pow2(log)) == Probe(h1, h2, j, Pow2(log)) <==> (j - i) % Pow2(Selected(log)) == 0
  {
    hide Probe, Pow2, Selected;
    var d, m := j - i, Pow2(Selected(log));
    ProbeIsResidue(h1, h2, i, log);
    ProbeIsResidue(h1, h2, j, log);
    assert h1 + j * h2 == h1 + i * h2 + d * h2 by { assert j * h2 == i * h2 + d * h2; }
    SameResidue(h1 + i * h2, d * h2, m);
    if d * h2 % m == 0 {
      OddCancels(d, h2, Selected(log));
    } else if d % m == 0 {
      assert d * h2 == d / m * h2 * m;
      DivUnique(d * h2, m, d / m * h2, 0);
    }
  }

  // ---------- the table of bits ----------

  ghost predicate IsSet(words: seq<u64>, b: nat) {
    b / WORD_SIZE < |words| && Bit(words[b / WORD_SIZE], b % WORD_SIZE)
  }

  /** Bit `b` is one of the `n` probes of `key`. */
  ghost predicate Hit(key: HashKey, n: nat, tableSize: u64, b: nat)
    requires tableSize > 0
  {
    exists i :: 0 <= i < n && Probe(Hashes(key).0, Hashes(key).1, i, tableSize) == b
  }

  /** The bits that are set are exactly the probes of the keys. */
  ghost predicate Built(words: seq<u64>, n: nat, tableSize: u64, keys: set<HashKey>)
    requires tableSize > 0
  {
    forall b: nat :: IsSet(words, b) <==> exists k :: k in keys && Hit(k, n, tableSize, b)
  }

  /** All probes of the hash pair are set. */
  ghost predicate Passes(words: seq<u64>, n: nat, tableSize: u64, h1: u32, h2: u32)
    requires tableSize > 0
  {
    forall i :: 0 <= i < n ==> IsSet(words, Probe(h1, h2, i, tableSize))
  }

  /** No false negatives: an added key passes, whatever else was added before or after. */
  lemma AddedKeysPass(words: seq<u64>, n: nat, tableSize: u64, keys: set<HashKey>, k: HashKey)
    requires tableSize > 0 && Built(words, n, tableSize, keys) && k in keys
    ensures Passes(words, n, tableSize, Hashes(k).0, Hashes(k).1)
  {
    hide Probe, Hashes, IsSet;
    forall i | 0 <= i < n ensures IsSet(words, Probe(Hashes(k).0, Hashes(k).1, i, tableSize)) {
      assert Hit(k, n, tableSize, Probe(Hashes(k).0, Hashes(k).1, i, tableSize));
    }
  }

  /** The table is a function of the set of added keys: neither order nor repetition matters. */
  lemma TableDependsOnKeys(v: seq<u64>, w: seq<u64>, n: nat, tableSize: u64, keys: set<HashKey>)
    requires tableSize > 0 && |v| == |w| && Built(v, n, tableSize, keys) && Built(w, n, tableSize, keys)
    ensures v == w
  {
    hide Hit;
    forall x | 0 <= x < |v| ensures v[x] == w[x] {
      forall i: nat ensures Bit(v[x], i) <==> Bit(w[x], i) {
        if i < WORD_SIZE {
          assert IsSet(v, x * WORD_SIZE + i) <==> IsSet(w, x * WORD_SIZE + i);
        } else {
          WordPow2();
          HighBitsClear(v[x], WORD_SIZE, i);
          HighBitsClear(w[x], WORD_SIZE, i);
        }
      }
      BitsDetermine(v[x], w[x]);
    }
  }

  /** The cast to 32 bits: of a table larger than 2^32 bits, as the deepest levels have, the upper part stays empty. */
  lemma UpperPartUnused(words: seq<u64>, n: nat, tableSize: u64, keys: set<HashKey>, b: nat)
    requires tableSize > 0 && Built(words, n, tableSize, keys) && LIMIT32 <= b
    ensures !IsSet(words, b)
  {
    hide Probe, Hashes, IsSet;
  }

  lemma {:induction false} HighBitsClear(a: nat, k: nat, i: nat)
    requires a < Pow2(k) && k <= i
    ensures !Bit(a, i)
  {
    if k == 0 { BitOfZero(i); } else { HighBitsClear(a / 2, k - 1, i - 1); }
  }

  lemma {:induction false} BitsDetermine(a: nat, b: nat)
    requires forall i: nat :: Bit(a, i) <==> Bit(b, i)
    ensures a == b
    decreases a + b
  {
    if a > 0 || b > 0 {
      assert Bit(a, 0) <==> Bit(b, 0);
      forall i: nat ensures Bit(a / 2, i) <==> Bit(b / 2, i) {
        assert Bit(a, i + 1) <==> Bit(b, i + 1);
      }
      BitsDetermine(a / 2, b / 2);
    }
  }

  // ---------- the filter ----------

  class BloomFilter {
    const tableSize: u64
    const numHashes: nat
    var hashTable: seq<u64>
    ghost var added: set<HashKey>

    /** The sizes the filter works with: whole words, at least one. */
    ghost predicate Shaped()
      reads this
    {
      WholeWords(tableSize) && |hashTable| == tableSize / WORD_SIZE
    }

    ghost predicate Valid()
      reads this
    {
      Shaped() && Built(hashTable, numHashes, tableSize, added)
    }

    constructor (size: u64, numHashes: nat)
      ensures tableSize == size && this.numHashes == numHashes && added == {}
      ensures |hashTable| == size / WORD_SIZE && forall b: nat :: !IsSet(hashTable, b)
      ensures Valid() <==> WholeWords(size)
    {
      tableSize, this.numHashes := size, numHashes;
      hashTable, added := seq(size / WORD_SIZE, _ => 0), {};
      new;
      forall b: nat ensures !IsSet(hashTable, b) { BitOfZero(b % WORD_SIZE); }
    }

    method Set(i: u64)
      requires i / WORD_SIZE < |hashTable|
      modifies this`hashTable
      ensures |hashTable| == |old(hashTable)|
      ensures forall b: nat :: IsSet(hashTable, b) <==> IsSet(old(hashTable), b) || b == i
    {
      hide Or, Pow2;
      var w := i / WORD_SIZE;
      var mask := Pow2(i % WORD_SIZE);
      MaskFits(i % WORD_SIZE);
      WordPow2();
      OrBounded(hashTable[w], mask, 64);
      hashTable := hashTable[w := Or(hashTable[w], mask)];
      forall b: nat ensures IsSet(hashTable, b) <==> IsSet(old(hashTable), b) || b == i {
        BitOfOr(old(hashTable)[w], mask, b % WORD_SIZE);
        BitOfPow2(i % WORD_SIZE, b % WORD_SIZE);
      }
    }

    method Get(i: u64) returns (r: bool)
      requires i / WORD_SIZE < |hashTable|
      ensures r <==> IsSet(hashTable, i)
    {
      var mask := Pow2(i % WORD_SIZE);
      AndPow2TestsBit(hashTable[i / WORD_SIZE], i % WORD_SIZE);
      r := And(hashTable[i / WORD_SIZE], mask) != 0;
    }

    method Add(key: HashKey)
      requires Valid()
      modifies this`hashTable, this`added
      ensures Valid() && added == old(added) + {key}
    {
      hide Probe, Hashes, IsSet;
      var h1, h2 := GetHashes(key);
      var i := 0;
      while i < numHashes
        invariant i <= numHashes && Shaped() && added == old(added)
        invariant forall b: nat :: IsSet(hashTable, b) <==> IsSet(old(hashTable), b) || Hit(key, i, tableSize, b)
      {
        ProbeInTable(h1, h2, i);
        Set(Probe(h1, h2, i, tableSize));
        forall b: nat
          ensures Hit(key, i + 1, tableSize, b) <==> Hit(key, i, tableSize, b) || b == Probe(h1, h2, i, tableSize)
        {
          OneMoreProbe(key, i, b);
        }
        i := i + 1;
      }
      added := added + {key};
      BuiltWith(old(hashTable), hashTable, numHashes, tableSize, old(added), key);
    }

    lemma OneMoreProbe(key: HashKey, i: nat, b: nat)
      requires tableSize > 0
      ensures Hit(key, i + 1, tableSize, b) <==>
              Hit(key, i, tableSize, b) || b == Probe(Hashes(key).0, Hashes(key).1, i, tableSize)
    {
      hide Probe, Hashes;
    }

    lemma ProbeInTable(h1: u32, h2: u32, i: nat)
      requires Shaped()
      ensures Probe(h1, h2, i, tableSize) / WORD_SIZE < |hashTable|
    {
      hide Probe;
      ProbeBelow(h1, h2, i, tableSize);
      WordOf(Probe(h1, h2, i, tableSize), tableSize);
    }

    method Contains(h1: u32, h2: u32) returns (r: bool)
      requires Shaped()
      ensures r <==> Passes(hashTable, numHashes, tableSize, h1, h2)
    {
      hide Probe, IsSet;
      var i := 0;
      while i < numHashes
        invariant i <= numHashes
        invariant Passes(hashTable, i, tableSize, h1, h2)
      {
        ProbeInTable(h1, h2, i);
        var b := Get(Probe(h1, h2, i, tableSize));
        if !b { return false; }
        i := i + 1;
      }
      return true;
    }
  }

  lemma MaskFits(i: nat)
    requires i < WORD_SIZE
    ensures Pow2(i) < LIMIT64
  {
    TableFits(i);
  }

  lemma BuiltWith(before: seq<u64>, after: seq<u64>, n: nat, tableSize: u64, keys: set<HashKey>, key: HashKey)
    requires tableSize > 0 && Built(before, n, tableSize, keys)
    requires forall b: nat :: IsSet(after, b) <==> IsSet(before, b) || Hit(key, n, tableSize, b)
    ensures Built(after, n, tableSize, keys + {key})
  {
    hide IsSet, Hit;
    forall b: nat
      ensures IsSet(after, b) <==> exists k :: k in keys + {key} && Hit(k, n, tableSize, b)
    {
      if Hit(key, n, tableSize, b) { assert key in keys + {key}; }
      if k :| k in keys && Hit(k, n, tableSize, b) { assert k in keys + {key}; }
    }
  }
}
