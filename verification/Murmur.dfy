/** MurmurHash3_x86_32: the loop, the function it computes, and where that function cannot collide. */
module Murmur {
  import opened Bytes
  import opened Bits

  const MAX_KEY: nat := 0x8000_0000

  // ---------- the steps on one 32-bit word, each with its inverse ----------

  /** x * c on 32 bits. */
  function Times(x: u32, c: u32): u32 {
    x * c % LIMIT32
  }

  lemma TimesUndone(x: u32, c: u32, d: u32, q: nat)
    requires c * d == 1 + q * LIMIT32
    ensures Times(Times(x, c), d) == x
  {
    var t := x * c / LIMIT32;
    assert x * c == t * LIMIT32 + Times(x, c);
    Distribute(x, c, d, q, t);
    Wraps(Times(x, c) * d, x, x * q - t * d);
  }

  lemma Distribute(x: int, c: int, d: int, q: int, t: int)
    requires c * d == 1 + q * LIMIT32
    ensures (x * c - t * LIMIT32) * d == (x * q - t * d) * LIMIT32 + x
  {
    assert x * c * d == x * (c * d);
    assert x * (q * LIMIT32) == x * q * LIMIT32;
  }

  /** A value off by a multiple of 2^32 is the same word. */
  lemma Wraps(y: int, x: u32, m: int)
    requires y == m * LIMIT32 + x
    ensures y % LIMIT32 == x
  {
  }

  lemma WordPow2()
    ensures Pow2(8) == 256 && Pow2(16) == 0x1_0000 && Pow2(32) == LIMIT32
  {
    assert Pow2(4) == 16;
    Pow2Splits(4, 4);
    Pow2Splits(8, 8);
    Pow2Splits(16, 16);
  }

  /** ROTL32. */
  function Rotl32(x: u32, r: nat): u32
    requires r <= 32
  {
    RotlBounded(x, r);
    Or(x * Pow2(r) % LIMIT32, Shr(x, 32 - r))
  }

  lemma RotlBounded(x: u32, r: nat)
    requires r <= 32
    ensures Or(x * Pow2(r) % LIMIT32, Shr(x, 32 - r)) < LIMIT32
  {
    WordPow2();
    ShrBounded(x, 32 - r);
    OrBounded(x * Pow2(r) % LIMIT32, Shr(x, 32 - r), 32);
  }

  /** Rotating by `r` swaps the upper `r` bits with the others. */
  lemma RotlSwaps(x: u32, r: nat, hi: nat, lo: nat)
    requires r <= 32 && hi < Pow2(r) && lo < Pow2(32 - r) && x == hi * Pow2(32 - r) + lo
    ensures Rotl32(x, r) == lo * Pow2(r) + hi
  {
    hide Pow2, Or, Shr;
    Pow2Splits(r, 32 - r);
    WordPow2();
    LeftPart(x, hi, lo, Pow2(r), Pow2(32 - r));
    ShrDivides(x, 32 - r);
    DivUnique(x, Pow2(32 - r), hi, lo);
    DisjointBitsAdd(lo, hi, r);
  }

  lemma LeftPart(x: u32, hi: nat, lo: nat, p: nat, q: nat)
    requires lo < q && p * q == LIMIT32 && x == hi * q + lo
    ensures x * p % LIMIT32 == lo * p
  {
    assert (lo + 1) * p <= q * p;
    assert hi * q * p == hi * (p * q);
    assert p != 0;
    Wraps(x * p, lo * p, hi);
  }

  lemma RotlUndone(x: u32, r: nat)
    requires r <= 32
    ensures Rotl32(Rotl32(x, r), 32 - r) == x
  {
    hide Rotl32, Pow2;
    Pow2Splits(r, 32 - r);
    WordPow2();
    var hi, lo := UpperPart(x, Pow2(r), Pow2(32 - r));
    RotlBack(x, r, hi, lo);
  }

  lemma RotlBack(x: u32, r: nat, hi: nat, lo: nat)
    requires r <= 32 && hi < Pow2(r) && lo < Pow2(32 - r) && x == hi * Pow2(32 - r) + lo
    ensures Rotl32(Rotl32(x, r), 32 - r) == x
  {
    hide Rotl32, Pow2;
    RotlSwaps(x, r, hi, lo);
    assert 32 - (32 - r) == r;
    RotlSwaps(Rotl32(x, r), 32 - r, lo, hi);
  }

  lemma UpperPart(x: u32, p: nat, q: nat) returns (hi: nat, lo: nat)
    requires q > 0 && p * q == LIMIT32
    ensures hi < p && lo < q && x == hi * q + lo
  {
    DivMod(x, q);
    ModBelow(x, q);
    hi, lo := x / q, x % q;
    LessFactor(hi, p, q);
  }

  lemma LessFactor(a: nat, p: nat, q: nat)
    requires a * q < p * q
    ensures a < p
  {
    if p <= a { MulOrder(p, a, q); }
  }

  lemma MulOrder(p: nat, a: nat, q: nat)
    requires p <= a
    ensures p * q <= a * q
  {
    assert (a - p) * q >= 0;
  }

  function Affine(h: u32): u32 {
    (h * 5 + 0xe6546b64) % LIMIT32
  }

  function Unaffine(h: u32): u32 {
    Times((h + LIMIT32 - 0xe6546b64) % LIMIT32, 0xcccccccd)
  }

  lemma AffineUndone(h: u32)
    ensures Unaffine(Affine(h)) == h
  {
    TimesUndone(h, 5, 0xcccccccd, 4);
    AddUndone(h * 5);
  }

  lemma AddUndone(y: nat)
    ensures ((y + 0xe6546b64) % LIMIT32 + LIMIT32 - 0xe6546b64) % LIMIT32 == y % LIMIT32
  {
    var k, q := y / LIMIT32, (y + 0xe6546b64) / LIMIT32;
    assert y == k * LIMIT32 + y % LIMIT32;
    assert y + 0xe6546b64 == q * LIMIT32 + (y + 0xe6546b64) % LIMIT32;
    Wraps((y + 0xe6546b64) % LIMIT32 + LIMIT32 - 0xe6546b64, y % LIMIT32, k - q + 1);
  }

  lemma AffineRedone(h: u32)
    ensures Affine(Unaffine(h)) == h
  {
    var x := (h + LIMIT32 - 0xe6546b64) % LIMIT32;
    TimesUndone(x, 0xcccccccd, 5, 4);
    SubUndone(h, Unaffine(h) * 5);
  }

  lemma SubUndone(h: u32, y: nat)
    requires y % LIMIT32 == (h + LIMIT32 - 0xe6546b64) % LIMIT32
    ensures (y + 0xe6546b64) % LIMIT32 == h
  {
    var z := h + LIMIT32 - 0xe6546b64;
    var a, b := y / LIMIT32, z / LIMIT32;
    assert y == a * LIMIT32 + y % LIMIT32;
    assert z == b * LIMIT32 + z % LIMIT32;
    Wraps(y + 0xe6546b64, h, a - b + 1);
  }

  // ---------- exclusive or on words ----------

  function XorWord(a: u32, b: u32): u32 {
    WordPow2();
    XorBounded(a, b, 32);
    Xor(a, b)
  }

  function ShrWord(a: u32, s: nat): u32 {
    ShrBounded(a, s);
    Shr(a, s)
  }

  /** h ^= h >> s. */
  function XorShift(h: u32, s: nat): u32 {
    XorWord(h, ShrWord(h, s))
  }

  function Unshift13(h: u32): u32 {
    XorWord(XorShift(h, 13), ShrWord(h, 26))
  }

  /** Shifting by `s` twice over leaves the word and its shift by 2s. */
  lemma XorShiftTwice(h: u32, s: nat)
    ensures XorShift(XorShift(h, s), s) == Xor(h, Shr(h, s + s))
  {
    hide Xor, Shr;
    var a, b := Shr(h, s), Shr(h, s + s);
    XorShifted(h, a, s);
    ShrTwice(h, s, s);
    XorAssociates(h, a, Xor(a, b));
    XorAssociates(a, a, b);
    XorSelf(a);
    XorCommutes(0, b);
    XorSelf(b);
  }

  lemma XorShift16Undone(h: u32)
    ensures XorShift(XorShift(h, 16), 16) == h
  {
    XorShiftTwice(h, 16);
    WordPow2();
    ShrSmall(h, 32);
    XorSelf(h);
  }

  /** Bits 26 to 31 of a word survive its XorShift by 13 only together with those of the shifted word. */
  lemma TopBits(h: u32)
    ensures Shr(Xor(h, Shr(h, 13)), 26) == Shr(h, 26)
  {
    hide Xor, Shr;
    XorShifted(h, Shr(h, 13), 26);
    ShrTwice(h, 13, 26);
    VanishedBits(h);
    XorSelf(Shr(h, 26));
  }

  lemma VanishedBits(h: u32)
    ensures Shr(h, 39) == 0
  {
    hide Shr;
    WordPow2();
    ShrSmall(h, 32);
    ShrTwice(h, 32, 7);
    ShrSmall(0, 7);
  }

  lemma Unshift13Undoes(h: u32)
    ensures Unshift13(XorShift(h, 13)) == h && XorShift(Unshift13(h), 13) == h
  {
    hide Xor, Shr;
    var y, b := XorShift(h, 13), Shr(h, 26);
    XorShiftTwice(h, 13);
    TopBits(h);
    XorUndone(h, b);
    XorShifted(y, b, 13);
    ShrTwice(h, 26, 13);
    VanishedBits(h);
    XorSelf(Shr(y, 13));
    XorAssociates(y, b, Shr(y, 13));
    XorCommutes(b, Shr(y, 13));
    XorAssociates(y, Shr(y, 13), b);
  }

  /** Finalization: every bit of the result depends on every bit of the argument. */
  function Fmix32(h: u32): u32 {
    XorShift(Times(XorShift(Times(XorShift(h, 16), 0x85ebca6b), 13), 0xc2b2ae35), 16)
  }

  function Unfmix32(h: u32): u32 {
    XorShift(Times(Unshift13(Times(XorShift(h, 16), 0x7ed1b41d)), 0xa5cb9243), 16)
  }

  lemma FmixIsBijective(h: u32)
    ensures Unfmix32(Fmix32(h)) == h && Fmix32(Unfmix32(h)) == h
  {
    hide XorShift, Unshift13, Times;
    var a := XorShift(h, 16);
    XorShift16Undone(h);
    var b := Times(a, 0x85ebca6b);
    F1Undone(a);
    Unshift13Undoes(b);
    var c := XorShift(b, 13);
    F2Undone(c);
    XorShift16Undone(Times(c, 0xc2b2ae35));
    var p := Times(a, 0x7ed1b41d);
    F2Undone(a);
    Unshift13Undoes(p);
    F1Undone(Unshift13(p));
    XorShift16Undone(Times(Unshift13(p), 0xa5cb9243));
  }

  lemma F1Undone(h: u32)
    ensures Times(Times(h, 0x85ebca6b), 0xa5cb9243) == h && Times(Times(h, 0xa5cb9243), 0x85ebca6b) == h
  {
    TimesUndone(h, 0x85ebca6b, 0xa5cb9243, 1455126516);
    TimesUndone(h, 0xa5cb9243, 0x85ebca6b, 1455126516);
  }

  lemma F2Undone(h: u32)
    ensures Times(Times(h, 0xc2b2ae35), 0x7ed1b41d) == h && Times(Times(h, 0x7ed1b41d), 0xc2b2ae35) == h
  {
    TimesUndone(h, 0xc2b2ae35, 0x7ed1b41d, 1618177690);
    TimesUndone(h, 0x7ed1b41d, 0xc2b2ae35, 1618177690);
  }

  // ---------- the hash ----------

  /** The mixing of one block before it enters the state. */
  function MixKey(k: u32): u32 {
    Times(Rotl32(Times(k, 0xcc9e2d51), 15), 0x1b873593)
  }

  lemma MixKeyIsInjective(j: u32, k: u32)
    requires MixKey(j) == MixKey(k)
    ensures j == k
  {
    hide Times, Rotl32;
    forall w ensures Times(Rotl32(Times(MixKey(w), 0x56ed309b), 17), 0xdee13bb1) == w {
      TimesUndone(Rotl32(Times(w, 0xcc9e2d51), 15), 0x1b873593, 0x56ed309b, 156822886);
      RotlUndone(Times(w, 0xcc9e2d51), 15);
      TimesUndone(w, 0xcc9e2d51, 0xdee13bb1, 2988782088);
    }
  }

  function Round(h: u32, k: u32): u32 {
    Affine(Rotl32(XorWord(h, MixKey(k)), 13))
  }

  /** The state before a round, from the state after it. */
  function Unround(h: u32, k: u32): u32 {
    XorWord(Rotl32(Unaffine(h), 19), MixKey(k))
  }

  lemma RoundIsBijective(h: u32, k: u32)
    ensures Unround(Round(h, k), k) == h && Round(Unround(h, k), k) == h
  {
    hide Affine, Unaffine, Rotl32, Xor, MixKey;
    var m := MixKey(k);
    AffineUndone(Rotl32(XorWord(h, m), 13));
    RotlUndone(XorWord(h, m), 13);
    XorUndone(h, m);
    var g := Rotl32(Unaffine(h), 19);
    XorUndone(g, m);
    RotlUndone(Unaffine(h), 19);
    AffineRedone(h);
  }

  lemma RoundSeparatesBlocks(h: u32, j: u32, k: u32)
    requires Round(h, j) == Round(h, k)
    ensures j == k
  {
    hide Affine, Unaffine, Rotl32, Xor, MixKey;
    var x, y := XorWord(h, MixKey(j)), XorWord(h, MixKey(k));
    AffineUndone(Rotl32(x, 13)); AffineUndone(Rotl32(y, 13));
    RotlUndone(x, 13); RotlUndone(y, 13);
    XorCommutes(h, MixKey(j)); XorCommutes(h, MixKey(k));
    XorCancels(MixKey(j), MixKey(k), h);
    MixKeyIsInjective(j, k);
  }

  /** The state after the first `n` blocks, read as little-endian words. */
  function Body(key: seq<byte>, n: nat, seed: u32): u32
    requires 4 * n <= |key|
  {
    if n == 0 then seed else Round(Body(key, n - 1, seed), ReadU32(key, 4 * (n - 1)))
  }

  function Tail(key: seq<byte>): (t: seq<byte>)
    ensures |t| == |key| % 4
  {
    key[|key| / 4 * 4..]
  }

  function TailWord(key: seq<byte>): u32 {
    assert Pow256(0) == 1 && Pow256(1) == 0x100 && Pow256(2) == 0x1_0000 && Pow256(3) == 0x100_0000;
    FromLE(Tail(key))
  }

  /** What the tail and the length xor into the state between the blocks and the finalization. */
  function Closing(key: seq<byte>): u32
    requires |key| < MAX_KEY
  {
    XorWord(if |key| % 4 == 0 then 0 else MixKey(TailWord(key)), |key|)
  }

  function Hash(key: seq<byte>, seed: u32): u32
    requires |key| < MAX_KEY
  {
    Fmix32(XorWord(Body(key, |key| / 4, seed), Closing(key)))
  }

  method MurmurHash3_x86_32(key: seq<byte>, seed: u32) returns (out: u32)
    requires |key| < MAX_KEY
    ensures out == Hash(key, seed)
  {
    hide Times, Rotl32, Affine, XorWord, XorShift, TailWord;
    var nblocks := |key| / 4;
    var h1 := seed;
    var i := -nblocks;
    while i != 0
      invariant -nblocks <= i <= 0
      invariant h1 == Body(key, nblocks + i, seed)
    {
      var k1 := ReadU32(key, 4 * (nblocks + i));
      k1 := Times(k1, 0xcc9e2d51);
      k1 := Rotl32(k1, 15);
      k1 := Times(k1, 0x1b873593);

      h1 := XorWord(h1, k1);
      h1 := Rotl32(h1, 13);
      h1 := Affine(h1);
      i := i + 1;
    }
    ghost var state := h1;

    var tail := nblocks * 4;
    var k1: u32 := 0;
    if |key| % 4 >= 3 { k1 := XorWord(k1, key[tail + 2] as nat * 0x1_0000); }
    if |key| % 4 >= 2 { k1 := XorWord(k1, key[tail + 1] as nat * 0x100); }
    if |key| % 4 >= 1 {
      k1 := XorWord(k1, key[tail] as nat);
      TailAssembled(key, k1);
      k1 := Times(k1, 0xcc9e2d51);
      k1 := Rotl32(k1, 15);
      k1 := Times(k1, 0x1b873593);
      h1 := XorWord(h1, k1);
    }

    h1 := XorWord(h1, |key|);
    Regroup(state, if |key| % 4 == 0 then 0 else MixKey(TailWord(key)), |key|);

    h1 := XorShift(h1, 16);
    h1 := Times(h1, 0x85ebca6b);
    h1 := XorShift(h1, 13);
    h1 := Times(h1, 0xc2b2ae35);
    out := XorShift(h1, 16);
  }

  lemma Regroup(h: u32, k: u32, len: u32)
    ensures XorWord(XorWord(h, k), len) == XorWord(h, XorWord(k, len)) && XorWord(h, 0) == h
  {
    XorAssociates(h, k, len);
    XorSelf(h);
  }

  /** Xoring the tail bytes into their places gives the little-endian word of the tail. */
  lemma TailAssembled(key: seq<byte>, k: u32)
    requires |key| % 4 >= 1
    requires var t := |key| / 4 * 4;
             var two := if |key| % 4 >= 3 then XorWord(0, key[t + 2] as nat * 0x1_0000) else 0;
             var one := if |key| % 4 >= 2 then XorWord(two, key[t + 1] as nat * 0x100) else two;
             k == XorWord(one, key[t] as nat)
    ensures k == TailWord(key)
  {
    hide Xor;
    var t := Tail(key);
    var b0, b1, b2 := t[0] as nat, if |t| >= 2 then t[1] as nat else 0, if |t| >= 3 then t[2] as nat else 0;
    XorBytes(b0, b1, b2);
    LittleEndian(t, b0, b1, b2);
  }

  lemma LittleEndian(t: seq<byte>, b0: nat, b1: nat, b2: nat)
    requires 1 <= |t| <= 3 && b0 == t[0] as nat
    requires b1 == (if |t| >= 2 then t[1] as nat else 0) && b2 == (if |t| >= 3 then t[2] as nat else 0)
    ensures FromLE(t) == b2 * 0x1_0000 + b1 * 0x100 + b0
  {
    assert |t| >= 2 ==> t[1..][0] == t[1];
    assert |t| >= 3 ==> t[1..][1..][0] == t[2];
  }

  lemma XorBytes(b0: nat, b1: nat, b2: nat)
    requires b0 < 256 && b1 < 256 && b2 < 256
    ensures Xor(0, b2 * 0x1_0000) == b2 * 0x1_0000
    ensures Xor(b2 * 0x1_0000, b1 * 0x100) == b2 * 0x1_0000 + b1 * 0x100
    ensures Xor(b2 * 0x1_0000 + b1 * 0x100, b0) == b2 * 0x1_0000 + b1 * 0x100 + b0
    ensures Xor(0, b1 * 0x100) == b1 * 0x100 && Xor(0, b0) == b0 && Xor(b1 * 0x100, b0) == b1 * 0x100 + b0
  {
    hide Xor;
    WordPow2();
    DisjointBitsAdd(b2, b1 * 0x100, 16);
    DisjointBitsAdd(b2 * 0x100 + b1, b0, 8);
    DisjointBitsAdd(b1, b0, 8);
    XorCommutes(0, b2 * 0x1_0000); XorSelf(b2 * 0x1_0000);
    XorCommutes(0, b1 * 0x100); XorSelf(b1 * 0x100);
    XorCommutes(0, b0); XorSelf(b0);
  }

  // ---------- the hash is a bijection in its seed ----------

  /** The seed that leads to state `h` after the first `n` blocks. */
  function Unbody(key: seq<byte>, n: nat, h: u32): u32
    requires 4 * n <= |key|
  {
    if n == 0 then h else Unbody(key, n - 1, Unround(h, ReadU32(key, 4 * (n - 1))))
  }

  lemma {:induction false} BodyIsBijective(key: seq<byte>, n: nat, h: u32)
    requires 4 * n <= |key|
    ensures Unbody(key, n, Body(key, n, h)) == h && Body(key, n, Unbody(key, n, h)) == h
  {
    hide Round, Unround, ReadU32;
    if n > 0 {
      var k := ReadU32(key, 4 * (n - 1));
      BodyIsBijective(key, n - 1, h);
      RoundIsBijective(Body(key, n - 1, h), k);
      BodyIsBijective(key, n - 1, Unround(h, k));
      RoundIsBijective(h, k);
    }
  }

  /** The seed under which the hash of `key` is `out`. */
  function Unhash(key: seq<byte>, out: u32): u32
    requires |key| < MAX_KEY
  {
    Unbody(key, |key| / 4, XorWord(Unfmix32(out), Closing(key)))
  }

  /** For every key, hashing is a bijection from seeds to results. */
  lemma HashIsBijectiveInSeed(key: seq<byte>, x: u32)
    requires |key| < MAX_KEY
    ensures Unhash(key, Hash(key, x)) == x && Hash(key, Unhash(key, x)) == x
  {
    hide Fmix32, Unfmix32, Closing, Body, Unbody, Xor;
    var n, c := |key| / 4, Closing(key);
    FmixIsBijective(XorWord(Body(key, n, x), c));
    XorUndone(Body(key, n, x), c);
    BodyIsBijective(key, n, x);
    BodyIsBijective(key, n, XorWord(Unfmix32(x), c));
    XorUndone(Unfmix32(x), c);
    FmixIsBijective(x);
  }

  // ---------- keys that cannot collide ----------

  /** `a` and `b` have the same length and the same bytes outside the aligned block `j`. */
  ghost predicate SameButBlock(a: seq<byte>, b: seq<byte>, j: nat) {
    && |a| == |b| && 4 * j + 4 <= |a|
    && forall i :: 0 <= i < |a| && !(4 * j <= i < 4 * j + 4) ==> a[i] == b[i]
  }

  lemma {:induction false} BodiesAgree(a: seq<byte>, b: seq<byte>, n: nat, seed: u32)
    requires 4 * n <= |a| == |b| && forall i :: 0 <= i < 4 * n ==> a[i] == b[i]
    ensures Body(a, n, seed) == Body(b, n, seed)
  {
    hide Round, ReadU32;
    if n > 0 {
      BodiesAgree(a, b, n - 1, seed);
      SameBlock(a, b, 4 * (n - 1));
    }
  }

  /** Equal blocks are equal words, different blocks different words. */
  lemma SameBlock(a: seq<byte>, b: seq<byte>, at: nat)
    requires at + 4 <= |a| == |b|
    ensures ReadU32(a, at) == ReadU32(b, at) <==> forall i :: at <= i < at + 4 ==> a[i] == b[i]
  {
    var x, y := a[at..at + 4], b[at..at + 4];
    if ReadU32(a, at) == ReadU32(b, at) {
      forall i | at <= i < at + 4 ensures a[i] == b[i] { assert x[i - at] == y[i - at]; }
    }
    if forall i :: at <= i < at + 4 ==> a[i] == b[i] { assert x == y; }
  }

  /** Once the states differ they stay different over equal blocks. */
  lemma {:induction false} BodiesDiffer(a: seq<byte>, b: seq<byte>, j: nat, n: nat, seed: u32)
    requires SameButBlock(a, b, j) && a != b && j < n && 4 * n <= |a|
    ensures Body(a, n, seed) != Body(b, n, seed)
    decreases n
  {
    hide Round, Unround, ReadU32;
    var x, y := Body(a, n - 1, seed), Body(b, n - 1, seed);
    var k, l := ReadU32(a, 4 * (n - 1)), ReadU32(b, 4 * (n - 1));
    SameBlock(a, b, 4 * (n - 1));
    if j == n - 1 {
      BodiesAgree(a, b, n - 1, seed);
      if Round(x, k) == Round(x, l) { RoundSeparatesBlocks(x, k, l); }
    } else {
      BodiesDiffer(a, b, j, n - 1, seed);
      RoundIsBijective(x, k);
      RoundIsBijective(y, k);
    }
  }

  /** If exactly one of the state and the closing word differs, so does the result. */
  lemma FinishSeparates(x: u32, y: u32, c: u32, d: u32)
    requires (x == y) != (c == d)
    ensures Fmix32(XorWord(x, c)) != Fmix32(XorWord(y, d))
  {
    hide Fmix32, Unfmix32, Xor;
    FmixIsBijective(XorWord(x, c));
    FmixIsBijective(XorWord(y, d));
    if XorWord(x, c) == XorWord(y, d) {
      XorCommutes(x, c); XorCommutes(y, d);
      if x == y { XorCancels(c, d, x); } else { XorCancels(x, y, c); }
    }
  }

  /** Keys of equal length that differ in exactly one aligned four-byte block never collide. */
  lemma OneBlockNeverCollides(a: seq<byte>, b: seq<byte>, j: nat, seed: u32)
    requires |a| < MAX_KEY && SameButBlock(a, b, j) && a != b
    ensures Hash(a, seed) != Hash(b, seed)
  {
    hide Fmix32, Body, Closing;
    var n := |a| / 4;
    BodiesDiffer(a, b, j, n, seed);
    assert Tail(a) == Tail(b);
    SameTail(a, b);
    FinishSeparates(Body(a, n, seed), Body(b, n, seed), Closing(a), Closing(b));
  }

  lemma SameTail(a: seq<byte>, b: seq<byte>)
    requires |a| == |b| < MAX_KEY
    ensures Closing(a) == Closing(b) <==> Tail(a) == Tail(b)
  {
    hide Xor, MixKey;
    ToFromLE(Tail(a));
    ToFromLE(Tail(b));
    if Closing(a) == Closing(b) && |a| % 4 != 0 {
      XorCancels(MixKey(TailWord(a)), MixKey(TailWord(b)), |a|);
      MixKeyIsInjective(TailWord(a), TailWord(b));
    }
  }

  /** Keys of equal length that differ only in the up to three bytes of the tail never collide. */
  lemma OnlyTailNeverCollides(a: seq<byte>, b: seq<byte>, seed: u32)
    requires |a| == |b| < MAX_KEY && a != b && forall i :: 0 <= i < |a| / 4 * 4 ==> a[i] == b[i]
    ensures Hash(a, seed) != Hash(b, seed)
  {
    hide Fmix32, Body, Closing;
    var n := |a| / 4;
    BodiesAgree(a, b, n, seed);
    assert a == a[..n * 4] + Tail(a) && b == b[..n * 4] + Tail(b);
    assert a[..n * 4] == b[..n * 4];
    SameTail(a, b);
    FinishSeparates(Body(a, n, seed), Body(b, n, seed), Closing(a), Closing(b));
  }

  // ---------- values ----------

  /** A rotation as arithmetic. */
  lemma RotlValue(x: u32, r: nat, p: nat, q: nat)
    requires r <= 32 && p == Pow2(r) && q == Pow2(32 - r)
    ensures Rotl32(x, r) == x % q * p + x / q
  {
    hide Rotl32, Pow2;
    Pow2Splits(r, 32 - r);
    WordPow2();
    DivMod(x, q);
    ModBelow(x, q);
    var hi, lo := UpperPart(x, p, q);
    DivUnique(x, q, hi, lo);
    RotlSwaps(x, r, hi, lo);
    DivMod(x, q);
  }

  lemma Powers()
    ensures Pow2(13) == 0x2000 && Pow2(15) == 0x8000 && Pow2(17) == 0x2_0000 && Pow2(19) == 0x8_0000
  {
    assert Pow2(4) == 16 && Pow2(5) == 32 && Pow2(7) == 128 && Pow2(8) == 256 && Pow2(9) == 512 && Pow2(10) == 1024;
    Pow2Splits(8, 5);
    Pow2Splits(8, 7);
    Pow2Splits(8, 9);
    Pow2Splits(9, 10);
  }

  /** What the state, the block mixing and the length do to one block; and what they do to a tail of one byte. */
  lemma MixValues()
    ensures MixKey(0xc2479b7a) == 0x2101c2ac && MixKey(4) == 0x3cf1e974
    ensures Rotl32(0x2101c2ac, 13) == 0x38558420 && Affine(0x38558420) == 4
  {
    hide Rotl32, Pow2;
    Powers();
    RotlValue(0x3c48a39a, 15, 0x8000, 0x2_0000);
    RotlValue(0x3278b544, 15, 0x8000, 0x2_0000);
    RotlValue(0x2101c2ac, 13, 0x2000, 0x8_0000);
  }

  lemma FmixZero()
    ensures Fmix32(0) == 0
  {
    hide Xor, Shr;
    WordPow2();
    ShrSmall(0, 16);
    ShrSmall(0, 13);
    XorSelf(0);
  }

  /** A key of one block that seed 0 sends to 0. */
  lemma BlockValue()
    ensures Hash([0x7a, 0x9b, 0x47, 0xc2], 0) == 0
  {
    hide MixKey, Rotl32, Affine, Fmix32, Xor;
    var key: seq<byte> := [0x7a, 0x9b, 0x47, 0xc2];
    MixValues();
    FmixZero();
    XorCommutes(0, 0x2101c2ac);
    XorSelf(0x2101c2ac);
    XorCommutes(0, 4);
    XorSelf(4);
    assert ReadU32(key, 0) == 0xc2479b7a by { WordValue(key); }
    assert Body(key, 0, 0) == 0;
    assert Body(key, 1, 0) == Round(0, 0xc2479b7a);
  }

  lemma WordValue(key: seq<byte>)
    requires key == [0x7a, 0x9b, 0x47, 0xc2]
    ensures ReadU32(key, 0) == 0xc2479b7a
  {
    var a: seq<byte>, b: seq<byte>, c: seq<byte> := [0xc2], [0x47, 0xc2], [0x9b, 0x47, 0xc2];
    assert key[0..4] == key && key[1..] == c && c[1..] == b && b[1..] == a && a[1..] == [];
    assert FromLE(a) == 0xc2;
    assert FromLE(b) == 0x47 + 256 * FromLE(a);
    assert FromLE(c) == 0x9b + 256 * FromLE(b);
    assert FromLE(key) == 0x7a + 256 * FromLE(c);
  }

  /** A key of one byte behind the blocks, and the seed that sends it to 0. */
  lemma TailValue()
    ensures Hash([4], 0x3cf1e975) == 0
  {
    hide MixKey, Rotl32, Affine, Fmix32, Xor;
    var key: seq<byte> := [4];
    MixValues();
    FmixZero();
    assert Pow2(1) == 2;
    DisjointBitsAdd(0x1e78f4ba, 1, 1);
    XorSelf(0x3cf1e975);
    assert Tail(key) == key;
    assert TailWord(key) == 4;
    assert Body(key, 0, 0x3cf1e975) == 0x3cf1e975;
  }
}
