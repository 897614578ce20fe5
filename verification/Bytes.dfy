/** Bytes, little-endian integers and the byte order on strings. */
module Bytes {
  import Bits

  newtype byte = x: int | 0 <= x < 256

  const LIMIT32: nat := 0x1_0000_0000
  const LIMIT64: nat := 0x1_0000_0000_0000_0000

  type u32 = x: int | 0 <= x < LIMIT32
  type u64 = x: int | 0 <= x < LIMIT64

  /** A string whose length fits the 32-bit length fields of the file formats. */
  type Str = s: seq<byte> | |s| < LIMIT32

  function Pow256(w: nat): (p: nat)
    ensures p > 0
  {
    if w == 0 then 1 else 256 * Pow256(w - 1)
  }

  /** The `w` low-order bytes of `n`, least significant first. */
  function ToLE(n: nat, w: nat): (s: seq<byte>)
    ensures |s| == w
  {
    if w == 0 then [] else [(n % 256) as byte] + ToLE(n / 256, w - 1)
  }

  function FromLE(s: seq<byte>): (n: nat)
    ensures n < Pow256(|s|)
  {
    if s == [] then 0 else s[0] as nat + 256 * FromLE(s[1..])
  }

  lemma {:induction false} FromToLE(n: nat, w: nat)
    requires n < Pow256(w)
    ensures FromLE(ToLE(n, w)) == n
  {
    if w > 0 {
      FromToLE(n / 256, w - 1);
      assert ToLE(n, w)[1..] == ToLE(n / 256, w - 1);
    }
  }

  /** Byte `i` is the digit of 256^i: the least significant byte comes first. */
  lemma {:induction false} ByteAt(n: nat, w: nat, i: nat)
    requires i < w
    ensures ToLE(n, w)[i] as nat == n / Pow256(i) % 256
  {
    if i > 0 {
      ByteAt(n / 256, w - 1, i - 1);
      DivTwice(n, Pow256(i - 1));
    }
  }

  lemma DivTwice(n: nat, p: nat)
    requires p > 0
    ensures n / 256 / p == n / (256 * p)
  {
    var q := n / 256 / p;
    assert n == 256 * (n / 256) + n % 256 && n / 256 == p * q + n / 256 % p;
    var r := 256 * (n / 256 % p) + n % 256;
    assert n == (256 * p) * q + r && 0 <= r < 256 * p;
    Bits.DivUnique(n, 256 * p, q, r);
  }

  function U32(n: u32): (s: seq<byte>)
    ensures |s| == 4
    ensures FromLE(s) == n
  {
    assert Pow256(4) == LIMIT32;
    FromToLE(n, 4);
    ToLE(n, 4)
  }

  function U64(n: u64): (s: seq<byte>)
    ensures |s| == 8
    ensures FromLE(s) == n
  {
    assert Pow256(8) == LIMIT64;
    FromToLE(n, 8);
    ToLE(n, 8)
  }

  /** memcpy of an integer out of a buffer. */
  function ReadU32(data: seq<byte>, at: nat): (n: u32)
    requires at + 4 <= |data|
    ensures data[at..at + 4] == U32(n)
  {
    assert Pow256(4) == LIMIT32;
    ToFromLE(data[at..at + 4]);
    FromLE(data[at..at + 4])
  }

  function ReadU64(data: seq<byte>, at: nat): (n: u64)
    requires at + 8 <= |data|
    ensures data[at..at + 8] == U64(n)
  {
    assert Pow256(8) == LIMIT64;
    ToFromLE(data[at..at + 8]);
    FromLE(data[at..at + 8])
  }

  lemma {:induction false} ToFromLE(s: seq<byte>)
    ensures ToLE(FromLE(s), |s|) == s
  {
    if s != [] {
      ToFromLE(s[1..]);
      var n := FromLE(s);
      assert n % 256 == s[0] as nat && n / 256 == FromLE(s[1..]);
    }
  }

  lemma SliceOfSlice<T>(s: seq<T>, lo: nat, hi: nat, i: nat, j: nat)
    requires lo <= hi <= |s| && i <= j <= hi - lo
    ensures s[lo..hi][i..j] == s[lo + i..lo + j]
  {
    var a, b := s[lo..hi][i..j], s[lo + i..lo + j];
    assert |a| == |b| && forall n :: 0 <= n < |a| ==> a[n] == s[lo + i + n];
  }

  lemma ConcatAssociative<T>(a: seq<T>, b: seq<T>, c: seq<T>)
    ensures a + (b + c) == (a + b) + c
  {
  }

  /** The bytes of `data` with `patch` written over them from position `at`. */
  function Splice(data: seq<byte>, at: nat, patch: seq<byte>): (r: seq<byte>)
    requires at + |patch| <= |data|
    ensures |r| == |data|
    ensures r[at..at + |patch|] == patch
    ensures r[..at] == data[..at] && r[at + |patch|..] == data[at + |patch|..]
  {
    data[..at] + patch + data[at + |patch|..]
  }

  /** Order of std::string: lexicographic on unsigned bytes, a proper prefix first. */
  predicate Less(a: seq<byte>, b: seq<byte>) {
    b != [] && (a == [] || a[0] < b[0] || (a[0] == b[0] && Less(a[1..], b[1..])))
  }

  /** `a` and `b` are alike up to position `n`, where `a` ends or has the smaller byte. */
  ghost predicate FirstDifference(a: seq<byte>, b: seq<byte>, n: nat) {
    n <= |a| && n < |b| && a[..n] == b[..n] && (n == |a| || a[n] < b[n])
  }

  lemma DifferenceBehind(a: seq<byte>, b: seq<byte>, n: nat)
    requires a != [] && b != [] && a[0] == b[0]
    ensures FirstDifference(a[1..], b[1..], n) <==> FirstDifference(a, b, n + 1)
    ensures !FirstDifference(a, b, 0)
  {
    var c, d := a[1..], b[1..];
    if n <= |c| && n < |d| {
      assert a[..n + 1] == [a[0]] + c[..n] && b[..n + 1] == [b[0]] + d[..n];
      assert c[..n] == a[..n + 1][1..] && d[..n] == b[..n + 1][1..];
    }
  }

  lemma DifferenceLater(a: seq<byte>, b: seq<byte>, n: nat)
    requires FirstDifference(a, b, n) && n > 0
    ensures a != [] && a[0] == b[0]
  {
    assert a[0] == a[..n][0] && b[0] == b[..n][0];
  }

  /** What decides between two strings is the first position at which they differ. */
  lemma {:induction false} LessMeans(a: seq<byte>, b: seq<byte>)
    ensures Less(a, b) <==> exists n: nat :: FirstDifference(a, b, n)
  {
    if b == [] {
    } else if a == [] || a[0] != b[0] {
      if Less(a, b) { assert FirstDifference(a, b, 0); }
      if n: nat :| FirstDifference(a, b, n) && n > 0 { DifferenceLater(a, b, n); }
    } else {
      hide FirstDifference;
      LessMeans(a[1..], b[1..]);
      if n: nat :| FirstDifference(a[1..], b[1..], n) { DifferenceBehind(a, b, n); }
      if n: nat :| FirstDifference(a, b, n) { DifferenceBehind(a, b, if n > 0 then n - 1 else 0); }
    }
  }

  lemma {:induction false} LessIrreflexive(a: seq<byte>)
    ensures !Less(a, a)
  {
    if a != [] { LessIrreflexive(a[1..]); }
  }

  lemma {:induction false} LessTransitive(a: seq<byte>, b: seq<byte>, c: seq<byte>)
    requires Less(a, b) && Less(b, c)
    ensures Less(a, c)
  {
    if a != [] && a[0] == b[0] && b[0] == c[0] { LessTransitive(a[1..], b[1..], c[1..]); }
  }

  lemma {:induction false} LessTotal(a: seq<byte>, b: seq<byte>)
    ensures a == b || Less(a, b) || Less(b, a)
  {
    if a != [] && b != [] && a[0] == b[0] {
      LessTotal(a[1..], b[1..]);
      assert a == [a[0]] + a[1..] && b == [b[0]] + b[1..];
    }
  }

  /** Less is a strict total order, in the quantified form proofs about sorted data use. */
  lemma LessIsStrictTotalOrder()
    ensures forall a :: !Less(a, a)
    ensures forall a, b, c :: Less(a, b) && Less(b, c) ==> Less(a, c)
    ensures forall a, b :: a == b || Less(a, b) || Less(b, a)
  {
    forall a ensures !Less(a, a) { LessIrreflexive(a); }
    forall a, b, c | Less(a, b) && Less(b, c) ensures Less(a, c) { LessTransitive(a, b, c); }
    forall a, b ensures a == b || Less(a, b) || Less(b, a) { LessTotal(a, b); }
  }
}
