/** How skip-list nodes lie in the arena, byte by byte. */
module Arena {
  import opened Bytes
  import opened Entries
  import opened SkipSpec

  const INVALID_INDEX: nat := 0xFFFF_FFFF

  /** Distance of each field from the start of a node with the given height. */
  function NextOffset(level: nat): nat { 1 + 4 * level }

  function TombstoneOffset(levels: nat): nat { 1 + 4 * (levels + 1) }

  function KeyLengthOffset(levels: nat): nat { TombstoneOffset(levels) + 1 }

  function KeyOffset(levels: nat): nat { KeyLengthOffset(levels) + 4 }

  function NodeSize(levels: nat, keyLength: nat): nat { KeyOffset(levels) + keyLength + 4 }

  function Size(n: Node): nat { NodeSize(n.levels, |n.key|) }

  ghost predicate NextsAt(arena: seq<byte>, a: nat, n: Node)
    requires a + Size(n) <= |arena|
  {
    && |n.next| == n.levels + 1
    && forall i :: 0 <= i <= n.levels ==> ReadU32(arena, a + NextOffset(i)) == n.next[i]
  }

  /** The bytes of `n` lie at `a`. */
  ghost predicate NodeAt(arena: seq<byte>, a: nat, n: Node) {
    && n.levels <= MAX_LVL
    && a + Size(n) <= |arena|
    && arena[a] as nat == n.levels
    && NextsAt(arena, a, n)
    && arena[a + TombstoneOffset(n.levels)] == n.tombstone
    && ReadU32(arena, a + KeyLengthOffset(n.levels)) == |n.key|
    && arena[a + KeyOffset(n.levels)..a + KeyOffset(n.levels) + |n.key|] == n.key
    && ReadU32(arena, a + KeyOffset(n.levels) + |n.key|) == n.valIndex
  }

  ghost predicate Disjoint(nodes: Nodes, a: nat, b: nat)
    requires a in nodes && b in nodes
  {
    a + Size(nodes[a]) <= b || b + Size(nodes[b]) <= a
  }

  /** Every node is in the arena and no two overlap. */
  ghost predicate Laid(arena: seq<byte>, nodes: Nodes) {
    && (forall a :: a in nodes ==> NodeAt(arena, a, nodes[a]))
    && (forall a, b :: a in nodes && b in nodes && a != b ==> Disjoint(nodes, a, b))
  }

  // ---------- writing into the arena ----------

  lemma SpliceElsewhere(data: seq<byte>, at: nat, patch: seq<byte>, lo: nat, hi: nat)
    requires at + |patch| <= |data| && lo <= hi <= |data| && (hi <= at || at + |patch| <= lo)
    ensures Splice(data, at, patch)[lo..hi] == data[lo..hi]
  {
  }

  lemma SameNexts(x: seq<byte>, y: seq<byte>, a: nat, n: Node)
    requires a + Size(n) <= |x| && NextsAt(x, a, n) && a + Size(n) <= |y| && x[a..a + Size(n)] == y[a..a + Size(n)]
    ensures NextsAt(y, a, n)
  {
    hide ReadU32;
    forall i | 0 <= i <= n.levels ensures ReadU32(y, a + NextOffset(i)) == n.next[i] {
      SameU32(x, y, a, Size(n), NextOffset(i));
    }
  }

  /** A node is where it was as long as its own bytes are. */
  lemma SameBytesSameNode(x: seq<byte>, y: seq<byte>, a: nat, n: Node)
    requires NodeAt(x, a, n) && a + Size(n) <= |y| && x[a..a + Size(n)] == y[a..a + Size(n)]
    ensures NodeAt(y, a, n)
  {
    hide ReadU32, NextsAt;
    SameHeader(x, y, a, n);
    SameKey(x, y, a, n);
    SameNexts(x, y, a, n);
  }

  lemma SameHeader(x: seq<byte>, y: seq<byte>, a: nat, n: Node)
    requires a + Size(n) <= |x| && a + Size(n) <= |y| && x[a..a + Size(n)] == y[a..a + Size(n)]
    ensures x[a] == y[a] && x[a + TombstoneOffset(n.levels)] == y[a + TombstoneOffset(n.levels)]
    ensures ReadU32(x, a + KeyLengthOffset(n.levels)) == ReadU32(y, a + KeyLengthOffset(n.levels))
  {
    hide ReadU32;
    SamePart(x, y, a, Size(n), 0, 1);
    SamePart(x, y, a, Size(n), TombstoneOffset(n.levels), TombstoneOffset(n.levels) + 1);
    SameU32(x, y, a, Size(n), KeyLengthOffset(n.levels));
  }

  lemma SameKey(x: seq<byte>, y: seq<byte>, a: nat, n: Node)
    requires a + Size(n) <= |x| && a + Size(n) <= |y| && x[a..a + Size(n)] == y[a..a + Size(n)]
    ensures var k := KeyOffset(n.levels);
            && x[a + k..a + k + |n.key|] == y[a + k..a + k + |n.key|]
            && ReadU32(x, a + k + |n.key|) == ReadU32(y, a + k + |n.key|)
  {
    hide ReadU32;
    var k := KeyOffset(n.levels);
    SamePart(x, y, a, Size(n), k, k + |n.key|);
    SameU32(x, y, a, Size(n), k + |n.key|);
  }

  lemma SamePart(x: seq<byte>, y: seq<byte>, a: nat, size: nat, i: nat, j: nat)
    requires a + size <= |x| && a + size <= |y| && x[a..a + size] == y[a..a + size] && i <= j <= size
    ensures x[a + i..a + j] == y[a + i..a + j]
    ensures i < j ==> x[a + i] == y[a + i]
  {
    SliceOfSlice(x, a, a + size, i, j);
    SliceOfSlice(y, a, a + size, i, j);
    if i < j { assert x[a + i] == x[a + i..a + j][0] && y[a + i] == y[a + i..a + j][0]; }
  }

  lemma SameU32(x: seq<byte>, y: seq<byte>, a: nat, size: nat, i: nat)
    requires a + size <= |x| && a + size <= |y| && x[a..a + size] == y[a..a + size] && i + 4 <= size
    ensures ReadU32(x, a + i) == ReadU32(y, a + i)
  {
    SamePart(x, y, a, size, i, i + 4);
  }

  lemma SpliceReads(data: seq<byte>, at: nat, n: u32)
    requires at + 4 <= |data|
    ensures ReadU32(Splice(data, at, U32(n)), at) == n
  {
  }

  lemma SpliceU32Elsewhere(data: seq<byte>, at: nat, patch: seq<byte>, i: nat)
    requires at + |patch| <= |data| && i + 4 <= |data| && (i + 4 <= at || at + |patch| <= i)
    ensures ReadU32(Splice(data, at, patch), i) == ReadU32(data, i)
  {
    SpliceElsewhere(data, at, patch, i, i + 4);
  }

  /** Writing inside one node leaves every other node alone. */
  lemma WriteKeepsOthers(arena: seq<byte>, nodes: Nodes, a: nat, at: nat, patch: seq<byte>, b: nat)
    requires Laid(arena, nodes) && a in nodes && b in nodes && a != b
    requires a <= at && at + |patch| <= a + Size(nodes[a])
    ensures NodeAt(arena, a, nodes[a]) && NodeAt(Splice(arena, at, patch), b, nodes[b])
  {
    hide NextsAt, ReadU32;
    assert NodeAt(arena, a, nodes[a]) && NodeAt(arena, b, nodes[b]);
    assert Disjoint(nodes, a, b);
    SpliceElsewhere(arena, at, patch, b, b + Size(nodes[b]));
    SameBytesSameNode(arena, Splice(arena, at, patch), b, nodes[b]);
  }

  /** Rewriting one node in place, its size unchanged, keeps the layout. */
  lemma WriteKeepsLayout(arena: seq<byte>, nodes: Nodes, a: nat, at: nat, patch: seq<byte>, n: Node)
    requires Laid(arena, nodes) && a in nodes && at + |patch| <= |arena|
    requires a <= at && at + |patch| <= a + Size(nodes[a]) && Size(n) == Size(nodes[a])
    requires NodeAt(Splice(arena, at, patch), a, n)
    ensures Laid(Splice(arena, at, patch), nodes[a := n])
  {
    hide NodeAt, Splice;
    var m := nodes[a := n];
    forall b | b in m ensures NodeAt(Splice(arena, at, patch), b, m[b]) {
      if b != a { WriteKeepsOthers(arena, nodes, a, at, patch, b); }
    }
    forall x, y | x in m && y in m && x != y ensures Disjoint(m, x, y) {
      assert Disjoint(nodes, x, y);
    }
  }

  lemma SetOneNext(arena: seq<byte>, a: nat, n: Node, level: nat, next: u32)
    requires a + Size(n) <= |arena| && NextsAt(arena, a, n) && level <= n.levels
    ensures NextsAt(Splice(arena, a + NextOffset(level), U32(next)), a, n.(next := n.next[level := next]))
  {
    hide ReadU32, Splice;
    var at := a + NextOffset(level);
    SpliceReads(arena, at, next);
    forall i | 0 <= i <= n.levels ensures ReadU32(Splice(arena, at, U32(next)), a + NextOffset(i)) == n.next[level := next][i] {
      if i != level { SpliceU32Elsewhere(arena, at, U32(next), a + NextOffset(i)); }
    }
  }

  lemma SetNextAt(arena: seq<byte>, a: nat, n: Node, level: nat, next: u32)
    requires NodeAt(arena, a, n) && level <= n.levels
    ensures NodeAt(Splice(arena, a + NextOffset(level), U32(next)), a, n.(next := n.next[level := next]))
  {
    hide ReadU32, Splice, NextsAt, U32;
    SpliceKeepsRest(arena, a, n, a + NextOffset(level), U32(next));
    SetOneNext(arena, a, n, level, next);
    SpliceKeepsWords(arena, a, n, level, U32(next));
  }

  lemma SpliceKeepsWords(arena: seq<byte>, a: nat, n: Node, level: nat, patch: seq<byte>)
    requires a + Size(n) <= |arena| && level <= n.levels && |patch| == 4
    ensures var s, k := Splice(arena, a + NextOffset(level), patch), KeyOffset(n.levels);
            && ReadU32(s, a + KeyLengthOffset(n.levels)) == ReadU32(arena, a + KeyLengthOffset(n.levels))
            && ReadU32(s, a + k + |n.key|) == ReadU32(arena, a + k + |n.key|)
  {
    hide ReadU32, Splice;
    SpliceU32Elsewhere(arena, a + NextOffset(level), patch, a + KeyLengthOffset(n.levels));
    SpliceU32Elsewhere(arena, a + NextOffset(level), patch, a + KeyOffset(n.levels) + |n.key|);
  }

  /** A write into the pointers leaves height, flag and key. */
  lemma SpliceKeepsRest(arena: seq<byte>, a: nat, n: Node, at: nat, patch: seq<byte>)
    requires NodeAt(arena, a, n) && a + 1 <= at && at + |patch| <= a + TombstoneOffset(n.levels)
    ensures var r := Splice(arena, at, patch);
            && r[a] as nat == n.levels && r[a + TombstoneOffset(n.levels)] == n.tombstone
            && r[a + KeyOffset(n.levels)..a + KeyOffset(n.levels) + |n.key|] == n.key
  {
    hide ReadU32, NextsAt;
    var k := KeyOffset(n.levels);
    SpliceElsewhere(arena, at, patch, a + k, a + k + |n.key|);
  }

  lemma ByteElsewhere(data: seq<byte>, at: nat, patch: seq<byte>, i: nat)
    requires at + |patch| <= |data| && i < |data| && (i < at || at + |patch| <= i)
    ensures Splice(data, at, patch)[i] == data[i]
  {
  }

  /** A write behind the pointers leaves them. */
  lemma SpliceKeepsNexts(arena: seq<byte>, a: nat, n: Node, at: nat, patch: seq<byte>)
    requires a + Size(n) <= |arena| && NextsAt(arena, a, n)
    requires a + TombstoneOffset(n.levels) <= at && at + |patch| <= |arena|
    ensures NextsAt(Splice(arena, at, patch), a, n)
  {
    hide ReadU32, Splice;
    forall i | 0 <= i <= n.levels ensures ReadU32(Splice(arena, at, patch), a + NextOffset(i)) == n.next[i] {
      SpliceU32Elsewhere(arena, at, patch, a + NextOffset(i));
    }
  }

  lemma SetTombstoneAt(arena: seq<byte>, a: nat, n: Node, t: byte)
    requires NodeAt(arena, a, n)
    ensures NodeAt(Splice(arena, a + TombstoneOffset(n.levels), [t]), a, n.(tombstone := t))
  {
    hide ReadU32, Splice, NextsAt;
    var at, k := a + TombstoneOffset(n.levels), KeyOffset(n.levels);
    var r := Splice(arena, at, [t]);
    ByteElsewhere(arena, at, [t], a);
    assert r[at] == r[at..at + 1][0];
    SpliceKeepsNexts(arena, a, n, at, [t]);
    SpliceU32Elsewhere(arena, at, [t], a + KeyLengthOffset(n.levels));
    SpliceElsewhere(arena, at, [t], a + k, a + k + |n.key|);
    SpliceU32Elsewhere(arena, at, [t], a + k + |n.key|);
    SameNextsValue(r, a, n, n.(tombstone := t));
  }

  lemma SameNextsValue(arena: seq<byte>, a: nat, n: Node, m: Node)
    requires a + Size(n) <= |arena| && NextsAt(arena, a, n) && m.next == n.next && m.levels == n.levels && m.key == n.key
    ensures NextsAt(arena, a, m)
  {
  }

  lemma SetIndexAt(arena: seq<byte>, a: nat, n: Node, index: u32)
    requires NodeAt(arena, a, n)
    ensures NodeAt(Splice(arena, a + KeyOffset(n.levels) + |n.key|, U32(index)), a, n.(valIndex := index))
  {
    hide ReadU32, Splice, NextsAt;
    var k := KeyOffset(n.levels);
    var at := a + k + |n.key|;
    ByteElsewhere(arena, at, U32(index), a);
    ByteElsewhere(arena, at, U32(index), a + TombstoneOffset(n.levels));
    SpliceKeepsNexts(arena, a, n, at, U32(index));
    SpliceU32Elsewhere(arena, at, U32(index), a + KeyLengthOffset(n.levels));
    SpliceElsewhere(arena, at, U32(index), a + k, a + k + |n.key|);
    SpliceReads(arena, at, index);
    SameNextsValue(Splice(arena, at, U32(index)), a, n, n.(valIndex := index));
  }

  // ---------- appending a node ----------

  function Zeros(n: nat): (z: seq<byte>)
    ensures |z| == n
  {
    seq(n, _ => 0 as byte)
  }

  /** The bytes of a node that is linked to nothing yet. */
  function FreshBytes(levels: nat, tombstone: byte, key: Key, index: u32): (r: seq<byte>)
    requires levels <= MAX_LVL
    ensures |r| == NodeSize(levels, |key|)
  {
    [levels as byte] + Zeros(4 * (levels + 1)) + [tombstone] + U32(|key|) + key + U32(index)
  }

  /** memcpy right behind what has been written so far extends it. */
  lemma SpliceExtends(data: seq<byte>, at: nat, patch: seq<byte>)
    requires at + |patch| <= |data|
    ensures Splice(data, at, patch)[..at + |patch|] == data[..at] + patch
  {
  }

  lemma ZeroIsZero(data: seq<byte>, at: nat)
    requires at + 4 <= |data| && data[at..at + 4] == Zeros(4)
    ensures ReadU32(data, at) == 0
  {
    assert U32(0) == Zeros(4);
  }

  lemma FreshParts(levels: nat, tombstone: byte, key: Key, index: u32)
    requires levels <= MAX_LVL
    ensures var r := FreshBytes(levels, tombstone, key, index);
            var k := KeyOffset(levels);
            && r[0] as nat == levels && r[TombstoneOffset(levels)] == tombstone
            && r[KeyLengthOffset(levels)..k] == U32(|key|) && r[k..k + |key|] == key && r[k + |key|..] == U32(index)
            && r[1..TombstoneOffset(levels)] == Zeros(4 * (levels + 1))
  {
    hide U32;
  }

  lemma FreshNexts(arena: seq<byte>, a: nat, n: Node)
    requires a + Size(n) <= |arena| && |n.next| == n.levels + 1 && forall i :: 0 <= i <= n.levels ==> n.next[i] == 0
    requires arena[a + 1..a + TombstoneOffset(n.levels)] == Zeros(4 * (n.levels + 1))
    ensures NextsAt(arena, a, n)
  {
    hide ReadU32;
    forall i | 0 <= i <= n.levels ensures ReadU32(arena, a + NextOffset(i)) == n.next[i] {
      FreshNext(arena, a, n.levels, i);
    }
  }

  lemma FreshNext(arena: seq<byte>, a: nat, levels: nat, i: nat)
    requires i <= levels && a + TombstoneOffset(levels) <= |arena|
    requires arena[a + 1..a + TombstoneOffset(levels)] == Zeros(4 * (levels + 1))
    ensures ReadU32(arena, a + NextOffset(i)) == 0
  {
    hide ReadU32, U32;
    SliceOfSlice(arena, a + 1, a + TombstoneOffset(levels), 4 * i, 4 * i + 4);
    ZerosSlice(4 * (levels + 1), 4 * i);
    ZeroIsZero(arena, a + NextOffset(i));
  }

  lemma ZerosSlice(n: nat, i: nat)
    requires i + 4 <= n
    ensures Zeros(n)[i..i + 4] == Zeros(4)
  {
    var z := Zeros(n)[i..i + 4];
    forall b | 0 <= b < 4 ensures z[b] == Zeros(4)[b] {
      assert z[b] == Zeros(n)[i + b];
    }
  }

  lemma FreshNodeAt(before: seq<byte>, levels: nat, tombstone: byte, key: Key, index: u32)
    requires levels <= MAX_LVL
    ensures NodeAt(before + FreshBytes(levels, tombstone, key, index), |before|, Fresh(levels, tombstone, key, index))
  {
    hide ReadU32, FreshBytes, NextsAt, U32, Zeros;
    var r, a := FreshBytes(levels, tombstone, key, index), |before|;
    var arena, k := before + r, KeyOffset(levels);
    FreshParts(levels, tombstone, key, index);
    assert arena[a..a + |r|] == r;
    SliceOfSlice(arena, a, a + |r|, KeyLengthOffset(levels), k);
    SliceOfSlice(arena, a, a + |r|, k, k + |key|);
    SliceOfSlice(arena, a, a + |r|, k + |key|, |r|);
    SliceOfSlice(arena, a, a + |r|, 1, TombstoneOffset(levels));
    ReadBack(arena, a + KeyLengthOffset(levels), |key|);
    ReadBack(arena, a + k + |key|, index);
    FreshNexts(arena, a, Fresh(levels, tombstone, key, index));
  }

  lemma ReadBack(data: seq<byte>, at: nat, n: u32)
    requires at + 4 <= |data| && data[at..at + 4] == U32(n)
    ensures ReadU32(data, at) == n
  {
  }

  lemma OldNodesStay(arena: seq<byte>, nodes: Nodes, more: seq<byte>, b: nat)
    requires Laid(arena, nodes) && b in nodes
    ensures NodeAt(arena + more, b, nodes[b]) && b + Size(nodes[b]) <= |arena|
  {
    hide ReadU32, NextsAt;
    assert NodeAt(arena, b, nodes[b]);
    assert arena[b..b + Size(nodes[b])] == (arena + more)[b..b + Size(nodes[b])];
    SameBytesSameNode(arena, arena + more, b, nodes[b]);
  }

  lemma AppendKeepsLayout(arena: seq<byte>, nodes: Nodes, levels: nat, tombstone: byte, key: Key, index: u32)
    requires Laid(arena, nodes) && levels <= MAX_LVL && |arena| !in nodes
    ensures Laid(arena + FreshBytes(levels, tombstone, key, index), nodes[|arena| := Fresh(levels, tombstone, key, index)])
  {
    hide FreshBytes, NodeAt;
    var more, a := FreshBytes(levels, tombstone, key, index), |arena|;
    var m := nodes[a := Fresh(levels, tombstone, key, index)];
    FreshNodeAt(arena, levels, tombstone, key, index);
    forall b | b in m ensures NodeAt(arena + more, b, m[b]) && (b != a ==> b + Size(m[b]) <= a) {
      if b != a { OldNodesStay(arena, nodes, more, b); }
    }
    forall x, z | x in m && z in m && x != z ensures Disjoint(m, x, z) {
      if x != a && z != a { assert Disjoint(nodes, x, z); }
    }
  }
}
