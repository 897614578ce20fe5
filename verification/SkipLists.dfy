/** The memtable: a skip list packed into one growing byte vector. */
module SkipLists {
  import opened Bytes
  import opened Entries
  import opened SkipSpec
  import opened Arena

  /** size_t arithmetic. */
  function Wrap(n: int): u64 {
    n % LIMIT64
  }

  class SkipList {
    var arena: seq<byte>
    var valData: seq<Str>
    var byteCounter: u64
    ghost var nodes: Nodes
    ghost var contents: Table

    /** The nodes lie in the arena and refer to existing values. */
    ghost predicate LaidOut()
      reads this
    {
      |arena| < LIMIT32 && Laid(arena, nodes) && SlotsOk(nodes, valData, INVALID_INDEX)
    }

    ghost predicate Valid()
      reads this
    {
      LaidOut() && Linked(nodes) && Holds(nodes, valData, contents)
    }

    constructor ()
      ensures Valid() && contents == map[] && valData == [] && byteCounter == 0 && |arena| == NodeSize(20, 0)
    {
      arena, valData, byteCounter, nodes, contents := [], [], 0, map[], map[];
      new;
      MakeHead();
    }

    method ConstructNode(tombstone: byte, key: Key, val: Str, levels: nat) returns (starting: nat)
      requires |arena| + NodeSize(levels, |key|) < LIMIT32 && levels <= MAX_LVL && tombstone <= 1
      requires Laid(arena, nodes) && |arena| !in nodes && |valData| < INVALID_INDEX
      modifies this
      ensures starting == old(|arena|) && |arena| == old(|arena|) + NodeSize(levels, |key|)
      ensures Laid(arena, nodes)
      ensures nodes == old(nodes)[starting := Fresh(levels, tombstone, key, if tombstone == 0 then |old(valData)| else INVALID_INDEX)]
      ensures valData == if tombstone == 0 then old(valData) + [val] else old(valData)
      ensures byteCounter == Wrap(old(byteCounter) + |key| + |val|) && contents == old(contents)
    {
      hide Laid;
      starting := |arena|;
      WriteHeader(levels, tombstone, key);
      AppendKeepsLayout(old(arena), nodes, levels, tombstone, key, 0);
      nodes := nodes[starting := Fresh(levels, tombstone, key, 0)];
      if tombstone == 0 {
        AddVal(starting, val);
      } else {
        SetIndex(starting, INVALID_INDEX);
      }
      byteCounter := Wrap(byteCounter + |key| + |val|);
    }

    /** The memcpys that fill a new node up to its value index. */
    method WriteHeader(levels: nat, tombstone: byte, key: Key)
      requires |arena| + NodeSize(levels, |key|) < LIMIT32 && levels <= MAX_LVL
      modifies this`arena
      ensures arena == old(arena) + FreshBytes(levels, tombstone, key, 0)
    {
      hide U32;
      var starting := |arena|;
      arena := arena + Zeros(NodeSize(levels, |key|));
      ghost var blank := arena;
      var offset := starting;
      assert arena[..offset] == old(arena);
      offset := Copy(offset, [levels as byte]);
      offset := Copy(offset, Zeros(4 * (levels + 1)));
      offset := Copy(offset, [tombstone]);
      offset := Copy(offset, U32(|key|));
      offset := Copy(offset, key);
      HeaderIsFresh(old(arena), blank, arena, offset, levels, tombstone, key);
    }

    /** memcpy into the arena; returns the offset behind the copy. */
    method Copy(offset: nat, patch: seq<byte>) returns (next: nat)
      requires offset + |patch| <= |arena|
      modifies this`arena
      ensures |arena| == old(|arena|) && next == offset + |patch|
      ensures arena[..next] == old(arena)[..offset] + patch
      ensures forall i :: next <= i < |arena| ==> arena[i] == old(arena)[i]
    {
      SpliceExtends(arena, offset, patch);
      arena := Splice(arena, offset, patch);
      next := offset + |patch|;
    }

    method AddVal(node: nat, val: Str)
      requires Laid(arena, nodes) && node in nodes && |valData| < INVALID_INDEX
      modifies this`arena, this`valData, this`nodes
      ensures |arena| == old(|arena|) && Laid(arena, nodes)
      ensures nodes == old(nodes)[node := old(nodes)[node].(valIndex := |old(valData)|)]
      ensures valData == old(valData) + [val]
    {
      hide Laid;
      SetIndex(node, |valData|);
      valData := valData + [val];
    }

    /** Overwrites the value index, found by way of the node's height and key length. */
    method SetIndex(node: nat, index: u32)
      requires Laid(arena, nodes) && node in nodes
      modifies this`arena, this`nodes
      ensures |arena| == old(|arena|) && Laid(arena, nodes)
      ensures nodes == old(nodes)[node := old(nodes)[node].(valIndex := index)]
    {
      hide NextsAt, ReadU32, Laid, Splice;
      NodeIsAt(arena, nodes, node);
      var levels := arena[node] as nat;
      var offset := node + KeyLengthOffset(levels);
      var keyLength := ReadU32(arena, offset);
      offset := offset + 4 + keyLength;
      SetIndexAt(arena, node, nodes[node], index);
      WriteKeepsLayout(arena, nodes, node, offset, U32(index), nodes[node].(valIndex := index));
      arena := Splice(arena, offset, U32(index));
      nodes := nodes[node := nodes[node].(valIndex := index)];
    }

    method SetTombstone(node: nat, tombstone: byte)
      requires Laid(arena, nodes) && node in nodes
      modifies this`arena, this`nodes
      ensures |arena| == old(|arena|) && Laid(arena, nodes)
      ensures nodes == old(nodes)[node := old(nodes)[node].(tombstone := tombstone)]
    {
      hide NextsAt, ReadU32, Laid, Splice;
      NodeIsAt(arena, nodes, node);
      var offset := node + TombstoneOffset(arena[node] as nat);
      SetTombstoneAt(arena, node, nodes[node], tombstone);
      WriteKeepsLayout(arena, nodes, node, offset, [tombstone], nodes[node].(tombstone := tombstone));
      arena := Splice(arena, offset, [tombstone]);
      nodes := nodes[node := nodes[node].(tombstone := tombstone)];
    }

    /** Changes one pointer slot and no other byte. */
    method SetNext(node: nat, level: nat, next: u32)
      requires Laid(arena, nodes) && node in nodes && level <= nodes[node].levels && level < |nodes[node].next|
      modifies this`arena, this`nodes
      ensures arena == Splice(old(arena), node + NextOffset(level), U32(next))
      ensures Laid(arena, nodes)
      ensures nodes == old(nodes)[node := old(nodes)[node].(next := old(nodes)[node].next[level := next])]
    {
      hide NextsAt, ReadU32, Laid, Splice;
      NodeIsAt(arena, nodes, node);
      var offset := node + NextOffset(level);
      SetNextAt(arena, node, nodes[node], level, next);
      WriteKeepsLayout(arena, nodes, node, offset, U32(next), nodes[node].(next := nodes[node].next[level := next]));
      arena := Splice(arena, offset, U32(next));
      nodes := nodes[node := nodes[node].(next := nodes[node].next[level := next])];
    }

    method GetNext(node: nat, level: nat) returns (next: u32)
      requires Laid(arena, nodes) && node in nodes && level <= nodes[node].levels
      ensures next == nodes[node].next[level]
    {
      hide ReadU32, Laid;
      NodeIsAt(arena, nodes, node);
      next := ReadU32(arena, node + NextOffset(level));
    }

    method GetKey(node: nat) returns (key: Key)
      requires Laid(arena, nodes) && node in nodes
      ensures key == nodes[node].key
    {
      hide ReadU32, NextsAt, Laid;
      NodeIsAt(arena, nodes, node);
      var levels := arena[node] as nat;
      var offset := node + KeyLengthOffset(levels);
      var keyLength := ReadU32(arena, offset);
      offset := offset + 4;
      key := arena[offset..offset + keyLength];
    }

    /** The key of a node and what it holds. */
    method GetData(node: nat) returns (data: Write)
      requires LaidOut() && node in nodes
      ensures data == Write(nodes[node].key, EntryOf(nodes[node], valData))
    {
      hide ReadU32, NextsAt, Laid;
      NodeIsAt(arena, nodes, node);
      assert SlotOk(nodes[node], valData, INVALID_INDEX);
      var key := GetKey(node);
      var levels := arena[node] as nat;
      var tombstone := arena[node + TombstoneOffset(levels)];
      if tombstone == 0 {
        var valIndex := ReadU32(arena, node + KeyOffset(levels) + |key|);
        data := Write(key, Live(valData[valIndex]));
      } else {
        data := Write(key, Tombstone);
      }
    }

    /** An arena holding nothing but a node at offset 0: full height, empty key, no value. */
    method MakeHead()
      requires arena == [] && nodes == map[] && valData == []
      modifies this
      ensures Valid() && contents == map[] && valData == [] && byteCounter == old(byteCounter)
      ensures |arena| == NodeSize(20, 0)
    {
      hide Laid, Less;
      NothingLaid();
      var head := ConstructNode(1, [], [], MAX_LVL);
      contents := map[];
      HeadAlone(nodes);
      assert byteCounter == old(byteCounter) by { WrapSame(old(byteCounter)); }
    }

    /** Frees the nodes and values and starts over. */
    method Clear()
      modifies this
      ensures Valid() && contents == map[] && valData == [] && byteCounter == 0 && |arena| == NodeSize(20, 0)
    {
      arena, nodes, valData := [], map[], [];
      MakeHead();
      byteCounter := 0;
    }

    /** On every level, the last node whose key is less than `key`. */
    method GetPredecessors(key: Key) returns (res: seq<nat>)
      requires Laid(arena, nodes) && Linked(nodes)
      ensures |res| == MAX_LVL + 1 && forall i :: 0 <= i <= MAX_LVL ==> Predecessor(nodes, key, i, res[i])
    {
      hide Laid, Linked, Predecessor, Less;
      res := seq(MAX_LVL + 1, _ => 0);
      var curr := 0;
      var level := MAX_LVL;
      HeadReaches(nodes);
      while level >= 0
        invariant -1 <= level <= MAX_LVL && |res| == MAX_LVL + 1
        invariant curr in nodes && BeforeKey(nodes, curr, key) && nodes[curr].levels >= level
        invariant forall i :: level < i <= MAX_LVL ==> Predecessor(nodes, key, i, res[i])
        decreases level, Ahead(nodes, curr)
      {
        var next := GetNext(curr, level);
        HeightIsLength(nodes, level, curr);
        var smaller := false;
        if next != 0 {
          var nextKey := GetKey(next);
          smaller := Less(nextKey, key);
        }
        if smaller {
          AheadShrinks(nodes, level, curr);
          curr := next;
        } else {
          StopIsPredecessor(nodes, key, level, curr);
          res := res[level := curr];
          level := level - 1;
        }
      }
    }

    method GetIndex(node: nat) returns (valIndex: u32)
      requires Laid(arena, nodes) && node in nodes
      ensures valIndex == nodes[node].valIndex
    {
      hide ReadU32, NextsAt, Laid;
      NodeIsAt(arena, nodes, node);
      var levels := arena[node] as nat;
      var keyLength := ReadU32(arena, node + KeyLengthOffset(levels));
      valIndex := ReadU32(arena, node + KeyOffset(levels) + keyLength);
    }

    method UpdateVal(node: nat, tombstone: byte, val: Str)
      requires LaidOut() && node in nodes && tombstone <= 1 && |valData| < INVALID_INDEX
      modifies this
      ensures LaidOut() && contents == old(contents) && |arena| == old(|arena|)
      ensures nodes == old(nodes)[node := Updated(old(nodes)[node], old(valData), tombstone)]
      ensures valData == UpdatedValues(old(nodes)[node], old(valData), tombstone, val)
      ensures byteCounter == CounterAfterUpdate(old(byteCounter), old(nodes)[node], old(valData), tombstone, val)
    {
      hide Laid, SlotsOk;
      ghost var after := nodes[node := Updated(nodes[node], valData, tombstone)];
      UpdateKeepsSlots(nodes, valData, INVALID_INDEX, node, tombstone, val);
      SlotIsOk(nodes, valData, node);
      SetTombstone(node, tombstone);
      var valIndex := GetIndex(node);
      if valIndex != INVALID_INDEX { byteCounter := Wrap(byteCounter - |valData[valIndex]|); }
      if tombstone == 1 {
        assert nodes == after;
        return;
      }
      if valIndex == INVALID_INDEX {
        AddVal(node, val);
      } else {
        valData := valData[valIndex := val];
      }
      byteCounter := Wrap(byteCounter + |val|);
      assert nodes == after;
    }

    /** `insert`, with the height of a new node as an argument instead of a random number. Exactly one
        key changes; only an empty key written to an empty list is lost, because it is taken for the head. */
    method Insert(tombstone: bool, key: Key, val: Str, level: nat)
      requires Valid() && level <= MAX_LVL
      requires |arena| + NodeSize(level, |key|) < LIMIT32 && |valData| < INVALID_INDEX
      modifies this
      ensures Valid()
      ensures contents == if key == [] && old(contents) == map[] then old(contents)
                          else Put(old(contents), Write(key, if tombstone then Tombstone else Live(val)))
      ensures key !in old(contents) && (key != [] || old(contents) != map[]) ==>
                byteCounter == Wrap(old(byteCounter) + |key| + |val|)
      ensures |arena| <= old(|arena|) + NodeSize(level, |key|) && |valData| <= old(|valData|) + 1
      ensures if key !in old(contents) && (key != [] || old(contents) != map[]) then Towers(nodes, old(nodes), old(|arena|), level)
              else nodes.Keys == old(nodes).Keys
    {
      hide Laid, Linked, Less, Holds, SlotsOk, Predecessor, Towers;
      var flag: byte := if tombstone then 1 else 0;
      var predecessors := GetPredecessors(key);
      ghost var p := predecessors[0];
      PredecessorIsNode(nodes, key, p);
      var next := GetNext(predecessors[0], 0);
      var nextKey := GetKey(next);
      SuccessorDecides(nodes, key, p);
      if key == nextKey {
        EqualKeyIsNodeOrHead(nodes, valData, contents, key, p);
        UpdateHolds(nodes, valData, INVALID_INDEX, contents, next, flag, val);
        UpdateKeepsLinked(nodes, next, Updated(nodes[next], valData, flag));
        UpdateVal(next, flag, val);
        assert nodes.Keys == old(nodes).Keys;
        if next != 0 { contents := Put(contents, Write(key, if tombstone then Tombstone else Live(val))); }
      } else {
        if contents == map[] { EmptyListEnds(nodes, valData, p); }
        NotHeld(nodes, valData, contents, key);
        InsertNode(flag, key, val, level, predecessors);
      }
    }

    /** Adds a node for a key that is not in the list and links it in behind its predecessors. */
    method InsertNode(flag: byte, key: Key, val: Str, level: nat, predecessors: seq<nat>)
      requires Valid() && level <= MAX_LVL && flag <= 1
      requires |arena| + NodeSize(level, |key|) < LIMIT32 && |valData| < INVALID_INDEX
      requires |predecessors| == MAX_LVL + 1 && forall i :: 0 <= i <= MAX_LVL ==> Predecessor(nodes, key, i, predecessors[i])
      requires forall a :: a in nodes && a != 0 ==> nodes[a].key != key
      modifies this
      ensures Valid()
      ensures contents == Put(old(contents), Write(key, if flag == 0 then Live(val) else Tombstone))
      ensures byteCounter == Wrap(old(byteCounter) + |key| + |val|)
      ensures |arena| == old(|arena|) + NodeSize(level, |key|) && |valData| <= old(|valData|) + 1
      ensures Towers(nodes, old(nodes), old(|arena|), level)
    {
      hide Laid, Linked, Less, Holds, SlotsOk, Predecessor, Inserted, Relinked;
      ghost var before, values, t, s := nodes, valData, contents, |arena|;
      NodesAreInside(arena, nodes, s);
      HeadReaches(nodes);
      ghost var added := Fresh(level, flag, key, if flag == 0 then |valData| else INVALID_INDEX);
      assert ReadyToInsert(before, key, predecessors, s, added);
      var toAdd := ConstructNode(flag, key, val, level);
      LinkNode(toAdd, level, predecessors, key, before);
      InsertedLinked(before, key, predecessors, s, added);
      InsertedShape(before, key, predecessors, s, added);
      FreshHolds(before, values, valData, t, s, added, nodes, val);
      contents := Put(contents, Write(key, if flag == 0 then Live(val) else Tombstone));
    }

    /** The linking loop of `insert`. */
    method LinkNode(toAdd: nat, level: nat, predecessors: seq<nat>, ghost key: Key, ghost before: Nodes)
      requires Laid(arena, nodes) && toAdd < LIMIT32 && level <= MAX_LVL
      requires toAdd in nodes && nodes[toAdd].levels == level && nodes == before[toAdd := nodes[toAdd]]
      requires ReadyToInsert(before, key, predecessors, toAdd, nodes[toAdd])
      modifies this`arena, this`nodes
      ensures Laid(arena, nodes) && |arena| == old(|arena|)
      ensures nodes == Inserted(before, predecessors, toAdd, old(nodes)[toAdd])
    {
      hide Laid, Linked, Less, Predecessor, Relinked;
      ghost var base := nodes;
      RelinkedNone(base, predecessors, toAdd);
      var i := 0;
      while i <= level
        invariant 0 <= i <= level + 1
        invariant Laid(arena, nodes) && |arena| == old(|arena|) && nodes == Relinked(base, predecessors, toAdd, i)
      {
        PredecessorReaches(before, base, key, predecessors, toAdd, i);
        RelinkedShape(base, predecessors, toAdd, i);
        LinkAtRelinks(base, predecessors, toAdd, i);
        var next := GetNext(predecessors[i], i);
        SetNext(toAdd, i, next);
        SetNext(predecessors[i], i, toAdd);
        i := i + 1;
      }
    }

    /** The entry of `key`, if any. */
    method Search(key: Key) returns (found: Option<Entry>)
      requires Valid()
      ensures found == Lookup(contents, key)
    {
      hide Laid, Linked, Less;
      var predecessors := GetPredecessors(key);
      var p := predecessors[0];
      SuccessorDecides(nodes, key, p);
      HeightIsLength(nodes, 0, p);
      var req := GetNext(p, 0);
      if req != 0 {
        var k := GetKey(req);
        if k == key {
          var data := GetData(req);
          return Some(data.entry);
        }
      }
      found := None;
    }
  }

  /** One node more, of the given height. */
  ghost predicate Towers(nodes: Nodes, before: Nodes, a: nat, level: nat) {
    a !in before && nodes.Keys == before.Keys + {a} && nodes[a].levels == level && |nodes[a].next| == level + 1
  }

  lemma NodeIsAt(arena: seq<byte>, nodes: Nodes, a: nat)
    requires Laid(arena, nodes) && a in nodes
    ensures NodeAt(arena, a, nodes[a])
  {
  }

  /** Five copies, one behind the other, into a blank block have written a added node. */
  lemma HeaderIsFresh(before: seq<byte>, blank: seq<byte>, after: seq<byte>, offset: nat, levels: nat, tombstone: byte, key: Key)
    requires levels <= MAX_LVL && blank == before + Zeros(NodeSize(levels, |key|)) && |after| == |blank|
    requires offset == |before| + KeyOffset(levels) + |key|
    requires after[..offset] == before + [levels as byte] + Zeros(4 * (levels + 1)) + [tombstone] + U32(|key|) + key
    requires after[offset..] == blank[offset..]
    ensures after == before + FreshBytes(levels, tombstone, key, 0)
  {
    hide U32, Zeros;
    var z, l := Zeros(4 * (levels + 1)), U32(|key|);
    BlankEnd(before, NodeSize(levels, |key|), offset);
    assert after == after[..offset] + after[offset..];
    SixPieces(before, [levels as byte], z, [tombstone], l, key, U32(0));
  }

  lemma BlankEnd(before: seq<byte>, size: nat, offset: nat)
    requires |before| <= offset && offset + 4 == |before| + size
    ensures (before + Zeros(size))[offset..] == U32(0)
  {
    assert U32(0) == Zeros(4);
    assert (before + Zeros(size))[offset..] == Zeros(4);
  }

  lemma SixPieces(a: seq<byte>, b: seq<byte>, c: seq<byte>, d: seq<byte>, e: seq<byte>, f: seq<byte>, g: seq<byte>)
    ensures a + b + c + d + e + f + g == a + (b + c + d + e + f + g)
  {
    ConcatAssociative(a, b, c);
    ConcatAssociative(a, b + c, d);
    ConcatAssociative(a, b + c + d, e);
    ConcatAssociative(a, b + c + d + e, f);
    ConcatAssociative(a, b + c + d + e + f, g);
  }

  /** What an update does to the byte counter: the old value goes out even if the node was a tombstone. */
  function CounterAfterUpdate(counter: u64, n: Node, values: seq<Str>, tombstone: byte, val: Str): u64 {
    var less := if n.valIndex < |values| then Wrap(counter - |values[n.valIndex]|) else counter;
    if tombstone == 1 then less else Wrap(less + |val|)
  }

  lemma PredecessorIsNode(nodes: Nodes, key: Key, p: nat)
    requires Linked(nodes) && Predecessor(nodes, key, 0, p)
    ensures p in nodes && |nodes[p].next| == nodes[p].levels + 1
    ensures nodes[p].next[0] in nodes && 0 in nodes && nodes[0].key == []
  {
    hide Less;
    HeightIsLength(nodes, 0, p);
  }

  /** If the key compared equal, it is that of an entry, or it is empty and the list is too. */
  lemma EqualKeyIsNodeOrHead(nodes: Nodes, values: seq<Str>, t: Table, key: Key, p: nat)
    requires Linked(nodes) && Predecessor(nodes, key, 0, p) && Holds(nodes, values, t)
    requires var next := nodes[p].next[0]; next in nodes && nodes[next].key == key
    ensures var next := nodes[p].next[0];
            if next == 0 then key == [] && t == map[] else key in t
    ensures DistinctKeys(nodes) && (key == [] && t == map[] ==> nodes[p].next[0] == 0)
  {
    var next := nodes[p].next[0];
    assert LevelLinked(nodes, 0);
    assert Follows(nodes, 0, p, next);
    if next == 0 {
      assert p == 0;
      forall b | b in nodes && b != 0 ensures false { assert On(nodes, 0, b); }
    }
  }

  lemma NotHeld(nodes: Nodes, values: seq<Str>, t: Table, key: Key)
    requires Holds(nodes, values, t) && forall a :: a in nodes && a != 0 ==> nodes[a].key != key
    ensures key !in t
  {
  }

  lemma EmptyListEnds(nodes: Nodes, values: seq<Str>, p: nat)
    requires Linked(nodes) && Holds(nodes, values, map[]) && p in nodes
    ensures |nodes[p].next| > 0 && nodes[p].next[0] == 0
  {
    HeightIsLength(nodes, 0, p);
  }

  lemma NodesAreInside(arena: seq<byte>, nodes: Nodes, s: nat)
    requires Laid(arena, nodes) && s >= |arena|
    ensures s !in nodes
  {
    if s in nodes { NodeIsAt(arena, nodes, s); }
  }

  lemma FreshHolds(before: Nodes, values: seq<Str>, more: seq<Str>, t: Table, s: nat, added: Node, m: Nodes, val: Str)
    requires Holds(before, values, t) && SlotsOk(before, values, INVALID_INDEX) && |values| < INVALID_INDEX
    requires s != 0 && s !in before && m.Keys == before.Keys + {s} && added.tombstone <= 1
    requires added.valIndex == if added.tombstone == 0 then |values| else INVALID_INDEX
    requires more == if added.tombstone == 0 then values + [val] else values
    requires m[s].(next := []) == added.(next := [])
    requires forall a :: a in before ==> m[a].(next := []) == before[a].(next := [])
    requires forall a :: a in before && a != 0 ==> before[a].key != added.key
    ensures Holds(m, more, Put(t, Write(added.key, if added.tombstone == 0 then Live(val) else Tombstone)))
    ensures SlotsOk(m, more, INVALID_INDEX)
  {
    forall a | a in before ensures EntryOf(before[a], more) == EntryOf(before[a], values) {
      assert SlotOk(before[a], values, INVALID_INDEX);
    }
    InsertHolds(before, values, more, t, s, added, m, if added.tombstone == 0 then Live(val) else Tombstone);
    FreshSlots(before, values, more, s, added, m);
  }

  lemma FreshSlots(before: Nodes, values: seq<Str>, more: seq<Str>, s: nat, added: Node, m: Nodes)
    requires SlotsOk(before, values, INVALID_INDEX) && |values| < INVALID_INDEX
    requires s !in before && m.Keys == before.Keys + {s} && added.tombstone <= 1
    requires added.valIndex == if added.tombstone == 0 then |values| else INVALID_INDEX
    requires |more| == if added.tombstone == 0 then |values| + 1 else |values|
    requires m[s].(next := []) == added.(next := [])
    requires forall a :: a in before ==> m[a].(next := []) == before[a].(next := [])
    ensures SlotsOk(m, more, INVALID_INDEX)
  {
    forall a | a in m ensures SlotOk(m[a], more, INVALID_INDEX) && m[a].valIndex == (if a == s then added else before[a]).valIndex {
      if a != s {
        assert SlotOk(before[a], values, INVALID_INDEX);
        assert m[a].(next := []) == before[a].(next := []);
      }
    }
    forall x, y | x in m && y in m && x != y && m[x].valIndex != INVALID_INDEX ensures m[x].valIndex != m[y].valIndex {
      if x != s { assert SlotOk(before[x], values, INVALID_INDEX); }
      if y != s { assert SlotOk(before[y], values, INVALID_INDEX); }
    }
  }

  lemma PredecessorReaches(before: Nodes, base: Nodes, key: Key, preds: seq<nat>, s: nat, i: nat)
    requires s in base && base == before[s := base[s]] && ReadyToInsert(before, key, preds, s, base[s]) && i <= base[s].levels
    ensures |preds| == MAX_LVL + 1 && preds[i] in base && preds[i] != s
    ensures base[preds[i]].levels >= i && |base[preds[i]].next| == base[preds[i]].levels + 1 && |base[s].next| == base[s].levels + 1
  {
    hide Less;
    assert Predecessor(before, key, i, preds[i]);
  }

  lemma RelinkedShape(base: Nodes, preds: seq<nat>, s: nat, n: nat)
    requires s in base && n <= |preds|
    ensures Relinked(base, preds, s, n).Keys == base.Keys
    ensures forall a :: a in base ==>
              (Relinked(base, preds, s, n)[a].levels == base[a].levels && |Relinked(base, preds, s, n)[a].next| == |base[a].next|)
  {
  }

  lemma SlotIsOk(nodes: Nodes, values: seq<Str>, a: nat)
    requires SlotsOk(nodes, values, INVALID_INDEX) && a in nodes
    ensures SlotOk(nodes[a], values, INVALID_INDEX)
  {
  }

  lemma NothingLaid()
    ensures Laid([], map[])
  {
  }

  lemma WrapSame(n: u64)
    ensures Wrap(n) == n
  {
  }

  lemma HeadAlone(nodes: Nodes)
    requires nodes == map[0 := Fresh(MAX_LVL, 1, [], INVALID_INDEX)]
    ensures Linked(nodes) && SlotsOk(nodes, [], INVALID_INDEX) && Holds(nodes, [], map[])
  {
  }

  lemma HeadReaches(nodes: Nodes)
    requires Linked(nodes)
    ensures 0 in nodes && nodes[0].levels == MAX_LVL
  {
  }

  lemma HeightIsLength(nodes: Nodes, i: nat, a: nat)
    requires Linked(nodes) && i <= MAX_LVL && a in nodes && nodes[a].levels >= i
    ensures |nodes[a].next| == nodes[a].levels + 1
    ensures var t := nodes[a].next[i]; t == 0 || (t in nodes && nodes[t].levels >= i && Before(nodes, a, t))
  {
    NextIsNode(nodes, i, a);
  }
}
