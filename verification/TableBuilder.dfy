/** Writing a table file, record by record, and the flush of a memtable. */
module TableBuilder {
  import opened Bytes
  import opened Entries
  import opened Records
  import opened TableFormat
  import opened SkipSpec
  import opened SkipLists
  import opened Bloom

  class SSTableBuilder {
    var index: seq<Bookmark>
    var added: nat
    var currentOffset: u64
    var file: seq<byte>
    const filter: BloomFilter
    ghost var written: seq<Write>

    ghost predicate Valid()
      reads this, filter
    {
      && file == EncodeAll(written) && currentOffset == |file| % LIMIT64
      && added == |written| % BLOCK && Indexes(index, written)
      && filter.Valid() && filter.added == KeySet(written)
    }

    constructor (filter: BloomFilter)
      requires filter.Valid() && filter.added == {}
      ensures Valid() && written == [] && this.filter == filter
    {
      index, added, currentOffset, file, this.filter, written := [], 0, 0, [], filter, [];
    }

    method WriteKeyOrVal(s: Str)
      modifies this`file
      ensures file == old(file) + EncodeStr(s)
    {
      hide U32;
      file := file + U32(|s|);
      file := file + s;
      ConcatAssociative(old(file), U32(|s|), s);
    }

    /** The bytes of one record. */
    method WriteRecord(isTombstone: bool, key: Key, val: Str)
      requires currentOffset == |file| % LIMIT64
      modifies this`file, this`currentOffset
      ensures file == old(file) + Encode(Write(key, if isTombstone then Tombstone else Live(val)))
      ensures currentOffset == |file| % LIMIT64
    {
      hide EncodeStr;
      file := file + [if isTombstone then 1 else 0];
      WriteKeyOrVal(key);
      OffsetAdvances(|old(file)|, 5 + |key|);
      currentOffset := (currentOffset + (5 + |key|)) % LIMIT64;
      if !isTombstone {
        OffsetAdvances(|file|, 4 + |val|);
        WriteKeyOrVal(val);
        currentOffset := (currentOffset + (4 + |val|)) % LIMIT64;
      }
      RecordInPieces(old(file), Write(key, if isTombstone then Tombstone else Live(val)), file);
    }

    method WriteEntry(isTombstone: bool, key: HashKey, val: Str)
      requires Valid()
      modifies this, filter`hashTable, filter`added
      ensures Valid()
      ensures written == old(written) + [Write(key, if isTombstone then Tombstone else Live(val))]
    {
      hide Encode, EncodeAll, Indexes, BloomFilter.Valid, KeySet;
      ghost var w := Write(key, if isTombstone then Tombstone else Live(val));
      if added == 0 {
        IndexWith(index, written, w);
        index := index + [Bookmark(key, currentOffset)];
      } else {
        IndexWithout(index, written, w);
      }
      WriteRecord(isTombstone, key, val);
      filter.Add(key);

      EncodeAllSnoc(written, w);
      KeySetSnoc(written, w);
      OneMore(|written|);
      written := written + [w];
      added := added + 1;
      if added == BLOCK { added := 0; }
    }

    method WriteBookmarks()
      requires currentOffset == |file| % LIMIT64
      modifies this`file, this`currentOffset
      ensures file == old(file) + EncodeIndex(index) && currentOffset == |file| % LIMIT64
    {
      hide EncodeStr, U64;
      var i := 0;
      while i < |index|
        invariant i <= |index|
        invariant file == old(file) + EncodeIndex(index[..i]) && currentOffset == |file| % LIMIT64
      {
        OffsetAdvances(|file|, 12 + |index[i].key|);
        WriteKeyOrVal(index[i].key);
        file := file + U64(index[i].offset);
        currentOffset := (currentOffset + (12 + |index[i].key|)) % LIMIT64;
        assert index[..i + 1][..i] == index[..i];
        TwoPieces(old(file), EncodeIndex(index[..i]), EncodeStr(index[i].key), U64(index[i].offset));
        i := i + 1;
      }
      assert index[..i] == index;
    }

    method WriteFilter()
      modifies this`file
      ensures file == old(file) + EncodeWords(filter.hashTable)
    {
      hide U64;
      var hashTable := filter.hashTable;
      var n := 0;
      while n < |hashTable|
        invariant n <= |hashTable| && file == old(file) + EncodeWords(hashTable[..n])
      {
        file := file + U64(hashTable[n]);
        assert hashTable[..n + 1][..n] == hashTable[..n];
        ConcatAssociative(old(file), EncodeWords(hashTable[..n]), U64(hashTable[n]));
        n := n + 1;
      }
      assert hashTable[..n] == hashTable;
    }

    /** Index, filter and footer behind the records. */
    method WriteIndex()
      requires Valid()
      modifies this`file, this`currentOffset
      ensures |file| == |EncodeAll(written)| + |EncodeIndex(index)| + 8 * |filter.hashTable| + 16
      ensures Indexes(index, written) && (|file| < LIMIT64 ==> IsTable(file, written, index, filter.hashTable))
    {
      hide EncodeAll, EncodeIndex, EncodeWords, Indexes, BloomFilter.Valid, KeySet, U64;
      var indexOffset := currentOffset;
      WriteBookmarks();
      var filterOffset := currentOffset;
      WriteFilter();
      file := file + U64(filterOffset);
      file := file + U64(indexOffset);
      TableComplete(file, written, index, filter.hashTable);
    }

    /** Writes out a memtable: the file holds its entries in strictly increasing key order. */
    method Flush(memtable: SkipList)
      requires Valid() && written == [] && memtable.Valid()
      requires forall k :: k in memtable.contents ==> |k| < Murmur.MAX_KEY
      modifies this, filter`hashTable, filter`added
      ensures StrictlySorted(written) && Replay(written) == memtable.contents && |index| == (|written| + 39) / 40
      ensures |file| == |EncodeAll(written)| + |EncodeIndex(index)| + 8 * |filter.hashTable| + 16
      ensures Indexes(index, written) && (|file| < LIMIT64 ==> IsTable(file, written, index, filter.hashTable))
      ensures filter.Valid() && filter.added == KeySet(written)
    {
      hide Arena.Laid, Linked, Holds, SlotsOk, EncodeAll, Indexes, BloomFilter.Valid, Contents, Listed;
      ghost var nodes, values := memtable.nodes, memtable.valData;
      Begins(nodes);
      var it := memtable.GetNext(0, 0);
      ContentsListed(nodes, values);
      while it != 0
        invariant Valid() && it in nodes
        invariant Contents(nodes, values) == written + Listed(nodes, values, it)
        decreases |Listed(nodes, values, it)|
      {
        var data := memtable.GetData(it);
        KeyIsHeld(nodes, values, memtable.contents, it);
        Continues(nodes, values, it);
        ghost var before := written;
        match data.entry {
          case Tombstone => WriteEntry(true, data.key, []);
          case Live(v) => WriteEntry(false, data.key, v);
        }
        it := memtable.GetNext(it, 0);
        ConcatAssociative(before, [data], Listed(nodes, values, it));
      }
      ListedEnds(nodes, values);
      assert written + [] == written;
      ContentsSorted(nodes, values);
      ContentsReplay(nodes, values, memtable.contents);
      WriteIndex();
      IndexSize(index, written);
    }
  }

  lemma IndexSize(index: seq<Bookmark>, es: seq<Write>)
    requires Indexes(index, es)
    ensures |index| == (|es| + 39) / 40
  {
  }

  lemma OffsetAdvances(n: nat, more: nat)
    ensures (n % LIMIT64 + more) % LIMIT64 == (n + more) % LIMIT64
  {
  }

  /** In a file of less than 2^64 bytes no offset has wrapped around. */
  lemma TableComplete(file: seq<byte>, es: seq<Write>, index: seq<Bookmark>, words: seq<u64>)
    requires Indexes(index, es)
    requires file == EncodeAll(es) + EncodeIndex(index) + EncodeWords(words)
                   + U64((|EncodeAll(es)| + |EncodeIndex(index)|) % LIMIT64) + U64(|EncodeAll(es)| % LIMIT64)
    ensures |file| < LIMIT64 ==> IsTable(file, es, index, words)
  {
    hide EncodeAll, EncodeIndex, EncodeWords, Indexes, U64;
    assert |file| == |EncodeAll(es)| + |EncodeIndex(index)| + 8 * |words| + 16;
  }

  lemma TwoPieces(a: seq<byte>, b: seq<byte>, c: seq<byte>, d: seq<byte>)
    ensures a + b + c + d == a + (b + (c + d))
  {
  }

  lemma KeySetSnoc(es: seq<Write>, w: Write)
    ensures KeySet(es + [w]) == KeySet(es) + {w.key}
  {
    var m := es + [w];
    forall i | 0 <= i < |m| ensures m[i].key in KeySet(es) + {w.key} {
      if i < |es| { assert m[i] == es[i]; }
    }
    forall i | 0 <= i < |es| ensures es[i].key in KeySet(m) { assert m[i] == es[i]; }
    assert m[|es|].key in KeySet(m);
  }

  lemma OneMore(n: nat)
    ensures (n + 1) % BLOCK == if n % BLOCK + 1 == BLOCK then 0 else n % BLOCK + 1
  {
  }

  // ---------- iterating over a memtable ----------

  lemma Begins(nodes: Nodes)
    requires Linked(nodes)
    ensures 0 in nodes && |nodes[0].next| == nodes[0].levels + 1 && nodes[0].next[0] in nodes
  {
    NextIsNode(nodes, 0, 0);
  }

  lemma ContentsListed(nodes: Nodes, values: seq<Str>)
    requires Linked(nodes)
    ensures 0 in nodes && |nodes[0].next| > 0 && nodes[0].next[0] in nodes
    ensures Contents(nodes, values) == [] + Listed(nodes, values, nodes[0].next[0])
  {
    hide Linked;
    Begins(nodes);
  }

  lemma Continues(nodes: Nodes, values: seq<Str>, t: nat)
    requires Linked(nodes) && t in nodes && t != 0
    ensures |nodes[t].next| == nodes[t].levels + 1 && nodes[t].next[0] in nodes
    ensures Listed(nodes, values, t) == [WriteOf(nodes[t], values)] + Listed(nodes, values, nodes[t].next[0])
  {
    hide Less;
    NextIsNode(nodes, 0, t);
  }

  lemma ListedEnds(nodes: Nodes, values: seq<Str>)
    requires Linked(nodes) && 0 in nodes
    ensures Listed(nodes, values, 0) == []
  {
  }

  lemma KeyIsHeld(nodes: Nodes, values: seq<Str>, t: Table, a: nat)
    requires Holds(nodes, values, t) && a in nodes && a != 0
    ensures nodes[a].key in t
  {
  }

  /** An iterator yields the entries in strictly increasing key order. */
  lemma ContentsSorted(nodes: Nodes, values: seq<Str>)
    requires Linked(nodes)
    ensures StrictlySorted(Contents(nodes, values))
  {
    hide Linked, Less;
    Begins(nodes);
    ContentsFollowWalk(nodes, values);
    var ws := Contents(nodes, values);
    forall i, j | 0 <= i < j < |ws| ensures Less(ws[i].key, ws[j].key) {
      WalkSorted(nodes, 0, 0, i, j);
    }
  }

  /** An iterator yields every entry of the map the list holds, and nothing else. */
  lemma ContentsReplay(nodes: Nodes, values: seq<Str>, t: Table)
    requires Linked(nodes) && Holds(nodes, values, t)
    ensures Replay(Contents(nodes, values)) == t
  {
    hide Linked, Less, StrictlySorted;
    Begins(nodes);
    ContentsSorted(nodes, values);
    forall k: Key ensures Lookup(Replay(Contents(nodes, values)), k) == Lookup(t, k) {
      ContentsLookup(nodes, values, t, k);
    }
    SameLookups(Replay(Contents(nodes, values)), t);
  }

  lemma ContentsLookup(nodes: Nodes, values: seq<Str>, t: Table, k: Key)
    requires Linked(nodes) && Holds(nodes, values, t) && 0 in nodes && nodes[0].levels >= 0
    ensures Lookup(Replay(Contents(nodes, values)), k) == Lookup(t, k)
  {
    hide Linked, Less, StrictlySorted, Replay;
    var ws, walk := Contents(nodes, values), Walk(nodes, 0, 0);
    ContentsSorted(nodes, values);
    ContentsFollowWalk(nodes, values);
    if k in t {
      var a :| a in nodes && a != 0 && nodes[a].key == k;
      WalkMeets(nodes, 0, 0, a);
      var x :| 0 <= x < |walk| && walk[x] == a;
      LookupAt(ws, x);
    } else {
      forall i | 0 <= i < |ws| ensures ws[i].key != k {
        assert walk[i] in walk;
        WalkMeets(nodes, 0, 0, walk[i]);
      }
      LookupAbsent(ws, k);
    }
  }
}
