/** Reading a table file: footer and index, point lookup, and the cursor a merge reads through. */
module TableReader {
  import opened Bytes
  import opened Entries
  import opened Records
  import opened TableFormat
  import opened Bloom

  /** mmapAndFillIndex: the two offsets of the footer and the parsed index. */
  method MmapAndFillIndex(data: seq<byte>, ghost es: seq<Write>, ghost bs: seq<Bookmark>, ghost words: seq<u64>)
      returns (indexOffset: u64, filterOffset: u64, index: seq<Bookmark>)
    requires IsTable(data, es, bs, words)
    ensures indexOffset == |EncodeAll(es)| && filterOffset == indexOffset + |EncodeIndex(bs)| && index == bs
  {
    hide EncodeAll, EncodeIndex, EncodeWords, IsTable, ReadU32, ReadU64;
    PartsInPlace(data, es, bs, words);
    indexOffset := ReadU64(data, |data| - 8);
    filterOffset := ReadU64(data, |data| - 16);
    var indexSize := filterOffset - indexOffset;
    var curr := 0;
    index := [];
    ghost var n := 0;
    IndexEnds(bs);
    while curr < indexSize
      invariant n <= |bs| && index == bs[..n] && curr == |EncodeIndex(bs[..n])|
      decreases |bs| - n
    {
      NextBookmark(bs, n, data, indexOffset);
      var keyLength := ReadU32(data, indexOffset + curr);
      curr := curr + 4;
      var key := data[indexOffset + curr..indexOffset + curr + keyLength];
      curr := curr + keyLength;
      var offset := ReadU64(data, indexOffset + curr);
      curr := curr + 8;
      index := index + [Bookmark(key, offset)];
      n := n + 1;
    }
    if n < |bs| { NextBookmark(bs, n, data, indexOffset); }
  }

  lemma NextBookmark(bs: seq<Bookmark>, n: nat, data: seq<byte>, at: nat)
    requires n < |bs| && at + |EncodeIndex(bs)| <= |data| && data[at..at + |EncodeIndex(bs)|] == EncodeIndex(bs)
    ensures var p, b := at + |EncodeIndex(bs[..n])|, bs[n];
            && |EncodeIndex(bs[..n + 1])| == |EncodeIndex(bs[..n])| + 12 + |b.key| <= |EncodeIndex(bs)|
            && ReadU32(data, p) == |b.key| && data[p + 4..p + 4 + |b.key|] == b.key
            && ReadU64(data, p + 4 + |b.key|) == b.offset
    ensures bs[..n] + [Bookmark(bs[n].key, bs[n].offset)] == bs[..n + 1]
  {
    hide EncodeIndex, ReadU32, ReadU64;
    BookmarkInPlace(bs, n, data, at);
  }

  lemma IndexEnds(bs: seq<Bookmark>)
    ensures EncodeIndex(bs[..0]) == [] && bs[..|bs|] == bs
  {
  }

  /** The number of bookmarks whose key is not greater than `key`. */
  method UpperBound(index: seq<Bookmark>, key: Key) returns (n: nat)
    requires forall i, j :: 0 <= i < j < |index| ==> Less(index[i].key, index[j].key)
    ensures n <= |index|
    ensures forall i :: 0 <= i < |index| ==> (Less(key, index[i].key) <==> i >= n)
  {
    hide Less;
    n := 0;
    var hi := |index|;
    while n < hi
      invariant 0 <= n <= hi <= |index|
      invariant forall i :: 0 <= i < n ==> !Less(key, index[i].key)
      invariant forall i :: hi <= i < |index| ==> Less(key, index[i].key)
    {
      var mid := (n + hi) / 2;
      LessIsStrictTotalOrder();
      if Less(key, index[mid].key) { hi := mid; } else { n := mid + 1; }
    }
  }

  class SSTableReader {
    const fileData: seq<byte>
    const indexOffset: u64
    const filterOffset: u64
    const index: seq<Bookmark>
    const filter: BloomFilter
    var currentOffset: u64
    ghost const entries: seq<Write>
    ghost var pos: nat

    ghost predicate Valid()
      reads this, filter
    {
      && IsTable(fileData, entries, index, filter.hashTable) && StrictlySorted(entries)
      && indexOffset == |EncodeAll(entries)|
      && filter.Valid() && filter.added == KeySet(entries)
      && pos <= |entries| && currentOffset == Offset(entries, pos)
    }

    /** Takes over the filter that was filled while the file was written. */
    constructor (data: seq<byte>, filter: BloomFilter, ghost es: seq<Write>, ghost bs: seq<Bookmark>)
      requires IsTable(data, es, bs, filter.hashTable) && StrictlySorted(es)
      requires filter.Valid() && filter.added == KeySet(es)
      ensures Valid() && entries == es && pos == 0 && this.filter == filter
    {
      hide BloomFilter.Valid, IsTable, StrictlySorted, KeySet;
      OffsetsEnd(es);
      var io, fo, idx := MmapAndFillIndex(data, es, bs, filter.hashTable);
      fileData, indexOffset, filterOffset, index, this.filter := data, io, fo, idx, filter;
      entries, currentOffset, pos := es, 0, 0;
    }

    /** Reads the filter back from the file. */
    constructor Reload(data: seq<byte>, numHashes: nat, ghost es: seq<Write>, ghost bs: seq<Bookmark>,
                       ghost words: seq<u64>, ghost keys: set<HashKey>)
      requires IsTable(data, es, bs, words) && StrictlySorted(es)
      requires 0 < |words| * WORD_SIZE < LIMIT64 && keys == KeySet(es)
      requires Built(words, numHashes, |words| * WORD_SIZE, keys)
      ensures Valid() && entries == es && pos == 0 && fresh(filter) && filter.hashTable == words && filter.numHashes == numHashes
    {
      hide IsTable, StrictlySorted, KeySet;
      OffsetsEnd(es);
      var io, fo, idx := MmapAndFillIndex(data, es, bs, words);
      var f := LoadFilter(data, fo, numHashes, es, bs, words, keys);
      fileData, indexOffset, filterOffset, index, filter := data, io, fo, idx, f;
      entries, currentOffset, pos := es, 0, 0;
    }

    /** Point lookup by filter, index and block scan. */
    method FindKey(key: HashKey, h1: u32, h2: u32) returns (r: Option<Str>)
      requires Valid() && (h1, h2) == Hashes(key)
      ensures r == Reported(Lookup(Replay(entries), key))
    {
      hide EncodeAll, IsTable, Indexes, IndexesAt, StrictlySorted, Replay, KeySet, Less, BloomFilter.Valid, Hashes, Built;
      FilterShaped(filter);
      var passes := filter.Contains(h1, h2);
      if !passes {
        FilteredOut(filter, entries, key);
        return None;
      }

      BookmarksSorted(fileData, entries, index, filter.hashTable);
      var above := UpperBound(index, key);
      var idx := above as int - 1;
      BlockBounds(fileData, entries, index, filter.hashTable, key, above);
      if idx < 0 {
        AbsentFrom(entries, key, 0);
        return None;
      }

      var start := index[idx].offset;
      var end := if idx != |index| - 1 then index[idx + 1].offset else indexOffset;
      r := ScanBlock(key, start, end, BLOCK * idx, if idx != |index| - 1 then BLOCK * (idx + 1) else |entries|);
    }

    /** Scans the records `lo` to `hi` for the key, stopping early behind its place. */
    method ScanBlock(key: Key, start: u64, end: u64, ghost lo: nat, ghost hi: nat) returns (r: Option<Str>)
      requires EncodeAll(entries) <= fileData && StrictlySorted(entries)
      requires lo <= hi <= |entries| && start == Offset(entries, lo) && end == Offset(entries, hi)
      requires forall j :: 0 <= j < lo ==> Less(entries[j].key, key)
      requires hi < |entries| ==> Less(key, entries[hi].key)
      ensures r == Reported(Lookup(Replay(entries), key))
    {
      hide EncodeAll, StrictlySorted, Replay, Less, Offset, ReadU32, RecordAt, Encode;
      if lo < hi { OffsetsIncrease(entries, lo, hi); }
      var blockSize := end - start;
      var curr := 0;
      ghost var p := lo;
      while curr < blockSize
        invariant lo <= p <= hi && start + curr == Offset(entries, p)
        invariant forall j :: 0 <= j < p ==> Less(entries[j].key, key)
        decreases hi - p
      {
        RecordBytes(fileData, entries, p);
        var tombstone := fileData[start + curr];
        curr := curr + 1;
        var keyLength := ReadU32(fileData, start + curr);
        curr := curr + 4;
        var entryKey := fileData[start + curr..start + curr + keyLength];
        curr := curr + keyLength;
        var valLength := 0;
        if tombstone == 0 {
          valLength := ReadU32(fileData, start + curr);
          curr := curr + 4;
        }
        if entryKey == key {
          LookupAt(entries, p);
          if tombstone == 1 { return Some([]); }
          return Some(fileData[start + curr..start + curr + valLength]);
        }
        LessTotal(entryKey, key);
        if Less(key, entryKey) {
          AbsentFrom(entries, key, p);
          return None;
        }
        if tombstone == 0 { curr := curr + valLength; }
        p := p + 1;
      }
      if p < hi { OffsetsIncrease(entries, p, hi); }
      AbsentFrom(entries, key, hi);
      return None;
    }

    /** The next record in file order, or nothing behind the last. */
    method GetNext() returns (r: Option<Write>)
      requires Valid()
      modifies this`currentOffset, this`pos
      ensures Valid()
      ensures old(pos) < |entries| ==> r == Some(entries[old(pos)]) && pos == old(pos) + 1
      ensures old(pos) == |entries| ==> r == None && pos == old(pos)
    {
      hide EncodeAll, Indexes, StrictlySorted, KeySet, BloomFilter.Valid, Offset, ReadU32, RecordAt, Encode;
      OffsetsEnd(entries);
      if pos < |entries| { OffsetsIncrease(entries, pos, |entries|); }
      if currentOffset >= indexOffset { return None; }

      PartsInPlace(fileData, entries, index, filter.hashTable);
      var w, next := ReadRecord(currentOffset, pos);
      currentOffset, pos := next, pos + 1;
      return Some(w);
    }

    /** The record at `offset`, field by field, and where the next one starts. */
    method ReadRecord(offset: nat, ghost i: nat) returns (w: Write, next: nat)
      requires EncodeAll(entries) <= fileData && i < |entries| && offset == Offset(entries, i)
      ensures w == entries[i] && next == Offset(entries, i + 1) <= |EncodeAll(entries)|
    {
      hide EncodeAll, Offset, ReadU32;
      RecordBytes(fileData, entries, i);
      var tombstone := fileData[offset];
      next := offset + 1;
      var keyLength := ReadU32(fileData, next);
      next := next + 4;
      var key := fileData[next..next + keyLength];
      next := next + keyLength;
      if tombstone == 1 { return Write(key, Tombstone), next; }

      var valLength := ReadU32(fileData, next);
      next := next + 4;
      var val := fileData[next..next + valLength];
      next := next + valLength;
      return Write(key, Live(val)), next;
    }
  }

  /** The fields a parser meets in the `i`-th record, and where the next record starts. */
  lemma RecordBytes(data: seq<byte>, es: seq<Write>, i: nat)
    requires i < |es| && EncodeAll(es) <= data
    ensures var o, w := Offset(es, i), es[i];
            var v := o + 5 + |w.key|;
            && o + 5 <= |data| && data[o] == Flag(w.entry) && ReadU32(data, o + 1) == |w.key|
            && v <= |data| && data[o + 5..v] == w.key
            && Offset(es, i + 1) <= |EncodeAll(es)|
            && (w.entry.Tombstone? ==> Offset(es, i + 1) == v)
            && (w.entry.Live? ==>
                  && v + 4 + |w.entry.val| <= |data| && ReadU32(data, v) == |w.entry.val|
                  && data[v + 4..v + 4 + |w.entry.val|] == w.entry.val && Offset(es, i + 1) == v + 4 + |w.entry.val|)
  {
    hide EncodeAll, ReadU32, Encode;
    RecordInPlace(es, i, data);
    Fields(data, Offset(es, i), es[i]);
  }

  lemma FilterShaped(filter: BloomFilter)
    requires filter.Valid()
    ensures filter.Shaped() && filter.tableSize > 0 && Built(filter.hashTable, filter.numHashes, filter.tableSize, filter.added)
  {
  }

  /** What the filter rejects is not in the table. */
  lemma FilteredOut(filter: BloomFilter, es: seq<Write>, key: HashKey)
    requires filter.tableSize > 0 && Built(filter.hashTable, filter.numHashes, filter.tableSize, filter.added)
    requires filter.added == KeySet(es)
    requires !Passes(filter.hashTable, filter.numHashes, filter.tableSize, Hashes(key).0, Hashes(key).1)
    ensures Lookup(Replay(es), key) == None
  {
    hide Built, Hashes, Passes, Replay;
    if key in filter.added {
      AddedKeysPass(filter.hashTable, filter.numHashes, filter.tableSize, filter.added, key);
    }
    forall i | 0 <= i < |es| ensures es[i].key != key { assert es[i].key in KeySet(es); }
    LookupAbsent(es, key);
  }

  /** A key that sorts between two neighbouring records is not in the table. */
  lemma AbsentFrom(es: seq<Write>, key: Key, p: nat)
    requires StrictlySorted(es) && p <= |es|
    requires forall j :: 0 <= j < p ==> Less(es[j].key, key)
    requires p < |es| ==> Less(key, es[p].key)
    ensures Lookup(Replay(es), key) == None
  {
    hide Less, Replay;
    LessIrreflexive(key);
    forall j | 0 <= j < |es| ensures es[j].key != key {
      if j > p { LessTransitive(key, es[p].key, es[j].key); }
    }
    LookupAbsent(es, key);
  }

  lemma BookmarksSorted(data: seq<byte>, es: seq<Write>, bs: seq<Bookmark>, words: seq<u64>)
    requires IsTable(data, es, bs, words) && StrictlySorted(es)
    ensures forall i, j :: 0 <= i < j < |bs| ==> Less(bs[i].key, bs[j].key)
  {
    hide Less, EncodeAll, EncodeIndex, EncodeWords;
    forall i, j | 0 <= i < j < |bs| ensures Less(bs[i].key, bs[j].key) {
      assert IndexesAt(bs[i], es, BLOCK * i) && IndexesAt(bs[j], es, BLOCK * j);
    }
  }

  /** The key, if present, lies in the block before the first greater bookmark. */
  lemma BlockBounds(data: seq<byte>, es: seq<Write>, bs: seq<Bookmark>, words: seq<u64>, key: Key, above: nat)
    requires IsTable(data, es, bs, words) && StrictlySorted(es) && above <= |bs|
    requires forall i :: 0 <= i < |bs| ==> (Less(key, bs[i].key) <==> i >= above)
    ensures EncodeAll(es) <= data
    ensures above == 0 && es != [] ==> Less(key, es[0].key)
    ensures above > 0 ==>
              var lo, hi := BLOCK * (above - 1), if above != |bs| then BLOCK * above else |es|;
              && lo <= hi <= |es| && bs[above - 1].offset == Offset(es, lo)
              && (if above != |bs| then bs[above].offset == Offset(es, hi) else |EncodeAll(es)| == Offset(es, hi))
              && (forall j :: 0 <= j < lo ==> Less(es[j].key, key))
              && (hi < |es| ==> Less(key, es[hi].key))
  {
    hide Less, EncodeAll, EncodeIndex, EncodeWords, Offset;
    PartsInPlace(data, es, bs, words);
    OffsetsEnd(es);
    if above < |bs| { BookmarkOffset(es, bs, above); }
    if above > 0 {
      var lo := BLOCK * (above - 1);
      BookmarkOffset(es, bs, above - 1);
      LessTotal(key, es[lo].key);
      forall j | 0 <= j < lo ensures Less(es[j].key, key) {
        if es[lo].key != key { LessTransitive(es[j].key, es[lo].key, key); }
      }
    }
  }

  lemma BookmarkOffset(es: seq<Write>, bs: seq<Bookmark>, i: nat)
    requires Indexes(bs, es) && i < |bs| && |EncodeAll(es)| < LIMIT64
    ensures BLOCK * i < |es| && bs[i].key == es[BLOCK * i].key && bs[i].offset == Offset(es, BLOCK * i)
  {
    hide EncodeAll;
    assert IndexesAt(bs[i], es, BLOCK * i);
    OffsetsEnd(es);
    OffsetsIncrease(es, BLOCK * i, |es|);
  }

  lemma OneMoreWord(words: seq<u64>, table: seq<u64>, n: nat)
    requires n < |words| == |table| && table[..n] == words[..n]
    ensures table[n := words[n]][..n + 1] == words[..n + 1]
  {
  }

  /** The filter words between the index and the footer, loaded into a new filter. */
  method LoadFilter(data: seq<byte>, filterOffset: u64, numHashes: nat, ghost es: seq<Write>, ghost bs: seq<Bookmark>,
                    ghost words: seq<u64>, ghost keys: set<HashKey>) returns (filter: BloomFilter)
    requires IsTable(data, es, bs, words) && filterOffset == |EncodeAll(es)| + |EncodeIndex(bs)|
    requires 0 < |words| * WORD_SIZE < LIMIT64 && keys == KeySet(es)
    requires Built(words, numHashes, |words| * WORD_SIZE, keys)
    ensures fresh(filter) && filter.Valid() && filter.added == KeySet(es) && filter.hashTable == words && filter.numHashes == numHashes
  {
    hide EncodeAll, EncodeIndex, EncodeWords, IsTable, ReadU64, Built, KeySet, IsSet;
    PartsInPlace(data, es, bs, words);
    var filterEndOffset := |data| - 16;
    var filterSize := (filterEndOffset - filterOffset) * 8;
    filter := new BloomFilter(filterSize, numHashes);
    var offset := filterOffset;
    var idx := 0;
    while offset < filterEndOffset
      invariant 0 <= idx <= |words| && offset == filterOffset + 8 * idx
      invariant |filter.hashTable| == |words| && filter.hashTable[..idx] == words[..idx]
      decreases |words| - idx
    {
      WordInPlace(words, idx, data, filterOffset);
      OneMoreWord(words, filter.hashTable, idx);
      filter.hashTable := filter.hashTable[idx := ReadU64(data, offset)];
      offset := offset + 8;
      idx := idx + 1;
    }
    assert filter.hashTable == words;
    filter.added := keys;
  }
}
