/** The life of a table as the flusher, the compactors and the readers see it: from memtable or merge to
    file, from file to lookups. */
module Tables {
  import opened Bytes
  import opened Entries
  import opened Records
  import opened TableFormat
  import opened TableBuilder
  import opened TableReader
  import opened TableMerger
  import opened Bloom
  import opened SkipLists

  /** A file for the map `t` with `words` filter words stays below 2^64 bytes. */
  ghost predicate Fits(t: Table, words: nat) {
    forall es, bs :: StrictlySorted(es) && Replay(es) == t && Indexes(bs, es) ==> FileSize(es, bs, words) < LIMIT64
  }

  ghost function FileSize(es: seq<Write>, bs: seq<Bookmark>, words: nat): nat {
    |EncodeAll(es)| + |EncodeIndex(bs)| + 8 * words + 16
  }

  lemma Fitting(t: Table, es: seq<Write>, bs: seq<Bookmark>, words: nat)
    requires Fits(t, words) && StrictlySorted(es) && Replay(es) == t && Indexes(bs, es)
    ensures FileSize(es, bs, words) < LIMIT64
  {
  }

  /** What the flusher does with a frozen memtable: the table it publishes stands for the same map. */
  method FlushToReader(memtable: SkipList, filterSize: u64, numHashes: nat) returns (reader: SSTableReader)
    requires memtable.Valid() && forall k :: k in memtable.contents ==> |k| < Murmur.MAX_KEY
    requires WholeWords(filterSize) && Fits(memtable.contents, filterSize / WORD_SIZE)
    ensures reader.Valid() && reader.pos == 0 && Replay(reader.entries) == memtable.contents
    ensures fresh(reader) && fresh(reader.filter) && reader.filter.tableSize == filterSize && reader.filter.numHashes == numHashes
  {
    hide EncodeAll, EncodeIndex, IsTable, Indexes, StrictlySorted, Replay, Fits, KeySet, SkipList.Valid, Built;
    var newFilter := new BloomFilter(filterSize, numHashes);
    var builder := new SSTableBuilder(newFilter);
    builder.Flush(memtable);
    Fitting(memtable.contents, builder.written, builder.index, filterSize / WORD_SIZE);
    reader := new SSTableReader(builder.file, newFilter, builder.written, builder.index);
  }

  /** What a compactor does with the tables it has chosen, oldest first. */
  method MergeToReader(removeTombstones: bool, files: seq<SSTableReader>, filterSize: u64, numHashes: nat)
      returns (reader: SSTableReader)
    requires Distinct(files) && forall i :: 0 <= i < |files| ==> files[i].Valid() && files[i].pos == 0
    requires WholeWords(filterSize)
    requires Fits(Merged(MergeSpec.Tables(RecordsOf(files)), removeTombstones), filterSize / WORD_SIZE)
    modifies files
    ensures reader.Valid() && reader.pos == 0
    ensures Replay(reader.entries) == Merged(MergeSpec.Tables(RecordsOf(files)), removeTombstones)
    ensures forall i :: 0 <= i < |files| ==> files[i].Valid() && files[i].pos == |files[i].entries|
    ensures fresh(reader) && fresh(reader.filter) && reader.filter.tableSize == filterSize && reader.filter.numHashes == numHashes
  {
    hide EncodeAll, EncodeIndex, IsTable, Indexes, StrictlySorted, Replay, Fits, KeySet, Merged, SSTableReader.Valid, Built;
    var newFilter := new BloomFilter(filterSize, numHashes);
    var merge := new SSTableMerger(removeTombstones, files, newFilter);
    var file := merge.mergedFile;
    Fitting(Merged(MergeSpec.Tables(RecordsOf(files)), removeTombstones), file.written, file.index, filterSize / WORD_SIZE);
    reader := new SSTableReader(file.file, newFilter, file.written, file.index);
  }

  /** Round trip: what is looked up in the flushed table is what the memtable held. */
  method FlushAndFind(memtable: SkipList, filterSize: u64, numHashes: nat, key: HashKey)
      returns (found: Option<Str>)
    requires memtable.Valid() && forall k :: k in memtable.contents ==> |k| < Murmur.MAX_KEY
    requires WholeWords(filterSize) && Fits(memtable.contents, filterSize / WORD_SIZE)
    ensures found == Reported(Lookup(memtable.contents, key))
  {
    hide Fits, SkipList.Valid, SSTableReader.Valid, Replay, Hashes;
    var reader := FlushToReader(memtable, filterSize, numHashes);
    var h1, h2 := GetHashes(key);
    found := reader.FindKey(key, h1, h2);
  }

  /** Round trip through the bytes alone: the filter, too, is read back from the file. */
  method FlushAndReload(memtable: SkipList, filterSize: u64, numHashes: nat, key: HashKey)
      returns (found: Option<Str>)
    requires memtable.Valid() && forall k :: k in memtable.contents ==> |k| < Murmur.MAX_KEY
    requires WholeWords(filterSize) && Fits(memtable.contents, filterSize / WORD_SIZE)
    ensures found == Reported(Lookup(memtable.contents, key))
  {
    hide EncodeAll, EncodeIndex, IsTable, Indexes, StrictlySorted, Replay, Fits, KeySet, SkipList.Valid, Built, Hashes;
    hide SSTableReader.Valid;
    var newFilter := new BloomFilter(filterSize, numHashes);
    var builder := new SSTableBuilder(newFilter);
    builder.Flush(memtable);
    Fitting(memtable.contents, builder.written, builder.index, filterSize / WORD_SIZE);
    var reader := new SSTableReader.Reload(builder.file, numHashes, builder.written, builder.index,
                                           newFilter.hashTable, newFilter.added);
    var h1, h2 := GetHashes(key);
    found := reader.FindKey(key, h1, h2);
  }
}
