/** Merging tables: repeated scans for the least key over the heads of all inputs. */
module TableMerger {
  import opened Bytes
  import opened Entries
  import opened Records
  import opened TableFormat
  import opened TableBuilder
  import opened TableReader
  import opened MergeSpec
  import opened Bloom

  /** What input `r` still has to deliver, a record already fetched into its slot included. */
  ghost function Rest(slot: Option<Write>, r: SSTableReader): seq<Write>
    requires SlotOk(slot, r)
    reads r, r.filter
  {
    r.entries[if slot.Some? then r.pos - 1 else r.pos..]
  }

  ghost predicate SlotOk(slot: Option<Write>, r: SSTableReader)
    reads r, r.filter
  {
    r.Valid() && (slot.Some? ==> r.pos > 0 && slot.value == r.entries[r.pos - 1])
  }

  ghost predicate SlotsOk(slots: seq<Option<Write>>, readers: seq<SSTableReader>, rem: seq<seq<Write>>)
    reads readers, set r | r in readers :: r.filter
  {
    && |slots| == |readers| == |rem|
    && forall i :: 0 <= i < |readers| ==> SlotOk(slots[i], readers[i]) && rem[i] == Rest(slots[i], readers[i])
  }

  ghost predicate Distinct(readers: seq<SSTableReader>) {
    forall i, j :: 0 <= i < j < |readers| ==> readers[i] != readers[j]
  }

  /** `if (!file_data[i]) file_data[i] = readers[i]->getNext();` */
  method Fetch(slots: seq<Option<Write>>, readers: seq<SSTableReader>, i: nat, ghost rem: seq<seq<Write>>)
      returns (slot: Option<Write>)
    requires SlotsOk(slots, readers, rem) && Distinct(readers) && i < |readers|
    modifies readers[i]
    ensures SlotsOk(slots[i := slot], readers, rem)
    ensures slot == if rem[i] == [] then None else Some(rem[i][0])
  {
    hide IsTable, StrictlySorted, BloomFilter.Valid, KeySet, EncodeAll, Offset;
    slot := slots[i];
    assert SlotOk(slots[i], readers[i]) && rem[i] == Rest(slots[i], readers[i]);
    if slot.None? {
      slot := readers[i].GetNext();
    }
    forall j | 0 <= j < |readers|
      ensures SlotOk(slots[i := slot][j], readers[j]) && rem[j] == Rest(slots[i := slot][j], readers[j])
    {
      assert old(SlotOk(slots[j], readers[j]) && rem[j] == Rest(slots[j], readers[j]));
      if j != i { assert readers[j] != readers[i]; }
    }
  }

  /** A slot is cleared: its record is no longer left. */
  lemma ClearSlot(slots: seq<Option<Write>>, readers: seq<SSTableReader>, rem: seq<seq<Write>>, m: nat)
    requires SlotsOk(slots, readers, rem) && m < |readers| && slots[m].Some?
    ensures rem[m] != [] && rem[m][0] == slots[m].value && |rem[m][0].key| < Murmur.MAX_KEY
    ensures SlotsOk(slots[m := None], readers, WithoutHead(rem, m))
  {
    hide IsTable, StrictlySorted, BloomFilter.Valid, EncodeAll, Offset;
    assert SlotOk(slots[m], readers[m]) && rem[m] == Rest(slots[m], readers[m]);
    var r := readers[m];
    assert KeySet(r.entries) == r.filter.added;
    assert r.entries[r.pos - 1].key in KeySet(r.entries);
    forall j | 0 <= j < |readers|
      ensures SlotOk(slots[m := None][j], readers[j]) && WithoutHead(rem, m)[j] == Rest(slots[m := None][j], readers[j])
    {
      assert SlotOk(slots[j], readers[j]) && rem[j] == Rest(slots[j], readers[j]);
    }
  }

  /** One pass over the inputs: finds the least key, clearing older duplicates of it on the way. */
  method Scan(slots0: seq<Option<Write>>, readers: seq<SSTableReader>,
              ghost whole: Table, ghost rem0: seq<seq<Write>>, ghost merged: seq<Write>)
      returns (slots: seq<Option<Write>>, allNull: bool, minIndex: int, ghost rem: seq<seq<Write>>)
    requires SlotsOk(slots0, readers, rem0) && Distinct(readers) && Merging(whole, rem0, merged)
    modifies readers
    ensures SlotsOk(slots, readers, rem) && Merging(whole, rem, merged) && Total(rem) <= Total(rem0)
    ensures |slots| == |rem| == |readers|
    ensures allNull ==> forall j :: 0 <= j < |rem| ==> rem[j] == []
    ensures !allNull ==> 0 <= minIndex < |rem| && rem[minIndex] != [] && slots[minIndex] == Some(rem[minIndex][0])
    ensures !allNull ==> Scanned(rem, |rem|, false, minIndex)
  {
    hide Less, StrictlySorted, NewestWins, Replay, SlotOk, Rest, AllAbove, Above;
    slots, rem := slots0, rem0;
    allNull, minIndex := true, -1;
    var i := 0;
    while i < |readers|
      invariant i <= |readers| && SlotsOk(slots, readers, rem) && Merging(whole, rem, merged) && Total(rem) <= Total(rem0)
      invariant Scanned(rem, i, allNull, minIndex)
      invariant !allNull ==> slots[minIndex] == Some(rem[minIndex][0])
    {
      var slot := Fetch(slots, readers, i, rem);
      slots := slots[i := slot];
      if slot.Some? {
        if allNull {
          ScanFirst(rem, i, minIndex);
          allNull := false;
          minIndex := i;
        } else {
          var min, key := slots[minIndex].value.key, slot.value.key;
          LessTotal(min, key);
          if min == key {
            ClearSlot(slots, readers, rem, minIndex);
            DropKeeps(whole, rem, merged, minIndex, i);
            ScanEqual(rem, i, minIndex);
            TotalShrinks(rem, minIndex);
            rem := WithoutHead(rem, minIndex);
            slots := slots[minIndex := None];
            minIndex := i;
          } else if Less(key, min) {
            ScanLess(rem, i, minIndex);
            minIndex := i;
          } else {
            ScanGreater(rem, i, minIndex);
          }
        }
      } else {
        ScanEmpty(rem, i, allNull, minIndex);
      }
      i := i + 1;
    }
  }

  ghost function RecordsOf(readers: seq<SSTableReader>): (rem: seq<seq<Write>>)
    ensures |rem| == |readers| && forall i :: 0 <= i < |readers| ==> rem[i] == readers[i].entries
  {
    seq(|readers|, i requires 0 <= i < |readers| => readers[i].entries)
  }

  lemma NothingFetched(slots: seq<Option<Write>>, readers: seq<SSTableReader>)
    requires |slots| == |readers| && forall i :: 0 <= i < |readers| ==> slots[i] == None
    requires forall i :: 0 <= i < |readers| ==> readers[i].Valid() && readers[i].pos == 0
    ensures SlotsOk(slots, readers, RecordsOf(readers))
    ensures Merging(NewestWins(Tables(RecordsOf(readers))), RecordsOf(readers), [])
  {
    hide IsTable, BloomFilter.Valid, KeySet, EncodeAll, Offset, NewestWins, Less;
  }

  class SSTableMerger {
    const removeTombstones: bool
    const mergedFile: SSTableBuilder

    /** Merges the inputs, listed oldest first, into one table: strictly sorted, the newest version of every
        key winning, deleted keys left out if tombstones are to be removed. */
    constructor (removeTombstones: bool, readers: seq<SSTableReader>, filter: BloomFilter)
      requires filter.Valid() && filter.added == {} && Distinct(readers)
      requires forall i :: 0 <= i < |readers| ==> readers[i].Valid() && readers[i].pos == 0 && readers[i].filter != filter
      modifies readers, filter
      ensures mergedFile.filter == filter && StrictlySorted(mergedFile.written)
      ensures Replay(mergedFile.written) == Merged(Tables(RecordsOf(readers)), removeTombstones)
      ensures |mergedFile.file| == |EncodeAll(mergedFile.written)| + |EncodeIndex(mergedFile.index)| + 8 * |filter.hashTable| + 16
      ensures Indexes(mergedFile.index, mergedFile.written)
      ensures |mergedFile.file| < LIMIT64 ==> IsTable(mergedFile.file, mergedFile.written, mergedFile.index, filter.hashTable)
      ensures filter.Valid() && filter.added == KeySet(mergedFile.written)
      ensures forall i :: 0 <= i < |readers| ==> readers[i].Valid() && readers[i].pos == |readers[i].entries|
    {
      hide Total, BloomFilter.Valid, SlotsOk, Scanned, Merging, NewestWins, Replay, KeySet, Indexes, EncodeAll, IsTable, StrictlySorted, Tables;
      this.removeTombstones := removeTombstones;
      mergedFile := new SSTableBuilder(filter);
      new;
      var fileData: seq<Option<Write>> := seq(|readers|, _ => None);
      ghost var whole, rem, merged := NewestWins(Tables(RecordsOf(readers))), RecordsOf(readers), [];
      NothingFetched(fileData, readers);
      var allNull := false;
      while !allNull
        invariant SlotsOk(fileData, readers, rem) && Merging(whole, rem, merged)
        invariant mergedFile.Valid() && mergedFile.written == Kept(merged, removeTombstones)
        invariant |fileData| == |rem| == |readers| && (allNull ==> forall j :: 0 <= j < |rem| ==> rem[j] == [])
        decreases if allNull then 0 else 1, Total(rem)
      {
        var minIndex: int;
        fileData, allNull, minIndex, rem := Scan(fileData, readers, whole, rem, merged);
        if !allNull {
          LeastIsKnown(fileData, readers, whole, rem, merged, minIndex);
          WriteEntry(fileData[minIndex].value, merged);
          merged := merged + [rem[minIndex][0]];
          rem := WithoutHead(rem, minIndex);
          fileData := fileData[minIndex := None];
        }
      }
      Finished(whole, rem, merged, removeTombstones);
      AllRead(fileData, readers, rem);
      mergedFile.WriteIndex();
    }

    method WriteEntry(data: Write, ghost merged: seq<Write>)
      requires mergedFile.Valid() && mergedFile.written == Kept(merged, removeTombstones)
      requires |data.key| < Murmur.MAX_KEY
      modifies mergedFile, mergedFile.filter`hashTable, mergedFile.filter`added
      ensures mergedFile.Valid() && mergedFile.written == Kept(merged + [data], removeTombstones)
    {
      hide SSTableBuilder.Valid;
      assert (merged + [data])[..|merged|] == merged;
      if removeTombstones && data.entry.Tombstone? { return; }
      match data.entry {
        case Tombstone => mergedFile.WriteEntry(true, data.key, []);
        case Live(val) => mergedFile.WriteEntry(false, data.key, val);
      }
    }
  }

  /** Writing out the least record and clearing its slot. */
  lemma LeastIsKnown(slots: seq<Option<Write>>, readers: seq<SSTableReader>, whole: Table,
                     rem: seq<seq<Write>>, merged: seq<Write>, m: int)
    requires SlotsOk(slots, readers, rem) && Merging(whole, rem, merged) && Scanned(rem, |rem|, false, m)
    requires |slots| == |rem| == |readers| && 0 <= m < |slots| && rem[m] != [] && slots[m] == Some(rem[m][0])
    ensures |rem[m][0].key| < Murmur.MAX_KEY && SlotsOk(slots[m := None], readers, WithoutHead(rem, m))
    ensures Merging(whole, WithoutHead(rem, m), merged + [rem[m][0]])
    ensures Total(WithoutHead(rem, m)) < Total(rem)
  {
    hide SlotsOk, Merging, Total;
    assert Merging(whole, rem, merged);
    ClearSlot(slots, readers, rem, m);
    EmitKeeps(whole, rem, merged, m);
    TotalShrinks(rem, m);
  }

  /** At the end every cursor stands behind the last record, and nothing else of the inputs has changed. */
  lemma AllRead(slots: seq<Option<Write>>, readers: seq<SSTableReader>, rem: seq<seq<Write>>)
    requires SlotsOk(slots, readers, rem) && forall j :: 0 <= j < |rem| ==> rem[j] == []
    ensures forall i :: 0 <= i < |readers| ==> readers[i].Valid() && readers[i].pos == |readers[i].entries|
  {
    hide IsTable, StrictlySorted, BloomFilter.Valid, KeySet, EncodeAll, Offset;
    forall i | 0 <= i < |readers| ensures readers[i].Valid() && readers[i].pos == |readers[i].entries| {
      assert SlotOk(slots[i], readers[i]) && rem[i] == Rest(slots[i], readers[i]);
    }
  }

  lemma Finished(whole: Table, rem: seq<seq<Write>>, merged: seq<Write>, removeTombstones: bool)
    requires Merging(whole, rem, merged) && forall j :: 0 <= j < |rem| ==> rem[j] == []
    ensures StrictlySorted(Kept(merged, removeTombstones))
    ensures Replay(Kept(merged, removeTombstones)) == if removeTombstones then WithoutTombstones(whole) else whole
  {
    hide StrictlySorted, NewestWins, Tables, Replay, Kept, AllAbove;
    MergedAll(whole, rem, merged);
    KeptMeans(merged, removeTombstones);
  }
}
