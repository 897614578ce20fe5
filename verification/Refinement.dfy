/** The concrete parts in the places where the protocol has maps: memtables that are skip lists, tables that
    are files. Each method does on the parts what a function of the protocol does on the maps. */
module Refinement {
  import opened Bytes
  import opened Entries
  import opened StoreModel
  import opened StoreInvariant
  import opened StoreTheorems
  import opened Arena
  import opened SkipLists
  import opened TableReader
  import opened TableMerger
  import opened Tables
  import opened Bloom
  import Wal

  /** The readers of one level, and the tables of the protocol that they stand for. */
  ghost predicate StandFor(readers: seq<SSTableReader>, ts: seq<Sst>)
    reads readers, set r | r in readers :: r.filter
  {
    |readers| == |ts| && forall i :: 0 <= i < |readers| ==> StandsFor(readers[i], ts[i].contents)
  }

  ghost predicate StandsFor(r: SSTableReader, t: Table)
    reads r, r.filter
  {
    r.Valid() && Replay(r.entries) == t
  }

  /** One level of `search`: the newest table first. */
  method SearchLevel(readers: seq<SSTableReader>, key: HashKey, h1: u32, h2: u32, ghost ts: seq<Sst>) returns (res: Option<Str>)
    requires StandFor(readers, ts) && (h1, h2) == Hashes(key)
    ensures res == Reported(ScanTables(ts, key))
  {
    hide SSTableReader.Valid, Hashes, Replay;
    var i := |readers| as int - 1;
    assert ts[..i + 1] == ts;
    while i >= 0
      invariant -1 <= i < |readers|
      invariant ScanTables(ts, key) == ScanTables(ts[..i + 1], key)
    {
      assert StandsFor(readers[i], ts[i].contents);
      res := readers[i].FindKey(key, h1, h2);
      ScanLast(ts, i, key);
      if res.Some? { return; }
      i := i - 1;
    }
    res := None;
  }

  lemma ScanLast(ts: seq<Sst>, i: nat, k: Key)
    requires i < |ts|
    ensures ScanTables(ts[..i + 1], k) == if k in ts[i].contents then Some(ts[i].contents[k]) else ScanTables(ts[..i], k)
  {
    assert ts[..i + 1][..i] == ts[..i];
  }

  /** The lists of readers of all levels. */
  ghost predicate AllStandFor(levels: seq<seq<SSTableReader>>, model: seq<seq<Sst>>)
    reads set l, i | 0 <= l < |levels| && 0 <= i < |levels[l]| :: levels[l][i]
    reads set l, i | 0 <= l < |levels| && 0 <= i < |levels[l]| :: levels[l][i].filter
  {
    |levels| == |model| && forall l :: 0 <= l < |levels| ==> StandFor(levels[l], model[l])
  }

  /** `search` below the memtables: level by level. */
  method SearchLevels(levels: seq<seq<SSTableReader>>, key: HashKey, ghost model: seq<seq<Sst>>) returns (res: Option<Str>)
    requires AllStandFor(levels, model)
    ensures res == Reported(ScanLevels(model, 0, key))
  {
    hide Hashes, StandFor, ScanLevels, ScanTables;
    var h1, h2 := GetHashes(key);
    var level := 0;
    while level < |levels|
      invariant level <= |levels|
      invariant ScanLevels(model, 0, key) == ScanLevels(model, level, key)
    {
      assert StandFor(levels[level], model[level]);
      res := SearchLevel(levels[level], key, h1, h2, model[level]);
      ScanFrom(model, level, key);
      if res.Some? { return; }
      level := level + 1;
    }
    ScanEnds(model, key);
    res := None;
  }

  lemma ScanFrom(model: seq<seq<Sst>>, l: nat, k: Key)
    requires l < |model|
    ensures ScanLevels(model, l, k)
         == if ScanTables(model[l], k).Some? then ScanTables(model[l], k) else ScanLevels(model, l + 1, k)
  {
  }

  lemma ScanEnds(model: seq<seq<Sst>>, k: Key)
    ensures ScanLevels(model, |model|, k) == None
  {
  }

  /** `searchInMemtable`. */
  method SearchInMemtable(active: SkipList, inactive: SkipList, key: Key) returns (res: Option<Str>)
    requires active.Valid() && inactive.Valid()
    ensures res == Reported(FirstOf([active.contents, inactive.contents], 0, None, key))
  {
    hide SkipList.Valid;
    var it := active.Search(key);
    if it.Some? {
      if it.value.Tombstone? { return Some([]); }
      return Some(it.value.val);
    }
    it := inactive.Search(key);
    if it.Some? {
      if it.value.Tombstone? { return Some([]); }
      return Some(it.value.val);
    }
    res := None;
  }

  /** `search` on skip lists and files in one instant is the protocol's search on maps. */
  method Search(active: SkipList, inactive: SkipList, levels: seq<seq<SSTableReader>>, key: HashKey, ghost s: State)
      returns (res: Option<Str>)
    requires active.Valid() && inactive.Valid() && WellFormed(s) && AllStandFor(levels, s.levels)
    requires s.m.tables[s.m.active] == active.contents && s.m.tables[Other(s.m)] == inactive.contents
    ensures res == Reported(StoreModel.Search(s, key))
  {
    hide SkipList.Valid, AllStandFor, ScanLevels;
    res := SearchInMemtable(active, inactive, key);
    if res.Some? { return; }
    res := SearchLevels(levels, key, s.levels);
  }

  /** The merge of a compaction on files is the protocol's merge on maps. */
  method MergeOldest(readers: seq<SSTableReader>, drop: bool, filterSize: u64, numHashes: nat, ghost ts: seq<Sst>)
      returns (merged: SSTableReader)
    requires StandFor(readers, ts) && COMPACTION_TRIGGER <= |readers| && Distinct(readers)
    requires forall i :: 0 <= i < |readers| ==> readers[i].pos == 0
    requires WholeWords(filterSize) && Fits(MergeFiles(Oldest(ts), drop).contents, filterSize / WORD_SIZE)
    modifies readers[..COMPACTION_TRIGGER]
    ensures StandsFor(merged, MergeFiles(Oldest(ts), drop).contents) && merged.pos == 0
    ensures StandFor(readers, ts)
    ensures forall i :: COMPACTION_TRIGGER <= i < |readers| ==> readers[i].pos == 0
  {
    hide SSTableReader.Valid, Merged, Replay, Fits;
    var files: seq<SSTableReader> := [];
    var i := 0;
    while i < COMPACTION_TRIGGER
      invariant i <= COMPACTION_TRIGGER && files == readers[..i]
    {
      files := files + [readers[i]];
      i := i + 1;
    }
    SameContents(files, Oldest(ts));
    merged := MergeToReader(drop, files, filterSize, numHashes);
  }

  lemma SameContents(files: seq<SSTableReader>, ts: seq<Sst>)
    requires StandFor(files, ts)
    ensures MergeSpec.Tables(RecordsOf(files)) == StoreModel.Contents(ts)
  {
    forall i | 0 <= i < |files| ensures Replay(files[i].entries) == ts[i].contents {
      assert StandsFor(files[i], ts[i].contents);
    }
  }

  /** The insertion into a skip list is the protocol's memtable step, the loss of an empty key included. */
  method InsertWrite(memtable: SkipList, w: Write, level: nat)
    requires memtable.Valid() && level <= SkipSpec.MAX_LVL
    requires |memtable.arena| + NodeSize(level, |w.key|) < LIMIT32 && |memtable.valData| < INVALID_INDEX
    modifies memtable
    ensures memtable.Valid()
    ensures memtable.contents == After(old(memtable.contents), Insertion(old(memtable.contents), w))
  {
    hide SkipList.Valid;
    match w.entry {
      case Tombstone => memtable.Insert(true, w.key, [], level);
      case Live(val) => memtable.Insert(false, w.key, val, level);
    }
  }

  // ---------- recovery ----------

  lemma {:induction false} InsertAllShows(t: Table, ws: seq<Write>, k: Key)
    requires k != []
    ensures Lookup(Wal.InsertAll(t, ws), k) == Lookup(t + Replay(ws), k)
  {
    if ws != [] {
      InsertAllShows(t, ws[..|ws| - 1], k);
      assert ws == ws[..|ws| - 1] + [ws[|ws| - 1]];
      ReplaySnoc(ws[..|ws| - 1], ws[|ws| - 1]);
    }
  }

  /** If a run stops in any reachable state and its two logs are replayed into an empty memtable, the memtable over
      the published tables shows, for every key that is not empty, every write that was logged. */
  lemma RecoveredShowsLogged(s: State, k: Key)
    requires Reachable(s) && k != []
    ensures s.m.frozenLo <= s.m.frozenHi <= s.p.inserted <= Logged(s.p.inserted, s.w) <= |s.p.writes|
    ensures var m := Wal.InsertAll(Wal.InsertAll(map[], InactiveLog(s)), ActiveLog(s));
            Visible(if k in m then Some(m[k]) else ScanLevels(s.levels, 0, k))
              == VisibleWrites(s.p.writes, Logged(s.p.inserted, s.w), k)
  {
    hide IsRun, VisibleWrites, ScanLevels, Wal.InsertAll, Replay;
    LogsDecode(s);
    var inactive, active := InactiveLog(s), ActiveLog(s);
    LogsCoverMemory(s, inactive, active, k);
    Wal.InsertAllConcat(map[], inactive, active);
    InsertAllShows(map[], inactive + active, k);
    assert map[] + Replay(inactive + active) == Replay(inactive + active);
  }
}
