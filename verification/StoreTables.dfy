/** Publishing, merging and removing tables keep the live tables tiled. */
module StoreTables {
  import opened Entries
  import opened StoreModel
  import opened Tiling
  import opened StoreInvariant

  // ---------- how steps change the live tables ----------

  lemma LiveSame(levels: seq<seq<Sst>>, c: seq<CompactorPc>, i: nat, pc: CompactorPc)
    requires |c| == NUM_COMPACTORS && i < NUM_COMPACTORS
    requires !c[i].Added? && !pc.Added?
    ensures LiveTables(levels, c[i := pc]) == LiveTables(levels, c)
  {
    var d := c[i := pc];
    forall l | 0 <= l < |levels| ensures LiveTables(levels, d)[l] == LiveTables(levels, c)[l] {
      assert LiveAt(levels, d, l) == LiveAt(levels, c, l);
    }
  }

  lemma LiveAppend(levels: seq<seq<Sst>>, c: seq<CompactorPc>, l: nat, t: Sst)
    requires |c| == NUM_COMPACTORS && l < |levels|
    requires l < MAX_LEVEL && c[Owner(l)] == Added(l) ==> COMPACTION_TRIGGER <= |levels[l]|
    ensures LiveTables(levels[l := levels[l] + [t]], c) == LiveTables(levels, c)[l := LiveAt(levels, c, l) + [t]]
  {
    var b := levels[l := levels[l] + [t]];
    forall q | 0 <= q < |levels| ensures LiveTables(b, c)[q] == LiveTables(levels, c)[l := LiveAt(levels, c, l) + [t]][q] {
      if q == l {
        assert LiveAt(b, c, l) == LiveAt(levels, c, l) + [t];
      }
    }
  }

  lemma LiveMark(levels: seq<seq<Sst>>, c: seq<CompactorPc>, l: nat)
    requires |c| == NUM_COMPACTORS && l < MAX_LEVEL && l < |levels|
    requires !c[Owner(l)].Added? && COMPACTION_TRIGGER <= |levels[l]|
    ensures LiveTables(levels, c[Owner(l) := Added(l)]) == LiveTables(levels, c)[l := levels[l][COMPACTION_TRIGGER..]]
  {
    var d := c[Owner(l) := Added(l)];
    forall q | 0 <= q < |levels| ensures LiveTables(levels, d)[q] == LiveTables(levels, c)[l := levels[l][COMPACTION_TRIGGER..]][q] {
      assert q != l ==> LiveAt(levels, d, q) == LiveAt(levels, c, q);
    }
  }

  lemma LiveRemove(levels: seq<seq<Sst>>, c: seq<CompactorPc>, l: nat)
    requires |c| == NUM_COMPACTORS && l < MAX_LEVEL && l < |levels|
    requires c[Owner(l)] == Added(l)
    ensures LiveTables(levels[l := WithoutOldest(levels[l])], c[Owner(l) := Removed(l)]) == LiveTables(levels, c)
  {
    var b, d := levels[l := WithoutOldest(levels[l])], c[Owner(l) := Removed(l)];
    forall q | 0 <= q < |levels| ensures LiveTables(b, d)[q] == LiveTables(levels, c)[q] {
      assert LiveAt(b, d, q) == LiveAt(levels, c, q);
    }
  }

  // ---------- facts about tiled levels ----------

  lemma EndOfLevel(ts: seq<Sst>, live: seq<Sst>, covered: nat)
    requires live == ts || (live == WithoutOldest(ts) && Duplicated(ts, covered))
    ensures End(ts, End(live, covered)) == End(live, covered)
  {
  }

  /** The newest table of a level ends where the coverage of the level ends. */
  lemma LastIsCoverage(levels: seq<seq<Sst>>, c: seq<CompactorPc>, l: nat)
    requires |c| == NUM_COMPACTORS && DuplicatesOk(levels, c, LiveTables(levels, c)) && l < |levels|
    ensures End(levels[l], Coverage(LiveTables(levels, c), l)) == Coverage(LiveTables(levels, c), l)
  {
    var live := LiveTables(levels, c);
    assert live[l] == LiveAt(levels, c, l);
    EndOfLevel(levels[l], live[l], Coverage(live, l + 1));
  }

  lemma LiveUnmarked(levels: seq<seq<Sst>>, c: seq<CompactorPc>, l: nat)
    requires |c| == NUM_COMPACTORS && l < |levels| && !c[Owner(l)].Added?
    ensures LiveTables(levels, c)[l] == levels[l]
  {
  }

  lemma DeeperLiveEmpty(levels: seq<seq<Sst>>, c: seq<CompactorPc>, l: nat)
    requires |c| == NUM_COMPACTORS && DeeperEmpty(levels, l)
    ensures Coverage(LiveTables(levels, c), l + 1) == 0
  {
    var live := LiveTables(levels, c);
    forall q | l + 1 <= q < |live| ensures live[q] == [] {
      assert live[q] == LiveAt(levels, c, q) && levels[q] == [];
    }
    NothingBelow(live, l + 1);
  }

  lemma {:induction false} NothingBelow(live: seq<seq<Sst>>, l: nat)
    requires forall q :: l <= q < |live| ==> live[q] == []
    ensures Coverage(live, l) == 0
    decreases |live| - l
  {
    if l < |live| { NothingBelow(live, l + 1); }
  }

  lemma LevelAppend(history: seq<Event>, ts: seq<Sst>, t: Sst)
    requires LevelOk(history, ts) && SstOk(history, t) && End(ts, t.lo) == t.lo
    ensures LevelOk(history, ts + [t])
  {
    ChainSnoc(ts, if ts == [] then t.lo else Start(ts), t);
  }

  lemma LevelDrop(history: seq<Event>, ts: seq<Sst>)
    requires LevelOk(history, ts)
    ensures LevelOk(history, WithoutOldest(ts))
  {
    if |ts| >= COMPACTION_TRIGGER {
      ChainSplit(ts, Start(ts), COMPACTION_TRIGGER);
      var r := ts[COMPACTION_TRIGGER..];
      assert Chain(r, Start(r));
    }
  }

  // ---------- preservation ----------

  lemma LaterKeepsTiling(history: seq<Event>, w: Event, levels: seq<seq<Sst>>, c: seq<CompactorPc>, top: nat)
    requires TilingInv(history, levels, c, top)
    ensures TilingInv(history + [w], levels, c, top)
  {
    forall l | 0 <= l < |levels| ensures LevelOk(history + [w], levels[l]) {
      assert LevelOk(history, levels[l]);
      forall i | 0 <= i < |levels[l]| ensures SstOk(history + [w], levels[l][i]) { SstOkLater(history, [w], levels[l][i]); }
    }
  }

  lemma PublishKeepsLevels(history: seq<Event>, levels: seq<seq<Sst>>, c: seq<CompactorPc>, t: Sst)
    requires TilingInv(history, levels, c, t.lo) && SstOk(history, t)
    ensures LevelsOk(history, levels[0 := levels[0] + [t]])
  {
    LastIsCoverage(levels, c, 0);
    assert LevelOk(history, levels[0]);
    LevelAppend(history, levels[0], t);
  }

  lemma PublishAppendsLive(history: seq<Event>, levels: seq<seq<Sst>>, c: seq<CompactorPc>, top: nat, t: Sst)
    requires TilingInv(history, levels, c, top)
    ensures LiveTables(levels[0 := levels[0] + [t]], c) == LiveTables(levels, c)[0 := LiveTables(levels, c)[0] + [t]]
  {
    assert c[Owner(0)] == Added(0) ==> Duplicated(levels[0], Coverage(LiveTables(levels, c), 1));
    LiveAppend(levels, c, 0, t);
  }

  lemma PublishKeepsTiling(history: seq<Event>, levels: seq<seq<Sst>>, c: seq<CompactorPc>, t: Sst)
    requires TilingInv(history, levels, c, t.lo) && SstOk(history, t)
    ensures TilingInv(history, levels[0 := levels[0] + [t]], c, t.hi)
  {
    var live, b := LiveTables(levels, c), levels[0 := levels[0] + [t]];
    PublishAppendsLive(history, levels, c, t.lo, t);
    PublishTiles(live, t);
    PublishKeepsLevels(history, levels, c, t);
    forall l | 0 <= l < MAX_LEVEL && c[Owner(l)] == Added(l) ensures Duplicated(b[l], Coverage(LiveTables(b, c), l + 1)) {
      assert Duplicated(levels[l], Coverage(live, l + 1));
    }
  }

  /** The state of a compactor about to publish its merge. */
  ghost predicate ReadyToAdd(history: seq<Event>, levels: seq<seq<Sst>>, c: seq<CompactorPc>, top: nat, l: nat) {
    && TilingInv(history, levels, c, top)
    && l < MAX_LEVEL
    && c[Owner(l)].Merging?
    && COMPACTION_TRIGGER <= |levels[l]|
    && c[Owner(l)].files == levels[l][..COMPACTION_TRIGGER]
    && (c[Owner(l)].drop ==> DeeperEmpty(levels, l))
  }

  /** Tombstones are dropped only from a merge that reaches back to the first write: no table outside
      the merge, on any level, holds anything older. */
  lemma DropReachesBack(history: seq<Event>, levels: seq<seq<Sst>>, c: seq<CompactorPc>, top: nat, l: nat)
    requires ReadyToAdd(history, levels, c, top, l)
    ensures c[Owner(l)].files[0].lo == Coverage(LiveTables(levels, c), l + 1)
    ensures c[Owner(l)].drop ==> c[Owner(l)].files[0].lo == 0
  {
    LiveUnmarked(levels, c, l);
    OldestBegins(LiveTables(levels, c), l);
    if c[Owner(l)].drop { DeeperLiveEmpty(levels, c, l); }
  }

  lemma OldestBegins(live: seq<seq<Sst>>, l: nat)
    requires Tiled(live) && l < |live| && live[l] != []
    ensures live[l][0].lo == Coverage(live, l + 1)
  {
    assert Chain(live[l], Coverage(live, l + 1));
  }

  lemma MergedTableOk(history: seq<Event>, levels: seq<seq<Sst>>, c: seq<CompactorPc>, top: nat, l: nat)
    requires ReadyToAdd(history, levels, c, top, l)
    ensures var t := MergeFiles(c[Owner(l)].files, c[Owner(l)].drop);
            SstOk(history, t) && t.lo == levels[l][0].lo && t.hi == levels[l][3].hi
    ensures levels[l][0].lo == Coverage(LiveTables(levels, c), l + 1)
  {
    DropReachesBack(history, levels, c, top, l);
    assert LevelOk(history, levels[l]);
    ChainSplit(levels[l], Start(levels[l]), COMPACTION_TRIGGER);
    MergeOk(history, c[Owner(l)].files, c[Owner(l)].drop);
  }

  /** Listing the merged table replaces, among the live tables, its four sources by itself. */
  lemma AddIsAfterMerge(history: seq<Event>, levels: seq<seq<Sst>>, c: seq<CompactorPc>, top: nat, l: nat, t: Sst)
    requires ReadyToAdd(history, levels, c, top, l)
    ensures |LiveTables(levels, c)[l]| >= COMPACTION_TRIGGER
    ensures LiveTables(levels[l + 1 := levels[l + 1] + [t]], c[Owner(l) := Added(l)]) == AfterMerge(LiveTables(levels, c), l, t)
  {
    var live := LiveTables(levels, c);
    assert live[l] == LiveAt(levels, c, l) == levels[l];
    assert l + 1 < MAX_LEVEL && c[Owner(l + 1)] == Added(l + 1) ==> Duplicated(levels[l + 1], Coverage(live, l + 2));
    LiveMark(levels, c, l);
    var d := c[Owner(l) := Added(l)];
    assert LiveAt(levels, d, l + 1) == LiveAt(levels, c, l + 1);
    LiveAppend(levels, d, l + 1, t);
  }

  lemma AddKeepsLevels(history: seq<Event>, levels: seq<seq<Sst>>, c: seq<CompactorPc>, top: nat, l: nat)
    requires ReadyToAdd(history, levels, c, top, l)
    ensures var t := MergeFiles(c[Owner(l)].files, c[Owner(l)].drop);
            LevelsOk(history, levels[l + 1 := levels[l + 1] + [t]])
  {
    var t := MergeFiles(c[Owner(l)].files, c[Owner(l)].drop);
    MergedTableOk(history, levels, c, top, l);
    LastIsCoverage(levels, c, l + 1);
    assert LevelOk(history, levels[l + 1]);
    LevelAppend(history, levels[l + 1], t);
  }

  lemma AddKeepsDuplicates(levels: seq<seq<Sst>>, c: seq<CompactorPc>, live: seq<seq<Sst>>, after: seq<seq<Sst>>, l: nat, t: Sst)
    requires DuplicatesOk(levels, c, live) && l < MAX_LEVEL && l + 1 < |levels| == |live| == |after|
    requires COMPACTION_TRIGGER <= |levels[l]| && t.hi == levels[l][3].hi == Coverage(after, l + 1)
    requires forall q :: 0 <= q <= |live| && q != l + 1 ==> Coverage(after, q) == Coverage(live, q)
    ensures DuplicatesOk(levels[l + 1 := levels[l + 1] + [t]], c[Owner(l) := Added(l)], after)
  {
    var b, d := levels[l + 1 := levels[l + 1] + [t]], c[Owner(l) := Added(l)];
    forall q | 0 <= q < MAX_LEVEL && q < |b| && d[Owner(q)] == Added(q) ensures Duplicated(b[q], Coverage(after, q + 1)) {
      if q != l { assert Duplicated(levels[q], Coverage(live, q + 1)); }
    }
  }

  lemma AddKeepsTiling(history: seq<Event>, levels: seq<seq<Sst>>, c: seq<CompactorPc>, top: nat, l: nat)
    requires ReadyToAdd(history, levels, c, top, l)
    ensures var t := MergeFiles(c[Owner(l)].files, c[Owner(l)].drop);
            TilingInv(history, levels[l + 1 := levels[l + 1] + [t]], c[Owner(l) := Added(l)], top)
  {
    var t, live := MergeFiles(c[Owner(l)].files, c[Owner(l)].drop), LiveTables(levels, c);
    MergedTableOk(history, levels, c, top, l);
    AddIsAfterMerge(history, levels, c, top, l, t);
    LiveUnmarked(levels, c, l);
    MergeTiles(live, l, t);
    MergeCoverage(live, l, t);
    AddKeepsLevels(history, levels, c, top, l);
    AddKeepsDuplicates(levels, c, live, AfterMerge(live, l, t), l, t);
  }

  lemma RemoveKeepsLevels(history: seq<Event>, levels: seq<seq<Sst>>, l: nat)
    requires LevelsOk(history, levels) && l < |levels|
    ensures LevelsOk(history, levels[l := WithoutOldest(levels[l])])
  {
    assert LevelOk(history, levels[l]);
    LevelDrop(history, levels[l]);
  }

  lemma RemoveKeepsDuplicates(levels: seq<seq<Sst>>, c: seq<CompactorPc>, live: seq<seq<Sst>>, l: nat)
    requires DuplicatesOk(levels, c, live) && l < |levels| && l < MAX_LEVEL && c[Owner(l)] == Added(l)
    ensures DuplicatesOk(levels[l := WithoutOldest(levels[l])], c[Owner(l) := Removed(l)], live)
  {
    var b, d := levels[l := WithoutOldest(levels[l])], c[Owner(l) := Removed(l)];
    forall q | 0 <= q < MAX_LEVEL && q < |b| && d[Owner(q)] == Added(q) ensures Duplicated(b[q], Coverage(live, q + 1)) {
      assert Duplicated(levels[q], Coverage(live, q + 1));
    }
  }

  lemma RemoveKeepsTiling(history: seq<Event>, levels: seq<seq<Sst>>, c: seq<CompactorPc>, top: nat, l: nat)
    requires TilingInv(history, levels, c, top) && l < MAX_LEVEL && c[Owner(l)] == Added(l)
    ensures TilingInv(history, levels[l := WithoutOldest(levels[l])], c[Owner(l) := Removed(l)], top)
  {
    LiveRemove(levels, c, l);
    RemoveKeepsLevels(history, levels, l);
    RemoveKeepsDuplicates(levels, c, LiveTables(levels, c), l);
  }

  lemma PassKeepsTiling(history: seq<Event>, levels: seq<seq<Sst>>, c: seq<CompactorPc>, top: nat, i: nat, pc: CompactorPc)
    requires TilingInv(history, levels, c, top) && i < NUM_COMPACTORS && !c[i].Added? && !pc.Added?
    ensures TilingInv(history, levels, c[i := pc], top)
  {
    LiveSame(levels, c, i, pc);
  }
}
