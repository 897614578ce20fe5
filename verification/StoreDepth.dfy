/** How deep the store reaches: the shared maximum, and which merges leave tombstones out. */
module StoreDepth {
  import opened Entries
  import opened StoreModel
  import opened StoreInvariant
  import opened StoreMemory
  import opened StoreSafety
  import opened StoreTheorems
  import opened Threads

  /** Level `q` or a deeper one holds a table. */
  ghost predicate TableFrom(levels: seq<seq<Sst>>, q: nat) {
    exists p :: q <= p < |levels| && levels[p] != []
  }

  ghost predicate PcDepth(levels: seq<seq<Sst>>, maxLevel: nat, pc: CompactorPc) {
    && (pc.Added? || pc.Removed? || pc.Bumping? ==> TableFrom(levels, pc.level + 1))
    && (pc.Merging? && !pc.drop ==> pc.level < maxLevel)
  }

  /** A maximum above 0 is reached, and so is the level behind one that has just been merged. */
  ghost predicate DepthInv(levels: seq<seq<Sst>>, c: seq<CompactorPc>, maxLevel: nat) {
    && |c| == NUM_COMPACTORS && (maxLevel > 0 ==> TableFrom(levels, maxLevel))
    && forall i :: 0 <= i < NUM_COMPACTORS ==> PcDepth(levels, maxLevel, c[i])
  }

  /** Tables are only added. */
  lemma AddingKeepsTables(a: seq<seq<Sst>>, b: seq<seq<Sst>>, q: nat)
    requires TableFrom(a, q) && |a| == |b| && forall p :: 0 <= p < |a| && a[p] != [] ==> b[p] != []
    ensures TableFrom(b, q)
  {
    var p :| q <= p < |a| && a[p] != [];
    assert b[p] != [];
  }

  /** What is removed from level `l` has been merged into a deeper level. */
  lemma RemovingKeepsTables(levels: seq<seq<Sst>>, l: nat, ts: seq<Sst>, q: nat)
    requires TableFrom(levels, q) && l < |levels| && TableFrom(levels, l + 1)
    ensures TableFrom(levels[l := ts], q)
  {
    var b := levels[l := ts];
    var p :| q <= p < |levels| && levels[p] != [];
    if p == l {
      var d :| l + 1 <= d < |levels| && levels[d] != [];
      assert b[d] != [];
    } else {
      assert b[p] != [];
    }
  }

  lemma PublishKeepsDepth(s: State, step: FlusherStep)
    requires WellFormed(s) && FlusherEnabled(s, step) && DepthInv(s.levels, s.c, s.maxLevel)
    ensures var t := FlusherApply(s, step); DepthInv(t.levels, t.c, t.maxLevel)
  {
    hide TableFrom;
    var t := FlusherApply(s, step);
    forall q | TableFrom(s.levels, q) ensures TableFrom(t.levels, q) { AddingKeepsTables(s.levels, t.levels, q); }
    forall i | 0 <= i < NUM_COMPACTORS ensures PcDepth(t.levels, t.maxLevel, t.c[i]) {
      assert PcDepth(s.levels, s.maxLevel, s.c[i]);
    }
  }

  lemma LevelsKeepDepth(s: State, i: nat, step: CompactorStep, q: nat)
    requires WellFormed(s) && CompactorEnabled(s, i, step) && DepthInv(s.levels, s.c, s.maxLevel) && TableFrom(s.levels, q)
    ensures TableFrom(CompactorApply(s, i, step).levels, q)
  {
    hide TableFrom, MergeFiles;
    var t := CompactorApply(s, i, step);
    assert PcDepth(s.levels, s.maxLevel, s.c[i]);
    if step == RemoveMerged {
      RemovingKeepsTables(s.levels, s.c[i].level, t.levels[s.c[i].level], q);
    } else {
      AddingKeepsTables(s.levels, t.levels, q);
    }
  }

  lemma OwnDepth(s: State, i: nat, step: CompactorStep)
    requires WellFormed(s) && CompactorInv(s.levels, s.c, s.maxLevel) && CompactorEnabled(s, i, step)
    requires DepthInv(s.levels, s.c, s.maxLevel)
    ensures var t := CompactorApply(s, i, step); PcDepth(t.levels, t.maxLevel, t.c[i])
  {
    hide TableFrom, MergeFiles;
    var t := CompactorApply(s, i, step);
    assert CompactorOk(s.levels, s.maxLevel, i, s.c[i]) && PcDepth(s.levels, s.maxLevel, s.c[i]);
    if step == AddMerged { LastTable(t.levels, s.c[i].level + 1); }
    if step == RemoveMerged || step == CompareMaxLevel { LevelsKeepDepth(s, i, step, s.c[i].level + 1); }
  }

  lemma LastTable(levels: seq<seq<Sst>>, p: nat)
    requires p < |levels| && levels[p] != []
    ensures TableFrom(levels, p)
  {
  }

  lemma CompactorKeepsDepth(s: State, i: nat, step: CompactorStep)
    requires WellFormed(s) && CompactorInv(s.levels, s.c, s.maxLevel) && CompactorEnabled(s, i, step)
    requires DepthInv(s.levels, s.c, s.maxLevel)
    ensures var t := CompactorApply(s, i, step); DepthInv(t.levels, t.c, t.maxLevel)
  {
    hide TableFrom, CompactorInv, NextLevels;
    var t := CompactorApply(s, i, step);
    forall q | TableFrom(s.levels, q) ensures TableFrom(t.levels, q) { LevelsKeepDepth(s, i, step, q); }
    forall j | 0 <= j < NUM_COMPACTORS ensures PcDepth(t.levels, t.maxLevel, t.c[j]) {
      assert PcDepth(s.levels, s.maxLevel, s.c[j]) && PcDepth(s.levels, s.maxLevel, s.c[i]);
      if j == i { OwnDepth(s, i, step); } else { RaiseOnly(s, i, step); }
    }
    if step == StoreMaxLevel { assert PcDepth(s.levels, s.maxLevel, s.c[i]); }
  }

  /** The maximum never falls. */
  lemma RaiseOnly(s: State, i: nat, step: CompactorStep)
    requires WellFormed(s) && CompactorInv(s.levels, s.c, s.maxLevel) && CompactorEnabled(s, i, step)
    ensures s.maxLevel <= CompactorApply(s, i, step).maxLevel
  {
    assert CompactorOk(s.levels, s.maxLevel, i, s.c[i]);
  }

  lemma StepKeepsDepth(s: State, step: Step)
    requires Inv(s) && Enabled(s, step) && DepthInv(s.levels, s.c, s.maxLevel)
    ensures var t := Apply(s, step); DepthInv(t.levels, t.c, t.maxLevel)
  {
    hide Inv, TableSideInv, MemorySideInv, ReaderSideInv, DepthInv, CompactorInv;
    Sides(s);
    WellFormedFrom(s);
    CompactorSideHolds(s);
    match step {
      case Client(_) =>
      case Writer(_) =>
      case Flusher(x) => PublishKeepsDepth(s, x);
      case Compactor(i, x) => CompactorKeepsDepth(s, i, x);
    }
  }

  lemma {:induction false} RunDepth(states: seq<State>, steps: seq<Step>, n: nat)
    requires IsRun(states, steps) && n < |states|
    ensures DepthInv(states[n].levels, states[n].c, states[n].maxLevel)
  {
    hide Inv, Apply, Enabled;
    if n > 0 {
      RunDepth(states, steps, n - 1);
      RunInv(states, steps, n - 1);
      assert Next(states[n - 1], steps[n - 1], states[n]);
      StepKeepsDepth(states[n - 1], steps[n - 1]);
    }
  }

  lemma ReachableDepth(s: State)
    requires Reachable(s)
    ensures WellFormed(s) && CompactorInv(s.levels, s.c, s.maxLevel) && DepthInv(s.levels, s.c, s.maxLevel)
  {
    hide Inv, Next, DepthInv, TableSideInv, MemorySideInv, ReaderSideInv, CompactorInv;
    var states, steps :| IsRun(states, steps) && states[|steps|] == s;
    RunEnds(states, steps);
    RunDepth(states, steps, |steps|);
    ReachableInv(s);
    Sides(s);
    CompactorSideHolds(s);
  }

  /** A merge leaves tombstones out if and only if no deeper level holds a table. */
  lemma DropsIffDeepest(s: State, i: nat)
    requires Reachable(s) && i < NUM_COMPACTORS && s.c[i].Merging?
    ensures s.c[i].drop <==> DeeperEmpty(s.levels, s.c[i].level)
  {
    hide Inv, IsRun;
    ReachableDepth(s);
    assert CompactorOk(s.levels, s.maxLevel, i, s.c[i]) && PcDepth(s.levels, s.maxLevel, s.c[i]);
  }

  /** Unless a merge has just been listed, the shared maximum is the deepest level that holds a table. */
  lemma MaximumIsDepth(s: State)
    requires Reachable(s) && forall i :: 0 <= i < NUM_COMPACTORS ==> !s.c[i].Added? && !s.c[i].Removed? && !s.c[i].Bumping?
    ensures s.maxLevel <= MAX_LEVEL && DeeperEmpty(s.levels, s.maxLevel)
    ensures s.maxLevel > 0 ==> s.levels[s.maxLevel] != []
  {
    hide Inv, IsRun;
    ReachableDepth(s);
    forall p | s.maxLevel < p < |s.levels| ensures s.levels[p] == [] {
      assert BeyondMaximum(s.levels, s.c, s.maxLevel, p);
    }
  }

  /** What a merge makes of key `k` is the version in the newest of its files that has one, unless that is a tombstone
      and tombstones are left out. */
  ghost predicate NewestOf(files: seq<Sst>, k: Key, drop: bool, e: Option<Entry>) {
    if forall j :: 0 <= j < |files| ==> k !in files[j].contents then e == None
    else exists j :: 0 <= j < |files| && k in files[j].contents
           && (forall m :: j < m < |files| ==> k !in files[m].contents)
           && e == (if drop && files[j].contents[k] == Tombstone then None else Some(files[j].contents[k]))
  }

  lemma OneNewest(files: seq<Sst>, k: Key, j: nat)
    requires j < |files| && k in files[j].contents && forall m :: j < m < |files| ==> k !in files[m].contents
    ensures NewestOf(files, k, false, Some(files[j].contents[k]))
  {
  }

  lemma NewestSnoc(files: seq<Sst>, t: Sst, k: Key, e: Option<Entry>)
    requires NewestOf(files, k, false, e)
    ensures NewestOf(files + [t], k, false, if k in t.contents then Some(t.contents[k]) else e)
  {
    var all := files + [t];
    if k in t.contents {
      OneNewest(all, k, |files|);
    } else if j :| 0 <= j < |files| && k in files[j].contents && (forall m :: j < m < |files| ==> k !in files[m].contents)
                   && e == Some(files[j].contents[k]) {
      assert all[j] == files[j];
      OneNewest(all, k, j);
    }
  }

  lemma {:induction false} NewestInUnion(files: seq<Sst>, k: Key)
    ensures NewestOf(files, k, false, Lookup(NewestWins(Contents(files)), k))
  {
    if files != [] {
      hide NewestOf;
      var n := |files| - 1;
      NewestInUnion(files[..n], k);
      assert Contents(files)[..n] == Contents(files[..n]) && files[..n] + [files[n]] == files;
      NewestSnoc(files[..n], files[n], k, Lookup(NewestWins(Contents(files[..n])), k));
    }
  }

  lemma NewestInMerge(files: seq<Sst>, drop: bool, k: Key)
    requires files != []
    ensures NewestOf(files, k, drop, Lookup(MergeFiles(files, drop).contents, k))
  {
    NewestInUnion(files, k);
  }

  /** The table a compactor lists has for every key the newest version among the four oldest tables of its level, and
      no tombstone if and only if no deeper level holds a table. */
  lemma MergeIsNewest(s: State, i: nat, k: Key)
    requires Reachable(s) && CompactorEnabled(s, i, AddMerged)
    ensures s.c[i].level < MAX_LEVEL && COMPACTION_TRIGGER <= |s.levels[s.c[i].level]|
    ensures var t, l := CompactorApply(s, i, AddMerged), s.c[i].level;
            && |t.levels[l + 1]| == |s.levels[l + 1]| + 1 && t.levels[l + 1][..|s.levels[l + 1]|] == s.levels[l + 1]
            && NewestOf(s.levels[l][..COMPACTION_TRIGGER], k, DeeperEmpty(s.levels, l),
                        Lookup(t.levels[l + 1][|s.levels[l + 1]|].contents, k))
  {
    hide Inv, IsRun, NewestOf, MergeFiles, DeeperEmpty;
    ReachableDepth(s);
    DropsIffDeepest(s, i);
    assert CompactorOk(s.levels, s.maxLevel, i, s.c[i]);
    NewestInMerge(s.c[i].files, s.c[i].drop, k);
  }
}
