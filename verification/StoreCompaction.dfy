/** The compactors, their shared maximum level, and when tombstones may be dropped. */
module StoreCompaction {
  import opened StoreModel
  import opened StoreInvariant

  lemma OwnerOfWork(i: nat, l: nat)
    requires i < NUM_COMPACTORS && Lower(i) <= l < Higher(i)
    ensures Owner(l) == i && l < MAX_LEVEL
  {
  }

  /** When a compactor reads a maximum equal to its own level, every deeper level is empty: although the
      three compactors update the maximum in two separate steps, it never lags behind a merge it matters to. */
  lemma MaximumIsTruthful(levels: seq<seq<Sst>>, c: seq<CompactorPc>, maxLevel: nat, i: nat)
    requires CompactorInv(levels, c, maxLevel) && i < NUM_COMPACTORS && c[i].Chosen? && c[i].level == maxLevel
    ensures DeeperEmpty(levels, maxLevel)
  {
    OwnerOfWork(i, maxLevel);
    assert CompactorOk(levels, maxLevel, i, c[i]);
    forall p | maxLevel < p < |levels| ensures levels[p] == [] {
      assert BeyondMaximum(levels, c, maxLevel, p);
      assert CompactorOk(levels, maxLevel, Owner(p - 1), c[Owner(p - 1)]);
    }
  }

  lemma PublishKeepsCompactors(levels: seq<seq<Sst>>, c: seq<CompactorPc>, maxLevel: nat, t: Sst)
    requires CompactorInv(levels, c, maxLevel)
    ensures CompactorInv(levels[0 := levels[0] + [t]], c, maxLevel)
  {
    var b := levels[0 := levels[0] + [t]];
    forall i | 0 <= i < NUM_COMPACTORS ensures CompactorOk(b, maxLevel, i, c[i]) {
      assert CompactorOk(levels, maxLevel, i, c[i]);
    }
    forall l | 0 < l < |b| ensures BeyondMaximum(b, c, maxLevel, l) {
      assert BeyondMaximum(levels, c, maxLevel, l);
    }
  }

  /** A step of compactor `i` to `pc` that leaves the tables and the maximum alone. */
  lemma PassKeepsCompactors(levels: seq<seq<Sst>>, c: seq<CompactorPc>, maxLevel: nat, i: nat, pc: CompactorPc)
    requires CompactorInv(levels, c, maxLevel) && i < NUM_COMPACTORS
    requires CompactorOk(levels, maxLevel, i, pc)
    requires forall l :: l + 1 > maxLevel && Landing(c[i], l) ==> Landing(pc, l)
    ensures CompactorInv(levels, c[i := pc], maxLevel)
  {
    var d := c[i := pc];
    forall j | 0 <= j < NUM_COMPACTORS ensures CompactorOk(levels, maxLevel, j, d[j]) {
      assert CompactorOk(levels, maxLevel, j, c[j]);
    }
    forall l | 0 < l < |levels| ensures BeyondMaximum(levels, d, maxLevel, l) {
      assert BeyondMaximum(levels, c, maxLevel, l);
    }
  }

  lemma AddKeepsOthers(levels: seq<seq<Sst>>, c: seq<CompactorPc>, maxLevel: nat, i: nat, j: nat, t: Sst)
    requires CompactorInv(levels, c, maxLevel) && i < NUM_COMPACTORS && j < NUM_COMPACTORS && i != j && c[i].Merging?
    requires c[i].level < MAX_LEVEL
    ensures var l := c[i].level; CompactorOk(levels[l + 1 := levels[l + 1] + [t]], maxLevel, j, c[j])
  {
    assert CompactorOk(levels, maxLevel, i, c[i]) && CompactorOk(levels, maxLevel, j, c[j]);
    var l := c[i].level;
    assert COMPACTION_TRIGGER <= |levels[l]|;
  }

  lemma AddKeepsCompactors(levels: seq<seq<Sst>>, c: seq<CompactorPc>, maxLevel: nat, i: nat, t: Sst)
    requires CompactorInv(levels, c, maxLevel) && i < NUM_COMPACTORS && c[i].Merging? && c[i].level < MAX_LEVEL
    ensures var l := c[i].level; CompactorInv(levels[l + 1 := levels[l + 1] + [t]], c[i := Added(l)], maxLevel)
  {
    var l := c[i].level;
    var b, d := levels[l + 1 := levels[l + 1] + [t]], c[i := Added(l)];
    assert CompactorOk(levels, maxLevel, i, c[i]);
    OwnerOfWork(i, l);
    forall j | 0 <= j < NUM_COMPACTORS ensures CompactorOk(b, maxLevel, j, d[j]) {
      if j != i { AddKeepsOthers(levels, c, maxLevel, i, j, t); }
    }
    forall p | 0 < p < |b| ensures BeyondMaximum(b, d, maxLevel, p) {
      assert BeyondMaximum(levels, c, maxLevel, p);
    }
  }

  lemma RemoveKeepsCompactors(levels: seq<seq<Sst>>, c: seq<CompactorPc>, maxLevel: nat, i: nat)
    requires CompactorInv(levels, c, maxLevel) && i < NUM_COMPACTORS && c[i].Added? && c[i].level <= MAX_LEVEL
    ensures var l := c[i].level; CompactorInv(levels[l := WithoutOldest(levels[l])], c[i := Removed(l)], maxLevel)
  {
    var l := c[i].level;
    var b, d := levels[l := WithoutOldest(levels[l])], c[i := Removed(l)];
    assert CompactorOk(levels, maxLevel, i, c[i]);
    OwnerOfWork(i, l);
    forall j | 0 <= j < NUM_COMPACTORS ensures CompactorOk(b, maxLevel, j, d[j]) {
      assert CompactorOk(levels, maxLevel, j, c[j]);
    }
    forall p | 0 < p < |b| ensures BeyondMaximum(b, d, maxLevel, p) {
      assert BeyondMaximum(levels, c, maxLevel, p);
    }
  }

  /** The maximum only grows, by one, and only one compactor at a time is about to raise it. */
  lemma StoreKeepsCompactors(levels: seq<seq<Sst>>, c: seq<CompactorPc>, maxLevel: nat, i: nat)
    requires CompactorInv(levels, c, maxLevel) && i < NUM_COMPACTORS && c[i].Bumping?
    ensures c[i].level == maxLevel
    ensures CompactorInv(levels, c[i := Rechecking(maxLevel)], maxLevel + 1)
  {
    var d, raised := c[i := Rechecking(maxLevel)], maxLevel + 1;
    assert CompactorOk(levels, maxLevel, i, c[i]);
    forall j | 0 <= j < NUM_COMPACTORS ensures CompactorOk(levels, raised, j, d[j]) {
      assert CompactorOk(levels, maxLevel, j, c[j]);
    }
    OwnerOfWork(i, maxLevel);
    forall p | 0 < p < |levels| ensures BeyondMaximum(levels, d, raised, p) {
      assert BeyondMaximum(levels, c, maxLevel, p);
    }
  }

  lemma NextPcOk(s: State, i: nat, step: CompactorStep)
    requires WellFormed(s) && CompactorInv(s.levels, s.c, s.maxLevel) && CompactorEnabled(s, i, step)
    requires step != AddMerged && step != RemoveMerged && step != StoreMaxLevel
    ensures CompactorOk(s.levels, s.maxLevel, i, NextPc(s, i, step))
  {
    assert CompactorOk(s.levels, s.maxLevel, i, s.c[i]);
    if step.CheckSize? && i > 0 {
      assert BeyondMaximum(s.levels, s.c, s.maxLevel, Lower(i));
    }
    if step == ReadMaxLevel && s.c[i].level == s.maxLevel {
      MaximumIsTruthful(s.levels, s.c, s.maxLevel, i);
    }
  }

  lemma CompactorsKept(s: State, i: nat, step: CompactorStep)
    requires WellFormed(s) && CompactorInv(s.levels, s.c, s.maxLevel) && CompactorEnabled(s, i, step)
    ensures var t := CompactorApply(s, i, step); CompactorInv(t.levels, t.c, t.maxLevel)
  {
    if step == AddMerged {
      AddKeepsCompactors(s.levels, s.c, s.maxLevel, i, MergeFiles(s.c[i].files, s.c[i].drop));
    } else if step == RemoveMerged {
      RemoveKeepsCompactors(s.levels, s.c, s.maxLevel, i);
    } else if step == StoreMaxLevel {
      StoreKeepsCompactors(s.levels, s.c, s.maxLevel, i);
    } else {
      NextPcOk(s, i, step);
      PassKeepsCompactors(s.levels, s.c, s.maxLevel, i, NextPc(s, i, step));
    }
  }
}
