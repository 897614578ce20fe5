/** What a compactor has done between its wakeup and its next sleep, in every run. */
module Rounds {
  import opened Entries
  import opened StoreModel
  import opened StoreInvariant
  import opened StoreMemory
  import opened StoreSafety
  import opened StoreTheorems
  import opened Threads
  import opened StoreDepth

  /** The step from `s` to `t` puts the merge of `files`, taken from level `l`, behind the tables of the level below; with
      tombstones left out exactly if no deeper level holds a table. */
  ghost predicate ListsMerge(s: State, t: State, i: nat, l: nat, files: seq<Sst>) {
    && WellFormed(s) && WellFormed(t) && i < NUM_COMPACTORS && l < MAX_LEVEL && files != []
    && t.levels == s.levels[l + 1 := s.levels[l + 1] + [MergeFiles(files, DeeperEmpty(s.levels, l))]]
  }

  /** The step from `s` to `t` takes `files` from the front of level `l`. */
  ghost predicate RemovesFront(s: State, t: State, l: nat, files: seq<Sst>) {
    && WellFormed(s) && WellFormed(t) && l < MAX_LEVEL && |files| == COMPACTION_TRIGGER
    && files <= s.levels[l] && t.levels == s.levels[l := s.levels[l][COMPACTION_TRIGGER..]]
  }

  /** The merge that compactor `i` has listed at `p` and not yet removed the sources of at `n`. */
  ghost predicate ListedSince(states: seq<State>, p: nat, n: nat, i: nat, l: nat) {
    && p < n < |states| && i < NUM_COMPACTORS && l < MAX_LEVEL
    && (forall k :: p < k <= n ==> WellFormed(states[k]) && states[k].c[i] == Added(l))
    && WellFormed(states[p]) && COMPACTION_TRIGGER <= |states[p].levels[l]| && states[p].levels[l] <= states[n].levels[l]
    && ListsMerge(states[p], states[p + 1], i, l, states[p].levels[l][..COMPACTION_TRIGGER])
  }

  lemma AddLists(s: State, i: nat)
    requires WellFormed(s) && CompactorInv(s.levels, s.c, s.maxLevel) && CompactorEnabled(s, i, AddMerged)
    requires s.c[i].drop <==> DeeperEmpty(s.levels, s.c[i].level)
    ensures var t, l := CompactorApply(s, i, AddMerged), s.c[i].level;
            && l < MAX_LEVEL && t.c[i] == Added(l) && t.levels[l] == s.levels[l] && COMPACTION_TRIGGER <= |s.levels[l]|
            && ListsMerge(s, t, i, l, s.levels[l][..COMPACTION_TRIGGER])
  {
    hide MergeFiles, DeeperEmpty;
    assert CompactorOk(s.levels, s.maxLevel, i, s.c[i]);
  }

  lemma OnlyAddLeadsToAdded(s: State, i: nat, step: CompactorStep)
    requires WellFormed(s) && CompactorEnabled(s, i, step) && step != AddMerged
    ensures !CompactorApply(s, i, step).c[i].Added?
  {
  }

  lemma AddedOwns(s: State, i: nat)
    requires Inv(s) && i < NUM_COMPACTORS && WellFormed(s) && s.c[i].Added?
    ensures s.c[i].level < MAX_LEVEL && Owner(s.c[i].level) == i
  {
    hide Inv, MemorySideInv, ReaderSideInv, TilingInv, WakeInv, CompactorInv, Weight;
    Sides(s);
    AddedOwnsLevel(s, i);
  }

  lemma AddedHere(s: State, i: nat)
    requires Reachable(s) && CompactorEnabled(s, i, AddMerged)
    ensures var t, l := CompactorApply(s, i, AddMerged), s.c[i].level;
            && l < MAX_LEVEL && t.c[i] == Added(l) && t.levels[l] == s.levels[l] && COMPACTION_TRIGGER <= |s.levels[l]|
            && ListsMerge(s, t, i, l, s.levels[l][..COMPACTION_TRIGGER])
  {
    hide Inv, IsRun, ListsMerge, CompactorInv, DeeperEmpty;
    ReachableDepth(s);
    DropsIffDeepest(s, i);
    AddLists(s, i);
  }

  lemma AddedStays(s: State, step: Step, i: nat)
    requires Reachable(s) && Enabled(s, step) && step != Compactor(i, AddMerged) && i < NUM_COMPACTORS
    requires Apply(s, step).c[i].Added?
    ensures var t := Apply(s, step);
            && s.c[i] == t.c[i] && t.c[i].level < MAX_LEVEL && s.levels[t.c[i].level] <= t.levels[t.c[i].level]
  {
    hide Inv, IsRun;
    ReachableInv(s);
    if step.Compactor? && step.i == i {
      OnlyAddLeadsToAdded(s, i, step.compactor);
    } else {
      OthersLeave(TheCompactor(i), s, step);
      AddedOwns(s, i);
    }
  }

  lemma {:induction false} ListedBefore(states: seq<State>, steps: seq<Step>, i: nat, n: nat) returns (p: nat)
    requires IsRun(states, steps) && n < |states| && i < NUM_COMPACTORS && WellFormed(states[n]) && states[n].c[i].Added?
    ensures ListedSince(states, p, n, i, states[n].c[i].level)
    decreases n
  {
    hide Inv, ListsMerge, Enabled, Apply, CompactorApply, CompactorEnabled, Reachable;
    if n == 0 {
      assert false;
    } else {
      var s, l := states[n - 1], states[n].c[i].level;
      IsReachable(states, steps, n - 1);
      assert Next(s, steps[n - 1], states[n]);
      if steps[n - 1] == Compactor(i, AddMerged) {
        p := n - 1;
        CompactorTook(s, steps[n - 1]);
        AddedHere(s, i);
      } else {
        AddedStays(s, steps[n - 1], i);
        p := ListedBefore(states, steps, i, n - 1);
      }
    }
  }

  lemma CompactorTook(s: State, step: Step)
    requires WellFormed(s) && Enabled(s, step) && step.Compactor?
    ensures CompactorEnabled(s, step.i, step.compactor) && Apply(s, step) == CompactorApply(s, step.i, step.compactor)
  {
  }

  /** Nothing is removed that is not merged: the tables a compactor takes from a level are the front that it has merged
      before, and their merge is listed one level down since the compactor's last step. */
  lemma RemovedWasMerged(states: seq<State>, steps: seq<Step>, i: nat, q: nat) returns (p: nat, l: nat)
    requires IsRun(states, steps) && q < |steps| && steps[q] == Compactor(i, RemoveMerged)
    ensures p < q && WellFormed(states[p]) && l < |states[p].levels| && COMPACTION_TRIGGER <= |states[p].levels[l]|
    ensures var files := states[p].levels[l][..COMPACTION_TRIGGER];
            ListsMerge(states[p], states[p + 1], i, l, files) && RemovesFront(states[q], states[q + 1], l, files)
    ensures forall k :: p < k <= q ==> WellFormed(states[k]) && i < NUM_COMPACTORS && states[k].c[i] == Added(l)
  {
    hide Inv, ListsMerge, Enabled, Apply, MergeFiles;
    assert Next(states[q], steps[q], states[q + 1]);
    CompactorTook(states[q], steps[q]);
    l := states[q].c[i].level;
    p := ListedBefore(states, steps, i, q);
  }

  /** Compactor `i` has woken up, and has not yet removed the tables its lowest level had then. */
  ghost predicate FirstMerge(s: State, i: nat, was: seq<Sst>) {
    && WellFormed(s) && i < NUM_COMPACTORS && was <= s.levels[i]
    && (s.c[i] == Checking || (BeforeRemoval(s.c[i]) && s.c[i].level == i))
  }

  lemma FirstMergeGoesOn(s: State, step: Step, i: nat, was: seq<Sst>)
    requires Reachable(s) && Enabled(s, step) && FirstMerge(s, i, was) && COMPACTION_TRIGGER <= |was|
    ensures step != Compactor(i, RemoveMerged) ==> FirstMerge(Apply(s, step), i, was)
    ensures step == Compactor(i, RemoveMerged) ==> s.c[i].Added? && s.c[i].level == i
  {
    hide Inv, IsRun;
    if step.Compactor? && step.i == i {
      OwnStepGoesOn(s, i, step.compactor, was);
    } else {
      OthersLeave(TheCompactor(i), s, step);
    }
  }

  lemma OwnStepGoesOn(s: State, i: nat, step: CompactorStep, was: seq<Sst>)
    requires WellFormed(s) && CompactorEnabled(s, i, step) && FirstMerge(s, i, was) && COMPACTION_TRIGGER <= |was|
    ensures step != RemoveMerged ==> FirstMerge(CompactorApply(s, i, step), i, was)
    ensures step == RemoveMerged ==> s.c[i].Added? && s.c[i].level == i
  {
  }

  /** The step that first removes the tables the lowest level had at the wakeup. */
  lemma {:induction false} FirstRemoval(states: seq<State>, steps: seq<Step>, i: nat, a: nat, n: nat, was: seq<Sst>) returns (q: nat)
    requires IsRun(states, steps) && a <= n < |states| && i < NUM_COMPACTORS && COMPACTION_TRIGGER <= |was|
    requires FirstMerge(states[a], i, was) && WellFormed(states[n]) && states[n].c[i] == Idle
    ensures a <= q < n && steps[q] == Compactor(i, RemoveMerged)
    ensures WellFormed(states[q]) && was <= states[q].levels[i] && states[q].c[i] == Added(i)
    decreases n - a
  {
    hide Inv, Enabled, Apply, Reachable;
    if a < n {
      IsReachable(states, steps, a);
      assert Next(states[a], steps[a], states[a + 1]);
      FirstMergeGoesOn(states[a], steps[a], i, was);
      if steps[a] == Compactor(i, RemoveMerged) { q := a; } else { q := FirstRemoval(states, steps, i, a + 1, n, was); }
    }
  }

  lemma WakeupChecks(s: State, i: nat, t: State)
    requires Next(s, Compactor(i, BeginCompaction), t)
    ensures i < NUM_COMPACTORS && FirstMerge(t, i, s.levels[i]) && t.c[i] == Checking
  {
  }

  /** A compactor that takes its signal while its lowest level has four tables does not sleep again before it has listed
      the merge of exactly the four oldest of them one level down, and then removed exactly them. */
  lemma WakeupMerges(states: seq<State>, steps: seq<Step>, i: nat, a: nat, n: nat) returns (p: nat, q: nat)
    requires IsRun(states, steps) && a < n < |states| && steps[a] == Compactor(i, BeginCompaction)
    requires i < NUM_COMPACTORS && WellFormed(states[a]) && COMPACTION_TRIGGER <= |states[a].levels[i]|
    requires WellFormed(states[n]) && states[n].c[i] == Idle
    ensures a < p < q < n
    ensures var files := states[a].levels[i][..COMPACTION_TRIGGER];
            ListsMerge(states[p], states[p + 1], i, i, files) && RemovesFront(states[q], states[q + 1], i, files)
  {
    hide Inv, Enabled, Apply, ListsMerge;
    assert Next(states[a], steps[a], states[a + 1]);
    WakeupChecks(states[a], i, states[a + 1]);
    q := FirstRemoval(states, steps, i, a + 1, n, states[a].levels[i]);
    var l;
    p, l := RemovedWasMerged(states, steps, i, q);
    assert states[q].c[i] == Added(l);
    assert states[a + 1].c[i] != Added(l);
    assert states[p].levels[i][..COMPACTION_TRIGGER] == states[a].levels[i][..COMPACTION_TRIGGER];
  }

  /** Between `from` and `to` the merge of `files` is listed below level `l`, and then `files` are removed from it. */
  ghost predicate Merges(states: seq<State>, i: nat, from: nat, to: nat, p: nat, q: nat, files: seq<Sst>) {
    && from <= p < q < to < |states|
    && ListsMerge(states[p], states[p + 1], i, i, files) && RemovesFront(states[q], states[q + 1], i, files)
  }

  /** Why a compactor goes to sleep: the level it would merge next has too few tables, or there is no deeper level, or
      the next level is the next compactor's, whose signal it has just set. */
  ghost predicate SleepsAt(s: State, t: State, i: nat, saturate: bool) {
    && WellFormed(s) && WellFormed(t) && i < NUM_COMPACTORS && t.c[i] == Idle && t.levels == s.levels
    && match s.c[i]
       case Checking => |s.levels[i]| < COMPACTION_TRIGGER && t.start == s.start
       case Rechecking(l) => l < MAX_LEVEL && (|s.levels[l + 1]| < COMPACTION_TRIGGER || l + 1 == MAX_LEVEL) && t.start == s.start
       case Notifying(l) => i < 2 && l == i && t.start == s.start[i + 1 := Release(s.start[i + 1], saturate)]
       case _ => false
  }

  lemma RoundMerges(states: seq<State>, steps: seq<Step>, i: nat, a: nat)
    requires IsRun(states, steps) && a < |steps| && steps[a] == Compactor(i, BeginCompaction)
    requires i < NUM_COMPACTORS && WellFormed(states[a]) && WellFormed(states[|steps|]) && states[|steps|].c[i] == Idle
    ensures COMPACTION_TRIGGER <= |states[a].levels[i]| ==>
              exists p, q :: Merges(states, i, a, |steps|, p, q, states[a].levels[i][..COMPACTION_TRIGGER])
  {
    if COMPACTION_TRIGGER <= |states[a].levels[i]| {
      var p, q := WakeupMerges(states, steps, i, a, |steps|);
      assert Merges(states, i, a, |steps|, p, q, states[a].levels[i][..COMPACTION_TRIGGER]);
    }
  }

  lemma Sleeps(s: State, i: nat, saturate: bool)
    requires WellFormed(s) && CompactorInv(s.levels, s.c, s.maxLevel) && i < NUM_COMPACTORS && s.c[i] != Idle
    requires Enabled(s, Compactor(i, NextCompactorStep(s.c[i], saturate)))
    ensures var t := Apply(s, Compactor(i, NextCompactorStep(s.c[i], saturate)));
            WellFormed(t) && (t.c[i] == Idle ==> SleepsAt(s, t, i, saturate))
  {
    assert CompactorOk(s.levels, s.maxLevel, i, s.c[i]);
  }

  /** What the step of `s` is for the wakeup of compactor `i`, if it is one: the flusher sees enough tables on level 0,
      the compactor below has found level `i` filled, or compactor `i` itself sees enough for two rounds. */
  predicate SetsSignal(s: State, step: Step, i: nat)
    requires WellFormed(s) && i < NUM_COMPACTORS
  {
    || (i == 0 && step.Flusher? && step.flusher.SignalCompactor? && COMPACTION_TRIGGER <= |s.levels[0]|)
    || (i > 0 && step.Compactor? && step.i == i - 1 && step.compactor.NotifyNext?)
    || (step.Compactor? && step.i == i && step.compactor.CheckSize? && 2 * COMPACTION_TRIGGER <= |s.levels[i]|)
  }

  /** The signal of a compactor is released exactly by these steps, and taken exactly by its own wakeup. */
  lemma SignalMoves(s: State, step: Step, i: nat)
    requires Reachable(s) && Enabled(s, step) && i < NUM_COMPACTORS
    ensures Apply(s, step).start[i] > s.start[i] ==> SetsSignal(s, step, i)
    ensures SetsSignal(s, step, i) ==> Apply(s, step).start[i] == s.start[i] + 1 || Apply(s, step).start[i] == s.start[i] > 0
    ensures step == Compactor(i, BeginCompaction) ==> s.start[i] > 0 && Apply(s, step).start[i] == s.start[i] - 1
    ensures !SetsSignal(s, step, i) && step != Compactor(i, BeginCompaction) ==> Apply(s, step).start[i] == s.start[i]
  {
    hide Inv, IsRun;
    ReachableDepth(s);
    if step.Compactor? {
      assert CompactorOk(s.levels, s.maxLevel, step.i, s.c[step.i]);
    }
  }

  /** The level a compactor is about to decide on. */
  function DecidesOn(i: nat, pc: CompactorPc): Option<nat> {
    match pc
    case Checking => Some(i)
    case Rechecking(l) => Some(l + 1)
    case _ => None
  }

  /** Where a compactor decides whether to go on, it does if and only if the level in question holds four tables and has
      a level below; and then it merges that level if it owns it, and otherwise wakes its owner. */
  lemma GoesOnIffFull(s: State, i: nat, step: CompactorStep)
    requires Reachable(s) && CompactorEnabled(s, i, step) && DecidesOn(i, s.c[i]).Some?
    ensures var l, pc := DecidesOn(i, s.c[i]).value, CompactorApply(s, i, step).c[i];
            && l <= MAX_LEVEL
            && (pc == Idle <==> |s.levels[l]| < COMPACTION_TRIGGER || l == MAX_LEVEL)
            && (pc != Idle ==> if Owner(l) == i then pc == Choosing(l) else Owner(l) == i + 1 && pc.Notifying?)
  {
    hide Inv, IsRun;
    ReachableDepth(s);
    assert CompactorOk(s.levels, s.maxLevel, i, s.c[i]);
  }
}
