/** Every step of every thread keeps the invariant, so every reachable state satisfies it. */
module StoreSafety {
  import opened Entries
  import opened StoreModel
  import opened Tiling
  import opened StoreInvariant
  import opened StoreMemory
  import opened StoreTables
  import opened StoreCompaction
  import opened StoreWakeups
  import opened StoreReaders

  /** The invariant about tables, compactors and readers. */
  ghost predicate TableSideInv(s: State) {
    && WellFormed(s)
    && TilingInv(s.p.history, s.levels, s.c, Top(s.m, s.h, s.f))
    && CompactorInv(s.levels, s.c, s.maxLevel)
    && WakeInv(s.levels, s.start, s.c, s.f)
    && Weight(LiveTables(s.levels, s.c)) == s.flushes
  }

  ghost predicate ReaderSideInv(s: State) {
    WellFormed(s) && ReadersInv(s.p.history, s.p.inserted, LiveTables(s.levels, s.c), s.m.frozenHi, s.readers)
  }

  // ---------- clients ----------

  lemma ClientKeepsTables(s: State, step: ClientStep)
    requires TableSideInv(s) && ClientEnabled(s, step)
    ensures TableSideInv(ClientApply(s, step))
  {
  }

  lemma LookInMemory(s: State, g: Reader)
    requires MemorySideInv(s) && (g.AtActive? || g.AtInactive?)
    requires Coverage(LiveTables(s.levels, s.c), 0) == Top(s.m, s.h, s.f)
    requires ReaderOk(s.p.history, s.p.inserted, LiveTables(s.levels, s.c), s.m.frozenHi, g)
    ensures ReaderOk(s.p.history, s.p.inserted, LiveTables(s.levels, s.c), s.m.frozenHi, Look(s, g))
  {
    hide LiveTables, Coverage;
    var live := LiveTables(s.levels, s.c);
    if g.AtActive? {
      ActiveStep(s.p.history, s.p.inserted, live, s.m.frozenHi, g, s.m.tables[s.m.active]);
    } else {
      InactiveStep(s.p.history, s.p.inserted, live, s.m.frozenLo, s.m.frozenHi, g, s.m.tables[Other(s.m)], Holding(s.h, s.f));
    }
  }

  lemma LookOnLevel(s: State, g: Reader)
    requires WellFormed(s) && TilingInv(s.p.history, s.levels, s.c, Top(s.m, s.h, s.f)) && g.AtLevel?
    requires Top(s.m, s.h, s.f) <= s.p.inserted
    requires ReaderOk(s.p.history, s.p.inserted, LiveTables(s.levels, s.c), s.m.frozenHi, g)
    ensures ReaderOk(s.p.history, s.p.inserted, LiveTables(s.levels, s.c), s.m.frozenHi, Look(s, g))
  {
    if g.level > MAX_LEVEL { LastStep(s.p.history, s.p.inserted, LiveTables(s.levels, s.c), s.m.frozenHi, g); }
    else { LevelStep(s.p.history, s.p.inserted, s.levels, s.c, Top(s.m, s.h, s.f), s.m.frozenHi, g); }
  }

  lemma TopIsInserted(s: State)
    requires MemorySideInv(s)
    ensures Top(s.m, s.h, s.f) <= s.p.inserted
  {
  }

  lemma LookKeepsReader(s: State, g: Reader)
    requires MemorySideInv(s) && TilingInv(s.p.history, s.levels, s.c, Top(s.m, s.h, s.f))
    requires g.AtActive? || g.AtInactive? || g.AtLevel?
    requires ReaderOk(s.p.history, s.p.inserted, LiveTables(s.levels, s.c), s.m.frozenHi, g)
    ensures ReaderOk(s.p.history, s.p.inserted, LiveTables(s.levels, s.c), s.m.frozenHi, Look(s, g))
  {
    TopIsInserted(s);
    if g.AtLevel? { LookOnLevel(s, g); } else { LookInMemory(s, g); }
  }

  ghost predicate OneReaderOk(s: State, g: Reader)
    requires WellFormed(s)
  {
    ReaderOk(s.p.history, s.p.inserted, LiveTables(s.levels, s.c), s.m.frozenHi, g)
  }

  lemma OneReaderChanges(s: State, r: nat, g: Reader)
    requires ReaderSideInv(s) && OneReaderOk(s, g)
    ensures ReaderSideInv(s.(readers := s.readers[r := g]))
  {
  }

  lemma BeginKeepsReaders(s: State, step: ClientStep)
    requires ReaderSideInv(s) && PipelineInv(s.p, s.w) && ClientEnabled(s, step)
    requires step.BeginGet? || step.StartSearch? || step.Deliver? || step.Reserve?
    ensures ReaderSideInv(ClientApply(s, step))
  {
    match step {
      case BeginGet(r, k) => OneReaderChanges(s, r, Awaiting(k, |s.p.writes|));
      case StartSearch(r) =>
        OneReaderChanges(s, r, AtActive(s.readers[r].key, s.readers[r].target, s.p.inserted));
      case Deliver =>
      case Reserve(_) =>
    }
  }

  lemma LookKeepsReaders(s: State, r: nat)
    requires Inv(s) && r in s.readers
    requires s.readers[r].AtActive? || s.readers[r].AtInactive? || s.readers[r].AtLevel?
    ensures ReaderSideInv(s.(readers := s.readers[r := Look(s, s.readers[r])]))
  {
    LookKeepsReader(s, s.readers[r]);
    OneReaderChanges(s, r, Look(s, s.readers[r]));
  }

  lemma ClientKeepsReaders(s: State, step: ClientStep)
    requires Inv(s) && ClientEnabled(s, step)
    ensures ReaderSideInv(ClientApply(s, step))
  {
    match step {
      case ReadActive(r) => LookKeepsReaders(s, r);
      case ReadInactive(r) => LookKeepsReaders(s, r);
      case ReadLevel(r) => LookKeepsReaders(s, r);
      case _ => BeginKeepsReaders(s, step);
    }
  }

  // ---------- writer ----------

  lemma WriterKeepsTableSide(s: State, step: WriterStep)
    requires Inv(s) && WriterEnabled(s, step)
    ensures TableSideInv(WriterApply(s, step))
  {
    assert Top(WriterApply(s, step).m, WriterApply(s, step).h, s.f) == Top(s.m, s.h, s.f);
    if step == InsertMemtable { LaterKeepsTiling(s.p.history, NewEvent(s), s.levels, s.c, Top(s.m, s.h, s.f)); }
  }

  function NewEvent(s: State): Event
    requires WellFormed(s) && s.p.inserted < |s.p.writes|
  {
    Insertion(s.m.tables[s.m.active], s.p.writes[s.p.inserted])
  }

  lemma WriterKeepsReaders(s: State, step: WriterStep)
    requires MemorySideInv(s) && ReaderSideInv(s) && WriterEnabled(s, step)
    ensures ReaderSideInv(WriterApply(s, step))
  {
    var t, live := WriterApply(s, step), LiveTables(s.levels, s.c);
    forall r | r in s.readers ensures ReaderOk(t.p.history, t.p.inserted, live, t.m.frozenHi, s.readers[r]) {
      if step == InsertMemtable {
        ReaderLater(s.p.history, NewEvent(s), s.p.inserted, live, s.m.frozenHi, s.readers[r]);
        ReaderAdvance(t.p.history, s.p.inserted, live, s.m.frozenHi, s.readers[r]);
      }
      if step == Swap { ReaderSwap(s.p.history, s.p.inserted, live, s.m.frozenHi, s.readers[r]); }
    }
  }

  // ---------- flusher ----------

  function Published(s: State): Sst
    requires s.f.Publishing?
  {
    Sst(s.f.table, s.m.frozenLo, s.m.frozenHi)
  }

  lemma FrozenTableOk(history: seq<Event>, t: Sst)
    requires t.lo < t.hi <= |history| && t.contents == Outcome(history[t.lo..t.hi])
    ensures SstOk(history, t)
  {
    assert history[0..t.hi] == history[..t.hi];
  }

  lemma PublishedOk(s: State)
    requires MemorySideInv(s) && s.f.Publishing?
    ensures SstOk(s.p.history, Published(s)) && Top(s.m, s.h, s.f) == Published(s).lo < Published(s).hi
  {
    FrozenTableOk(s.p.history, Published(s));
  }

  lemma FlusherKeepsTop(s: State, step: FlusherStep)
    requires MemorySideInv(s) && FlusherEnabled(s, step) && step != PublishTable
    ensures var t := FlusherApply(s, step); t.levels == s.levels && Top(t.m, t.h, t.f) == Top(s.m, s.h, s.f)
  {
  }

  lemma FlusherKeepsTiling(s: State, step: FlusherStep)
    requires MemorySideInv(s) && TableSideInv(s) && FlusherEnabled(s, step)
    ensures var t := FlusherApply(s, step); TilingInv(t.p.history, t.levels, t.c, Top(t.m, t.h, t.f))
  {
    if step == PublishTable {
      PublishedOk(s);
      PublishKeepsTiling(s.p.history, s.levels, s.c, Published(s));
    } else {
      FlusherKeepsTop(s, step);
    }
  }

  lemma FlusherKeepsCount(s: State, step: FlusherStep)
    requires TableSideInv(s) && FlusherEnabled(s, step)
    ensures var t := FlusherApply(s, step);
            CompactorInv(t.levels, t.c, t.maxLevel) && Weight(LiveTables(t.levels, t.c)) == t.flushes
  {
    if step == PublishTable {
      PublishKeepsCompactors(s.levels, s.c, s.maxLevel, Published(s));
      PublishAppendsLive(s.p.history, s.levels, s.c, Top(s.m, s.h, s.f), Published(s));
      PublishRaisesWeight(LiveTables(s.levels, s.c), Published(s));
    }
  }

  lemma FlusherKeepsTables(s: State, step: FlusherStep)
    requires MemorySideInv(s) && TableSideInv(s) && FlusherEnabled(s, step)
    ensures TableSideInv(FlusherApply(s, step))
  {
    FlusherKeepsTiling(s, step);
    FlusherKeepsWakeups(s, step);
    FlusherKeepsCount(s, step);
  }

  lemma PublishKeepsReaders(s: State, live: seq<seq<Sst>>, t: Sst)
    requires ReadersInv(s.p.history, s.p.inserted, live, t.hi, s.readers)
    requires Tiled(live) && live != [] && t.lo == Coverage(live, 0) && t.lo < t.hi
    ensures ReadersInv(s.p.history, s.p.inserted, live[0 := live[0] + [t]], t.hi, s.readers)
  {
    hide ReaderOk, Tiled;
    forall r | r in s.readers ensures ReaderOk(s.p.history, s.p.inserted, live[0 := live[0] + [t]], t.hi, s.readers[r]) {
      ReaderPublish(s.p.history, s.p.inserted, live, s.readers[r], t);
    }
  }

  lemma OthersKeepReaderView(s: State, step: FlusherStep)
    requires WellFormed(s) && FlusherEnabled(s, step) && step != PublishTable
    ensures var t := FlusherApply(s, step);
            t.levels == s.levels && t.c == s.c && t.p == s.p && t.readers == s.readers && t.m.frozenHi == s.m.frozenHi
  {
  }

  lemma FlusherKeepsReaders(s: State, step: FlusherStep)
    requires MemorySideInv(s) && TableSideInv(s) && ReaderSideInv(s) && FlusherEnabled(s, step)
    ensures ReaderSideInv(FlusherApply(s, step))
  {
    hide ReadersInv, MemorySideInv, WakeInv, CompactorInv, Weight, Coverage, Tiled, LevelsOk, DuplicatesOk, SstOk;
    WellFormedSide(s);
    if step == PublishTable {
      PublishedOk(s);
      PublishAppendsLive(s.p.history, s.levels, s.c, Top(s.m, s.h, s.f), Published(s));
      PublishKeepsReaders(s, LiveTables(s.levels, s.c), Published(s));
    } else {
      OthersKeepReaderView(s, step);
    }
  }

  lemma WellFormedSide(s: State)
    requires MemorySideInv(s)
    ensures WellFormed(s)
  {
  }

  // ---------- compactors ----------

  lemma MergingIsReady(s: State, i: nat)
    requires TableSideInv(s) && i < NUM_COMPACTORS && s.c[i].Merging?
    ensures Owner(s.c[i].level) == i
    ensures ReadyToAdd(s.p.history, s.levels, s.c, Top(s.m, s.h, s.f), s.c[i].level)
  {
    hide TilingInv, WakeInv, Weight;
    assert CompactorOk(s.levels, s.maxLevel, i, s.c[i]);
  }

  lemma AddedOwnsLevel(s: State, i: nat)
    requires CompactorInv(s.levels, s.c, s.maxLevel) && i < NUM_COMPACTORS && s.c[i].Added?
    ensures s.c[i].level < MAX_LEVEL && Owner(s.c[i].level) == i
  {
    assert CompactorOk(s.levels, s.maxLevel, i, s.c[i]);
  }

  lemma OtherStepsNotAdded(s: State, i: nat, step: CompactorStep)
    requires WellFormed(s) && CompactorEnabled(s, i, step) && step != AddMerged && step != RemoveMerged
    ensures !s.c[i].Added? && !NextPc(s, i, step).Added?
    ensures var t := CompactorApply(s, i, step); t.levels == s.levels && t.c == s.c[i := NextPc(s, i, step)]
  {
  }

  lemma CompactorKeepsTiling(s: State, i: nat, step: CompactorStep)
    requires TableSideInv(s) && CompactorEnabled(s, i, step)
    ensures var t := CompactorApply(s, i, step); TilingInv(t.p.history, t.levels, t.c, Top(s.m, s.h, s.f))
  {
    hide TilingInv, WakeInv, CompactorInv, Weight, MergeFiles;
    var top := Top(s.m, s.h, s.f);
    if step == AddMerged {
      MergingIsReady(s, i);
      AddKeepsTiling(s.p.history, s.levels, s.c, top, s.c[i].level);
    } else if step == RemoveMerged {
      AddedOwnsLevel(s, i);
      RemoveKeepsTiling(s.p.history, s.levels, s.c, top, s.c[i].level);
    } else {
      OtherStepsNotAdded(s, i, step);
      PassKeepsTiling(s.p.history, s.levels, s.c, top, i, NextPc(s, i, step));
    }
  }

  lemma OtherStepsKeepLive(s: State, i: nat, step: CompactorStep)
    requires WellFormed(s) && CompactorInv(s.levels, s.c, s.maxLevel) && CompactorEnabled(s, i, step) && step != AddMerged
    ensures var t := CompactorApply(s, i, step); LiveTables(t.levels, t.c) == LiveTables(s.levels, s.c)
  {
    if step == RemoveMerged {
      AddedOwnsLevel(s, i);
      LiveRemove(s.levels, s.c, s.c[i].level);
    } else {
      OtherStepsNotAdded(s, i, step);
      LiveSame(s.levels, s.c, i, NextPc(s, i, step));
    }
  }

  lemma AddKeepsWeight(history: seq<Event>, levels: seq<seq<Sst>>, c: seq<CompactorPc>, top: nat, l: nat, t: Sst)
    requires ReadyToAdd(history, levels, c, top, l)
    ensures Weight(LiveTables(levels[l + 1 := levels[l + 1] + [t]], c[Owner(l) := Added(l)])) == Weight(LiveTables(levels, c))
  {
    AddIsAfterMerge(history, levels, c, top, l, t);
    MergeKeepsWeight(LiveTables(levels, c), l, t);
  }

  lemma CompactorKeepsWeight(s: State, i: nat, step: CompactorStep)
    requires TableSideInv(s) && CompactorEnabled(s, i, step)
    ensures var t := CompactorApply(s, i, step); Weight(LiveTables(t.levels, t.c)) == t.flushes
  {
    hide TilingInv, WakeInv, CompactorInv, MergeFiles, Weight, ReadyToAdd, LiveTables;
    if step == AddMerged {
      MergingIsReady(s, i);
      AddKeepsWeight(s.p.history, s.levels, s.c, Top(s.m, s.h, s.f), s.c[i].level, MergeFiles(s.c[i].files, s.c[i].drop));
    } else { OtherStepsKeepLive(s, i, step); }
  }

  lemma CompactorKeepsTables(s: State, i: nat, step: CompactorStep)
    requires TableSideInv(s) && CompactorEnabled(s, i, step)
    ensures TableSideInv(CompactorApply(s, i, step))
  {
    CompactorKeepsTiling(s, i, step);
    CompactorsKept(s, i, step);
    CompactorKeepsWakeups(s, i, step);
    CompactorKeepsWeight(s, i, step);
  }

  lemma AddKeepsReaders(s: State, i: nat)
    requires TableSideInv(s) && ReaderSideInv(s) && CompactorEnabled(s, i, AddMerged)
    ensures ReaderSideInv(CompactorApply(s, i, AddMerged))
  {
    hide WakeInv, Weight, CompactorInv, MergeFiles, ReaderOk;
    var l, f, live := s.c[i].level, MergeFiles(s.c[i].files, s.c[i].drop), LiveTables(s.levels, s.c);
    MergingIsReady(s, i);
    AddIsAfterMerge(s.p.history, s.levels, s.c, Top(s.m, s.h, s.f), l, f);
    MergedTableOk(s.p.history, s.levels, s.c, Top(s.m, s.h, s.f), l);
    LiveUnmarked(s.levels, s.c, l);
    forall r | r in s.readers ensures ReaderOk(s.p.history, s.p.inserted, AfterMerge(live, l, f), s.m.frozenHi, s.readers[r]) {
      ReaderMerge(s.p.history, s.p.inserted, live, s.m.frozenHi, s.readers[r], l, f);
    }
  }

  lemma CompactorKeepsReaders(s: State, i: nat, step: CompactorStep)
    requires TableSideInv(s) && ReaderSideInv(s) && CompactorEnabled(s, i, step)
    ensures ReaderSideInv(CompactorApply(s, i, step))
  {
    if step == AddMerged { AddKeepsReaders(s, i); } else { OtherStepsKeepLive(s, i, step); }
  }

  // ---------- all threads, all runs ----------

  lemma InvSplit(s: State)
    ensures Inv(s) <==> MemorySideInv(s) && TableSideInv(s) && ReaderSideInv(s)
  {
  }

  lemma InvKept(s: State, step: Step)
    requires Inv(s) && Enabled(s, step)
    ensures Inv(Apply(s, step))
  {
    InvSplit(s);
    MemorySideKept(s, step);
    match step {
      case Client(x) => ClientKeepsTables(s, x); ClientKeepsReaders(s, x);
      case Writer(x) => WriterKeepsTableSide(s, x); WriterKeepsReaders(s, x);
      case Flusher(x) => FlusherKeepsTables(s, x); FlusherKeepsReaders(s, x);
      case Compactor(i, x) => CompactorKeepsTables(s, i, x); CompactorKeepsReaders(s, i, x);
    }
    InvSplit(Apply(s, step));
  }

  lemma EmptyLevelsTile(live: seq<seq<Sst>>)
    requires forall l :: 0 <= l < |live| ==> live[l] == []
    ensures Tiled(live) && Coverage(live, 0) == 0
  {
    NothingBelow(live, 0);
  }

  lemma EmptyLevelsAreLive(levels: seq<seq<Sst>>, c: seq<CompactorPc>)
    requires |c| == NUM_COMPACTORS && forall i :: 0 <= i < NUM_COMPACTORS ==> c[i] == Idle
    ensures LiveTables(levels, c) == levels
  {
  }

  lemma EmptyTablesInv(levels: seq<seq<Sst>>, c: seq<CompactorPc>, start: seq<nat>, f: FlusherPc)
    requires |levels| == MAX_LEVEL + 1 && forall l :: 0 <= l < |levels| ==> levels[l] == []
    requires |c| == NUM_COMPACTORS && forall i :: 0 <= i < NUM_COMPACTORS ==> c[i] == Idle
    requires |start| == NUM_COMPACTORS + 1
    ensures TilingInv([], levels, c, 0) && CompactorInv(levels, c, 0) && WakeInv(levels, start, c, f)
    ensures Weight(LiveTables(levels, c)) == 0
  {
    EmptyLevelsAreLive(levels, c);
    EmptyLevelsTile(levels);
  }

  lemma InitMemory()
    ensures MemorySideInv(Init)
  {
  }

  lemma InvInit()
    ensures Inv(Init)
  {
    InitMemory();
    EmptyTablesInv(Init.levels, Init.c, Init.start, Init.f);
    InvSplit(Init);
  }

  lemma NextKeepsInv(s: State, step: Step, t: State)
    requires Inv(s) && Next(s, step, t)
    ensures Inv(t)
  {
    InvKept(s, step);
  }

  /** The invariant holds in every state of every run. */
  lemma {:induction false} RunInv(states: seq<State>, steps: seq<Step>, n: nat)
    requires IsRun(states, steps) && n < |states|
    ensures Inv(states[n])
  {
    hide Inv, Next;
    if n == 0 {
      InvInit();
    } else {
      RunInv(states, steps, n - 1);
      NextKeepsInv(states[n - 1], steps[n - 1], states[n]);
    }
  }

  lemma ReachableInv(s: State)
    requires Reachable(s)
    ensures Inv(s)
  {
    hide Inv, Next;
    var states, steps :| IsRun(states, steps) && states[|steps|] == s;
    RunInv(states, steps, |steps|);
  }
}
