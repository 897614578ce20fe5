/** Writer, flusher and compactors cannot run forever on a finite number of writes. */
module StoreProgress {
  import opened Entries
  import opened StoreModel
  import opened Tiling
  import opened StoreInvariant
  import opened StoreTables
  import opened StoreMemory
  import opened StoreWakeups
  import opened StoreSafety
  import opened StoreTheorems
  import opened Threads

  // ---------- a ranking of states ----------

  function WriterRank(w: WriterPc): nat {
    match w
    case Consuming => 0
    case Inserting => 0
    case NextJob => 1
    case Opening => 2
    case Releasing => 34
    case Swapping => 35
    case Waiting => 36
    case Guarding => 37
    case Deciding => 38
  }

  function FlusherRank(f: FlusherPc): nat {
    match f
    case Asleep => 0
    case Signalling => 4
    case Unsetting => 16
    case Erasing => 17
    case Clearing => 18
    case Publishing(_) => 29
    case Building => 30
  }

  function CompactorRank(pc: CompactorPc): nat {
    match pc
    case Merging(_, _, _) => 0
    case Chosen(_, _) => 1
    case Choosing(_) => 2
    case Idle => 12
    case Checking => 13
    case Notifying(_) => 25
    case Rechecking(_) => 26
    case Bumping(_) => 27
    case Removed(_) => 28
    case Added(_) => 29
  }

  /** A write costs the writer up to 41 sections' worth of rank, a signal to the flusher 31, a table 10, a signal to a
      compactor 3. */
  function PipelineRank(p: Pipeline): int {
    39 * (p.delivered - p.inserted) + 2 * (p.delivered - p.taken)
  }

  function TableCount(live: seq<seq<Sst>>): nat
    requires |live| == MAX_LEVEL + 1
  {
    |live[0]| + |live[1]| + |live[2]| + |live[3]| + |live[4]| + |live[5]| + |live[6]| + |live[7]|
  }

  function SchedulingRank(start: seq<nat>, c: seq<CompactorPc>): nat
    requires |start| == NUM_COMPACTORS + 1 && |c| == NUM_COMPACTORS
  {
    3 * (start[0] + start[1] + start[2]) + CompactorRank(c[0]) + CompactorRank(c[1]) + CompactorRank(c[2])
  }

  function Rank(s: State): int
    requires WellFormed(s)
  {
    PipelineRank(s.p) + WriterRank(s.w) + 31 * s.h.startFlush + FlusherRank(s.f)
    + 10 * TableCount(LiveTables(s.levels, s.c)) + SchedulingRank(s.start, s.c)
  }

  lemma RankIsNatural(s: State)
    requires Inv(s)
    ensures WellFormed(s) && 0 <= Rank(s)
  {
    hide LiveTables, TableCount, SchedulingRank, WriterRank, FlusherRank;
  }

  // ---------- every background step lowers the rank ----------

  lemma WriterLowersRank(s: State, step: WriterStep)
    requires WellFormed(s) && WriterEnabled(s, step)
    ensures Rank(WriterApply(s, step)) < Rank(s)
  {
    hide TableCount, SchedulingRank, LiveTables;
  }

  lemma PublishAddsTable(live: seq<seq<Sst>>, t: Sst)
    requires |live| == MAX_LEVEL + 1
    ensures TableCount(live[0 := live[0] + [t]]) == TableCount(live) + 1
  {
  }

  lemma MergeTakesTables(live: seq<seq<Sst>>, l: nat, t: Sst)
    requires |live| == MAX_LEVEL + 1 && l < MAX_LEVEL && COMPACTION_TRIGGER <= |live[l]|
    ensures TableCount(AfterMerge(live, l, t)) == TableCount(live) - 3
  {
    var b := AfterMerge(live, l, t);
    assert |b[l]| == |live[l]| - 4 && |b[l + 1]| == |live[l + 1]| + 1;
    assert forall q :: 0 <= q < |live| && q != l && q != l + 1 ==> b[q] == live[q];
  }

  lemma FlusherLowersScheduling(s: State, step: FlusherStep)
    requires WellFormed(s) && FlusherEnabled(s, step)
    ensures var t := FlusherApply(s, step); SchedulingRank(t.start, t.c) <= SchedulingRank(s.start, s.c) + (if step.SignalCompactor? then 3 else 0)
  {
  }

  lemma FlusherTables(s: State, step: FlusherStep)
    requires TableSideInv(s) && FlusherEnabled(s, step)
    ensures WellFormed(s)
    ensures var t := FlusherApply(s, step);
            TableCount(LiveTables(t.levels, t.c)) == TableCount(LiveTables(s.levels, s.c)) + if step == PublishTable then 1 else 0
  {
    hide TilingInv, CompactorInv, WakeInv, Weight, TableCount;
    if step == PublishTable {
      PublishAppendsLive(s.p.history, s.levels, s.c, Top(s.m, s.h, s.f), Published(s));
      PublishAddsTable(LiveTables(s.levels, s.c), Published(s));
    }
  }

  lemma FlusherLowersRank(s: State, step: FlusherStep)
    requires TableSideInv(s) && FlusherEnabled(s, step)
    ensures Rank(FlusherApply(s, step)) < Rank(s)
  {
    hide TableCount, SchedulingRank, LiveTables, TableSideInv, WriterRank;
    FlusherTables(s, step);
    FlusherLowersScheduling(s, step);
  }

  lemma CompactorTables(s: State, i: nat, step: CompactorStep)
    requires TableSideInv(s) && CompactorEnabled(s, i, step)
    ensures WellFormed(s)
    ensures var t := CompactorApply(s, i, step);
            TableCount(LiveTables(t.levels, t.c)) == TableCount(LiveTables(s.levels, s.c)) - if step == AddMerged then 3 else 0
  {
    hide TilingInv, WakeInv, CompactorInv, MergeFiles, Weight, ReadyToAdd, LiveTables, TableCount;
    if step == AddMerged {
      MergingIsReady(s, i);
      AddTakesTables(s.p.history, s.levels, s.c, Top(s.m, s.h, s.f), s.c[i].level, MergeFiles(s.c[i].files, s.c[i].drop));
    } else { OtherStepsKeepLive(s, i, step); }
  }

  lemma AddTakesTables(history: seq<Event>, levels: seq<seq<Sst>>, c: seq<CompactorPc>, top: nat, l: nat, t: Sst)
    requires ReadyToAdd(history, levels, c, top, l)
    ensures |levels| == MAX_LEVEL + 1
    ensures TableCount(LiveTables(levels[l + 1 := levels[l + 1] + [t]], c[Owner(l) := Added(l)])) == TableCount(LiveTables(levels, c)) - 3
  {
    AddIsAfterMerge(history, levels, c, top, l, t);
    MergeTakesTables(LiveTables(levels, c), l, t);
  }

  lemma CompactorLowersScheduling(s: State, i: nat, step: CompactorStep)
    requires WellFormed(s) && CompactorEnabled(s, i, step)
    ensures var t := CompactorApply(s, i, step);
            SchedulingRank(t.start, t.c) < SchedulingRank(s.start, s.c) + if step == AddMerged then 30 else 0
  {
  }

  lemma CompactorLowersRank(s: State, i: nat, step: CompactorStep)
    requires TableSideInv(s) && CompactorEnabled(s, i, step)
    ensures Rank(CompactorApply(s, i, step)) < Rank(s)
  {
    hide TableCount, SchedulingRank, LiveTables, TableSideInv, WriterRank, FlusherRank;
    CompactorTables(s, i, step);
    CompactorLowersScheduling(s, i, step);
  }

  /** A client raises the rank only by handing over a write. */
  lemma ClientRaisesRank(s: State, step: ClientStep)
    requires WellFormed(s) && PipelineInv(s.p, s.w) && ClientEnabled(s, step)
    ensures var t := ClientApply(s, step);
            WellFormed(t) && Rank(t) == Rank(s) + 41 * (t.p.delivered - s.p.delivered)
  {
    hide TableCount, SchedulingRank, LiveTables, WriterRank, FlusherRank, HistoryOk;
  }

  lemma BackgroundKeepsDelivered(s: State, step: Step)
    requires WellFormed(s) && Enabled(s, step) && !step.Client?
    ensures Apply(s, step).p.delivered == s.p.delivered && Apply(s, step).readers == s.readers
  {
  }

  /** Every section of the writer, of the flusher and of a compactor lowers the rank. */
  lemma BackgroundLowersRank(s: State, step: Step)
    requires Inv(s) && Enabled(s, step) && !step.Client?
    ensures WellFormed(s) && Rank(Apply(s, step)) < Rank(s)
  {
    hide Inv, Rank, TableSideInv, MemorySideInv, ReaderSideInv;
    Sides(s);
    WellFormedFrom(s);
    match step {
      case Writer(x) => WriterLowersRank(s, x);
      case Flusher(x) => FlusherLowersRank(s, x);
      case Compactor(i, x) => CompactorLowersRank(s, i, x);
    }
  }

  lemma AnyStepRank(s: State, step: Step)
    requires Inv(s) && Enabled(s, step)
    ensures WellFormed(s)
    ensures var t := Apply(s, step);
            Rank(t) <= Rank(s) + 41 * (t.p.delivered - s.p.delivered) - if step.Client? then 0 else 1
  {
    hide Inv, Rank;
    WellFormedFrom(s);
    if step.Client? {
      PipelineHolds(s);
      ClientRaisesRank(s, step.client);
    } else {
      BackgroundLowersRank(s, step);
      BackgroundKeepsDelivered(s, step);
    }
  }

  lemma PipelineHolds(s: State)
    requires Inv(s)
    ensures WellFormed(s) && PipelineInv(s.p, s.w)
  {
  }

  // ---------- whole runs ----------

  /** How many of the first `n` steps are background steps. */
  function Work(steps: seq<Step>, n: nat): nat
    requires n <= |steps|
  {
    if n == 0 then 0 else Work(steps, n - 1) + if steps[n - 1].Client? then 0 else 1
  }

  lemma {:induction false} WorkAndRank(states: seq<State>, steps: seq<Step>, n: nat)
    requires IsRun(states, steps) && n <= |steps|
    ensures WellFormed(states[n]) && Work(steps, n) + Rank(states[n]) <= 36 + 41 * states[n].p.delivered
  {
    hide Inv, Rank, Enabled, Apply;
    if n == 0 {
      InitRank();
    } else {
      WorkAndRank(states, steps, n - 1);
      IsReachable(states, steps, n - 1);
      assert Next(states[n - 1], steps[n - 1], states[n]);
      AnyStepRank(states[n - 1], steps[n - 1]);
    }
  }

  lemma InitRank()
    ensures WellFormed(Init) && Rank(Init) == 36
  {
    assert LiveTables(Init.levels, Init.c) == Init.levels;
  }

  /** Whatever the interleaving, in a run in which `d` writes were handed over the background threads together have taken
      at most 41 d + 36 sections: a table, a merge, a wakeup or a signal is always paid for by some write. */
  lemma WorkIsBounded(states: seq<State>, steps: seq<Step>)
    requires IsRun(states, steps)
    ensures Work(steps, |steps|) <= 36 + 41 * states[|steps|].p.delivered
  {
    hide Rank, Inv;
    WorkAndRank(states, steps, |steps|);
    RunInv(states, steps, |steps|);
    RankIsNatural(states[|steps|]);
  }

  // ---------- draining ----------

  /** What goes on without any client beginning or handing over anything: the background threads, and searches that let
      go of `active_lock` by their second read. */
  predicate Internal(step: Step) {
    step.Client? ==> step.client.ReadInactive?
  }

  /** The searches that hold `active_lock`. */
  function Holders(readers: map<nat, Reader>): set<nat> {
    set r | r in readers && readers[r].AtInactive?
  }

  /** A bound on the number of internal steps from `s`. */
  function Left(s: State): int
    requires WellFormed(s)
  {
    Rank(s) + |Holders(s.readers)|
  }

  lemma ReleaseLowers(s: State, r: nat)
    requires WellFormed(s) && ClientEnabled(s, ReadInactive(r))
    ensures var t := ClientApply(s, ReadInactive(r)); |Holders(t.readers)| < |Holders(s.readers)| && t.p == s.p
  {
    var t := ClientApply(s, ReadInactive(r));
    assert Holders(t.readers) == Holders(s.readers) - {r};
  }

  lemma InternalLowers(s: State, step: Step)
    requires Inv(s) && Enabled(s, step) && Internal(step)
    ensures WellFormed(s) && Left(Apply(s, step)) < Left(s) && Apply(s, step).p.delivered == s.p.delivered
  {
    hide Inv, Rank, Holders;
    WellFormedFrom(s);
    if step.Client? {
      PipelineHolds(s);
      ClientRaisesRank(s, step.client);
      ReleaseLowers(s, step.client.r);
    } else {
      BackgroundLowersRank(s, step);
      BackgroundKeepsDelivered(s, step);
    }
  }

  /** Internal steps, one after the other, from the first of the states. */
  ghost predicate InternalPath(states: seq<State>, steps: seq<Step>) {
    && |states| == |steps| + 1
    && forall n {:trigger steps[n]} :: 0 <= n < |steps| ==> Internal(steps[n]) && Next(states[n], steps[n], states[n + 1])
  }

  ghost predicate Resting(s: State)
    requires WellFormed(s)
  {
    forall step :: Internal(step) ==> !Enabled(s, step)
  }

  /** Every delivered write is inserted and acknowledged, and every background thread asleep. */
  ghost predicate Drained(s: State) {
    && s.p.completed == s.p.inserted == s.p.delivered
    && s.w == Consuming && s.f == Asleep && |s.c| == NUM_COMPACTORS && forall i :: 0 <= i < NUM_COMPACTORS ==> s.c[i] == Idle
  }

  lemma ReachableNext(s: State, step: Step)
    requires Reachable(s) && Enabled(s, step)
    ensures Reachable(Apply(s, step))
  {
    hide Enabled, Apply, WellFormed;
    var states, steps :| IsRun(states, steps) && states[|steps|] == s;
    RunExtends(states, steps, step);
    assert IsRun(states + [Apply(s, step)], steps + [step]);
  }

  lemma {:induction false} PathLowers(states: seq<State>, steps: seq<Step>, n: nat)
    requires InternalPath(states, steps) && Reachable(states[0]) && n <= |steps|
    ensures Reachable(states[n]) && Left(states[n]) + n <= Left(states[0])
    ensures states[n].p.delivered == states[0].p.delivered
  {
    hide Inv, Left, Enabled, Apply, Reachable, WellFormed, Internal;
    ReachableInv(states[0]);
    WellFormedFrom(states[0]);
    if n > 0 {
      PathLowers(states, steps, n - 1);
      assert Next(states[n - 1], steps[n - 1], states[n]);
      ReachableInv(states[n - 1]);
      InternalLowers(states[n - 1], steps[n - 1]);
      ReachableNext(states[n - 1], steps[n - 1]);
    }
  }

  lemma RestIsQuiet(s: State)
    requires WellFormed(s) && Resting(s)
    ensures Quiescent(s) && forall r :: r in s.readers ==> !s.readers[r].AtInactive?
  {
    hide WriterEnabled, FlusherEnabled, CompactorEnabled;
    forall x: WriterStep ensures !WriterEnabled(s, x) { assert !Enabled(s, Writer(x)); }
    forall x: FlusherStep ensures !FlusherEnabled(s, x) { assert !Enabled(s, Flusher(x)); }
    forall i: nat, x: CompactorStep ensures !CompactorEnabled(s, i, x) { assert !Enabled(s, Compactor(i, x)); }
    forall r | r in s.readers ensures !s.readers[r].AtInactive? { assert !Enabled(s, Client(ReadInactive(r))); }
  }

  lemma RestIsDrained(s: State)
    requires Reachable(s) && Resting(s)
    ensures Drained(s)
  {
    hide Inv, Reachable, Digit, Quotient, Resting;
    ReachableInv(s);
    WellFormedFrom(s);
    RestIsQuiet(s);
    StuckMeansDone(s);
    PipelineHolds(s);
    assert !WriterEnabled(s, Complete);
  }

  lemma DrainedCount(s: State)
    requires Drained(s)
    ensures s.p.completed == s.p.delivered
  {
  }

  /** While clients begin nothing, every schedule of the threads ends, after at most Left(s) steps from `s`; and where it
      ends, every write that was delivered is acknowledged and all background threads sleep. */
  lemma EveryScheduleDrains(states: seq<State>, steps: seq<Step>)
    requires InternalPath(states, steps) && Reachable(states[0])
    ensures |steps| <= Left(states[0]) && WellFormed(states[|steps|])
    ensures Resting(states[|steps|]) ==> Drained(states[|steps|]) && states[|steps|].p.completed == states[0].p.delivered
  {
    hide Inv, Rank, Holders, Reachable, Drained, Resting;
    var last := states[|steps|];
    PathLowers(states, steps, |steps|);
    ReachableInv(last);
    RankIsNatural(last);
    if Resting(last) {
      RestIsDrained(last);
      DrainedCount(last);
    }
  }

  /** From every reachable state there is such a schedule to its end: no write that was delivered can be stranded. */
  lemma {:induction false} SomeScheduleDrains(s: State) returns (states: seq<State>, steps: seq<Step>)
    requires Reachable(s)
    ensures InternalPath(states, steps) && states[0] == s && Drained(states[|steps|])
    ensures states[|steps|].p.completed == s.p.delivered
    decreases Left(s)
  {
    hide Inv, Rank, Holders, Reachable, Drained, Resting, Enabled, Apply, WellFormed, Internal;
    ReachableInv(s);
    RankIsNatural(s);
    if Resting(s) {
      RestIsDrained(s);
      DrainedCount(s);
      states, steps := [s], [];
    } else {
      var step := Awake(s);
      InternalLowers(s, step);
      ReachableNext(s, step);
      states, steps := SomeScheduleDrains(Apply(s, step));
      PathGrows(s, step, states, steps);
      states, steps := [s] + states, [step] + steps;
    }
  }

  lemma Awake(s: State) returns (step: Step)
    requires WellFormed(s) && !Resting(s)
    ensures Internal(step) && Enabled(s, step)
  {
    step :| Internal(step) && Enabled(s, step);
  }

  lemma PathGrows(s: State, step: Step, states: seq<State>, steps: seq<Step>)
    requires InternalPath(states, steps) && Next(s, step, states[0]) && Internal(step)
    ensures InternalPath([s] + states, [step] + steps)
    ensures ([s] + states)[|[step] + steps|] == states[|steps|]
  {
    hide Next, Internal;
    var ss, ts := [s] + states, [step] + steps;
    forall n {:trigger ts[n]} | 0 <= n < |ts| ensures Internal(ts[n]) && Next(ss[n], ts[n], ss[n + 1]) {
      if n > 0 { assert Internal(steps[n - 1]) && Next(states[n - 1], steps[n - 1], states[n]); }
    }
  }
}
