/** The threads of the store: whose step a step is, what other threads leave alone, and what one section of a
    thread does. */
module Threads {
  import opened Entries
  import opened Records
  import opened StoreModel
  import opened StoreInvariant
  import opened StoreMemory
  import opened StoreSafety
  import opened StoreTheorems
  import opened StoreAnswers

  datatype Thread = Putter | Getter(r: nat) | TheWriter | TheFlusher | TheCompactor(i: nat)

  /** The thread a step belongs to. */
  function ThreadOf(step: Step): Thread {
    match step
    case Client(Reserve(_)) => Putter
    case Client(Deliver) => Putter
    case Client(BeginGet(r, _)) => Getter(r)
    case Client(StartSearch(r)) => Getter(r)
    case Client(ReadActive(r)) => Getter(r)
    case Client(ReadInactive(r)) => Getter(r)
    case Client(ReadLevel(r)) => Getter(r)
    case Writer(_) => TheWriter
    case Flusher(_) => TheFlusher
    case Compactor(i, _) => TheCompactor(i)
  }

  /** The steps of one thread, in order. */
  ghost function Mine(me: Thread, steps: seq<Step>): seq<Step> {
    if steps == [] then []
    else Mine(me, steps[..|steps| - 1]) + (if ThreadOf(steps[|steps| - 1]) == me then [steps[|steps| - 1]] else [])
  }

  lemma MineSnoc(me: Thread, steps: seq<Step>, step: Step)
    ensures Mine(me, steps + [step]) == Mine(me, steps) + (if ThreadOf(step) == me then [step] else [])
  {
    assert (steps + [step])[..|steps|] == steps;
  }

  /** What no other thread changes. */
  ghost predicate Same(me: Thread, s: State, t: State) {
    match me
    case Putter => t.p.writes == s.p.writes && t.p.delivered == s.p.delivered
    case Getter(r) => (r in s.readers <==> r in t.readers) && (r in s.readers ==> t.readers[r] == s.readers[r])
    case TheWriter =>
      && t.w == s.w && t.m.active == s.m.active
      && t.p.taken == s.p.taken && t.p.inserted == s.p.inserted && t.p.completed == s.p.completed
    case TheFlusher => t.f == s.f && t.flushes == s.flushes && (Busy(s.f) ==> SameFrozen(s, t))
    case TheCompactor(i) => (i < |s.c| && i < |t.c| ==> t.c[i] == s.c[i]) && OnlyGrows(s.levels, t.levels, i)
  }

  /** Tables are only appended to the levels that compactor `i` merges out of. */
  ghost predicate OnlyGrows(a: seq<seq<Sst>>, b: seq<seq<Sst>>, i: nat) {
    |a| == |b| && forall l :: 0 <= l < MAX_LEVEL && l < |a| && Owner(l) == i ==> a[l] <= b[l]
  }

  /** The same memtable is frozen, with the same contents. */
  ghost predicate SameFrozen(s: State, t: State) {
    && |s.m.tables| == |t.m.tables| == 2 && t.m.active == s.m.active < 2
    && t.m.tables[1 - t.m.active] == s.m.tables[1 - s.m.active]
  }

  lemma OthersLeave(me: Thread, s: State, step: Step)
    requires Reachable(s) && Enabled(s, step) && ThreadOf(step) != me
    ensures Same(me, s, Apply(s, step))
  {
    if me == TheFlusher {
      OthersLeaveFlusher(s, step);
    } else if me.TheCompactor? {
      OthersLeaveCompactor(me.i, s, step);
    } else {
      OthersLeaveRest(me, s, step);
    }
  }

  lemma OthersLeaveCompactor(i: nat, s: State, step: Step)
    requires Reachable(s) && Enabled(s, step) && ThreadOf(step) != TheCompactor(i)
    ensures Same(TheCompactor(i), s, Apply(s, step))
  {
    hide Inv, IsRun;
    ReachableInv(s);
    match step {
      case Compactor(j, x) => OtherCompactorLeaves(i, s, j, x);
      case Flusher(x) => FlusherOnlyAppends(i, s, x);
      case Writer(_) =>
      case Client(_) =>
    }
  }

  lemma FlusherOnlyAppends(i: nat, s: State, step: FlusherStep)
    requires WellFormed(s) && FlusherEnabled(s, step)
    ensures var t := FlusherApply(s, step); t.c == s.c && OnlyGrows(s.levels, t.levels, i)
  {
  }

  lemma OtherCompactorLeaves(i: nat, s: State, j: nat, step: CompactorStep)
    requires Inv(s) && CompactorEnabled(s, j, step) && j != i
    ensures var t := CompactorApply(s, j, step); OnlyGrows(s.levels, t.levels, i) && (i < |s.c| ==> t.c[i] == s.c[i])
  {
    hide Inv, TilingInv, WakeInv, Weight, MergeFiles, MemorySideInv, ReaderSideInv;
    Sides(s);
    if step == RemoveMerged { AddedOwnsLevel(s, j); }
  }

  lemma OthersLeaveFlusher(s: State, step: Step)
    requires Reachable(s) && Enabled(s, step) && !step.Flusher?
    ensures Same(TheFlusher, s, Apply(s, step))
  {
    if Busy(s.f) { FlusherSeesStableMemtable(s, step); }
  }

  lemma OthersLeaveRest(me: Thread, s: State, step: Step)
    requires WellFormed(s) && Enabled(s, step) && ThreadOf(step) != me && me != TheFlusher && !me.TheCompactor?
    ensures Same(me, s, Apply(s, step))
  {
  }

  lemma SameTwice(me: Thread, s: State, t: State, u: State)
    requires Same(me, s, t) && Same(me, t, u) && |s.c| == |t.c| == |u.c|
    ensures Same(me, s, u)
  {
  }

  /** An instantaneous search shows exactly the writes inserted so far. */
  ghost predicate ShowsInserted(s: State)
    requires WellFormed(s)
  {
    && s.p.inserted == |s.p.history| <= |s.p.writes|
    && forall k :: Visible(StoreModel.Search(s, k)) == VisibleAfter(s.p.history, s.p.inserted, k)
  }

  /** If compactor `i` leaves four tables on its lowest level a wakeup is under way, and the levels that only
      it fills are below four. */
  ghost predicate NothingOwed(s: State, i: nat)
    requires WellFormed(s) && i < NUM_COMPACTORS
  {
    && (COMPACTION_TRIGGER <= |s.levels[i]| ==> Pending(s.start, s.c, s.f, i))
    && forall l :: i == 2 && 3 <= l < MAX_LEVEL ==> |s.levels[l]| < COMPACTION_TRIGGER
  }

  lemma InsertedShow(s: State)
    requires Inv(s)
    ensures WellFormed(s) && ShowsInserted(s)
  {
    hide Inv, StoreModel.Search, VisibleAfter;
    InsertedBound(s);
    forall k ensures Visible(StoreModel.Search(s, k)) == VisibleAfter(s.p.history, s.p.inserted, k) { SearchIsCurrent(s, k); }
  }

  lemma Settled(s: State, i: nat)
    requires Inv(s) && Reachable(s) && i < NUM_COMPACTORS && WellFormed(s) && s.c[i] == Idle
    ensures ShowsInserted(s) && NothingOwed(s, i)
  {
    hide Inv, Reachable, ShowsInserted, Pending;
    InsertedShow(s);
    if COMPACTION_TRIGGER <= |s.levels[i]| { NoLostWakeup(s, i); }
    forall l | i == 2 && 3 <= l < MAX_LEVEL ensures |s.levels[l]| < COMPACTION_TRIGGER { UpperLevelsAreDrained(s, l); }
  }

  /** The writer waits for the flusher's token, or for a search that holds `active_lock`. */
  predicate Blocked(s: State) {
    (s.w == Waiting && s.h.resumeWrites == 0) || (s.w == Swapping && !Unread(s))
  }

  ghost predicate SameProgress(s: State, t: State) {
    t.p.taken == s.p.taken && t.p.inserted == s.p.inserted && t.p.completed == s.p.completed
  }

  /** No search holds `active_lock`. */
  predicate Unread(s: State) {
    forall r :: r in s.readers ==> !s.readers[r].AtInactive?
  }

  /** The memtables change places: the full one is frozen, the new active one is empty. */
  ghost predicate SwapsAt(s: State, t: State) {
    && WellFormed(s) && WellFormed(t) && t.m.active == Other(s.m) && t.m.tables == s.m.tables && t.m.logs == s.m.logs
    && t.m.tables[t.m.active] == map[] && t.m.logs[t.m.active] == []
    && !s.h.inactiveFlushing && t.h.inactiveFlushing
    && (forall r :: r in s.readers ==> !s.readers[r].AtInactive?)
  }

  ghost predicate WakesAt(s: State, t: State) {
    s.h.startFlush == 0 && t.h.startFlush == 1
  }

  ghost predicate OpensAt(s: State, t: State) {
    WellFormed(s) && WellFormed(t) && t.m == s.m.(logs := s.m.logs[s.m.active := []])
  }

  function SwapSteps(): seq<Step> {
    [Writer(Swap), Writer(WakeFlusher), Writer(OpenLog)]
  }

  /** The writer's sections when a flush is due; `waited` if the one before was not over. */
  function HandleSteps(waited: bool): seq<Step> {
    [Writer(CheckFlushing)] + (if waited then [Writer(Resume)] else []) + SwapSteps()
  }

  /** The writer's sections in `checkAndHandleFlush`. */
  function CheckSteps(full: bool, waited: bool): seq<Step> {
    [Writer(Decide(full))] + if full then HandleSteps(waited) else []
  }

  /** The writer's sections in `insert`. */
  function InsertSteps(full: bool, waited: bool): seq<Step> {
    [Writer(AppendLog), Writer(InsertMemtable)] + CheckSteps(full, waited)
  }

  /** The writer's sections for a batch, job by job; `waits` tells for which it waited for the flusher. */
  ghost function BatchSteps(full: nat -> bool, waits: seq<bool>): seq<Step> {
    if waits == [] then []
    else BatchSteps(full, waits[..|waits| - 1]) + InsertSteps(full(|waits| - 1), waits[|waits| - 1])
  }

  /** The writer's sections in one round. */
  ghost function RoundSteps(batch: nat, full: nat -> bool, waits: seq<bool>): seq<Step> {
    [Writer(Consume(batch))] + BatchSteps(full, waits) + [Writer(Complete)]
  }

  lemma BatchSnoc(full: nat -> bool, waits: seq<bool>, waited: bool)
    ensures BatchSteps(full, waits + [waited]) == BatchSteps(full, waits) + InsertSteps(full(|waits|), waited)
  {
    assert (waits + [waited])[..|waits|] == waits;
  }

  lemma Swaps(s: State)
    requires Inv(s) && WriterEnabled(s, Swap)
    ensures SwapsAt(s, WriterApply(s, Swap))
  {
    hide Inv, TableSideInv, ReaderSideInv;
    Sides(s);
    SwapFrom(s);
  }

  lemma SwapFrom(s: State)
    requires MemorySideInv(s) && WriterEnabled(s, Swap)
    ensures SwapsAt(s, WriterApply(s, Swap))
  {
    hide PipelineInv, HistoryOk, Outcome, EncodeAll;
  }

  lemma Wakes(s: State)
    requires Inv(s) && WriterEnabled(s, WakeFlusher)
    ensures WakesAt(s, WriterApply(s, WakeFlusher))
  {
    hide Inv;
    HandshakeHolds(s);
  }

  lemma Opens(s: State)
    requires WellFormed(s) && WriterEnabled(s, OpenLog)
    ensures OpensAt(s, WriterApply(s, OpenLog))
  {
  }

  /** The writer is where it was, and so is what only it changes. */
  ghost predicate WriterStands(s: State, t: State) {
    t.w == s.w && t.m.active == s.m.active && SameProgress(s, t)
  }

  lemma SameForWriter(s: State, t: State)
    requires Same(TheWriter, s, t)
    ensures WriterStands(s, t)
  {
  }

  lemma JobIsThere(s: State)
    requires Inv(s)
    ensures s.w == NextJob && s.p.inserted < s.p.taken ==> s.p.inserted < |s.p.writes|
    ensures s.w == Inserting ==> s.p.inserted < |s.p.writes|
  {
  }

  lemma NoneAhead(s: State)
    requires Inv(s)
    ensures s.p.inserted <= s.p.taken && (s.w == Consuming ==> s.p.inserted == s.p.taken)
  {
  }

  lemma WriterTakes(s: State, step: WriterStep)
    requires WellFormed(s) && WriterEnabled(s, step)
    ensures Enabled(s, Writer(step)) && Apply(s, Writer(step)) == WriterApply(s, step)
  {
  }

  lemma FlusherTakes(s: State, step: FlusherStep)
    requires WellFormed(s) && FlusherEnabled(s, step)
    ensures Enabled(s, Flusher(step)) && Apply(s, Flusher(step)) == FlusherApply(s, step)
  {
  }

  function FrozenTable(s: State): Table {
    if |s.m.tables| == 2 && s.m.active < 2 then s.m.tables[1 - s.m.active] else map[]
  }

  /** The step appends one table with the given contents to level 0 and leaves the memtables alone. */
  ghost predicate PublishesAt(s: State, t: State, contents: Table) {
    && |s.levels| == |t.levels| > 0 && |t.levels[0]| == |s.levels[0]| + 1 && s.levels[0] <= t.levels[0]
    && t.levels[0][|s.levels[0]|].contents == contents
    && t.m == s.m && FrozenTable(s) == contents
  }

  /** The flusher lowers `inactive_flushing` once the frozen memtable and its log are empty, and gives the writer its
      token exactly if the writer waits for it. */
  ghost predicate EndsFlush(s: State, t: State) {
    && WellFormed(s) && WellFormed(t) && t.m == s.m
    && s.m.tables[Other(s.m)] == map[] && s.m.logs[Other(s.m)] == []
    && s.h.inactiveFlushing && t.h == Handshake(s.h.startFlush, if s.w == Waiting then 1 else 0, false, false)
  }

  /** The flusher goes to sleep, and wakes the first compactor exactly if it sees enough tables on level 0. */
  ghost predicate SignalsAt(s: State, t: State, saturate: bool) {
    && WellFormed(s) && WellFormed(t) && t.f == Asleep && t.levels == s.levels
    && t.start == (if COMPACTION_TRIGGER <= |s.levels[0]| then s.start[0 := Release(s.start[0], saturate)] else s.start)
  }

  /** The flusher's sections behind the publication. */
  function RestOfRound(saturate: bool): seq<Step> {
    [Flusher(ClearMemtable), Flusher(ClearLog), Flusher(EndFlush), Flusher(SignalCompactor(saturate))]
  }

  /** The flusher's sections in one round. */
  function FlushRound(saturate: bool): seq<Step> {
    [Flusher(BeginFlush), Flusher(BuildTable), Flusher(PublishTable)] + RestOfRound(saturate)
  }

  lemma Ends(s: State)
    requires MemorySideInv(s) && s.f == Unsetting
    ensures EndsFlush(s, FlusherApply(s, EndFlush))
  {
    hide PipelineInv, HistoryOk, Outcome, EncodeAll;
  }

  lemma Signals(s: State, saturate: bool)
    requires WellFormed(s) && s.f == Signalling
    ensures SignalsAt(s, FlusherApply(s, SignalCompactor(saturate)), saturate)
  {
  }

  /** The publication as the flusher takes it. */
  lemma Publishes(s: State)
    requires WellFormed(s) && s.f.Publishing? && s.f.table == FrozenTable(s)
    ensures PublishesAt(s, FlusherApply(s, PublishTable), s.f.table)
  {
  }

  function NextCompactorStep(pc: CompactorPc, saturate: bool): CompactorStep {
    match pc
    case Idle => BeginCompaction
    case Checking => CheckSize(saturate)
    case Choosing(_) => Choose
    case Chosen(_, _) => ReadMaxLevel
    case Merging(_, _, _) => AddMerged
    case Added(_) => RemoveMerged
    case Removed(_) => CompareMaxLevel
    case Bumping(_) => StoreMaxLevel
    case Rechecking(_) => Recheck
    case Notifying(_) => NotifyNext(saturate)
  }

  /** How far a compactor is from going back to sleep. */
  function RoundLeft(pc: CompactorPc): nat {
    match pc
    case Idle => 0
    case Checking => 100
    case Choosing(l) => if l < MAX_LEVEL then 10 * (MAX_LEVEL - l) + 9 else 9
    case Chosen(l, _) => if l < MAX_LEVEL then 10 * (MAX_LEVEL - l) + 8 else 8
    case Merging(l, _, _) => if l < MAX_LEVEL then 10 * (MAX_LEVEL - l) + 7 else 7
    case Added(l) => if l < MAX_LEVEL then 10 * (MAX_LEVEL - l) + 6 else 6
    case Removed(l) => if l < MAX_LEVEL then 10 * (MAX_LEVEL - l) + 5 else 5
    case Bumping(l) => if l < MAX_LEVEL then 10 * (MAX_LEVEL - l) + 4 else 4
    case Rechecking(l) => if l < MAX_LEVEL then 10 * (MAX_LEVEL - l) + 3 else 3
    case Notifying(_) => 1
  }

  lemma CompactorTakes(s: State, i: nat, step: CompactorStep)
    requires WellFormed(s) && CompactorEnabled(s, i, step)
    ensures Enabled(s, Compactor(i, step)) && Apply(s, Compactor(i, step)) == CompactorApply(s, i, step)
  {
  }

  /** A compactor that is awake is never stuck, never finds fewer tables than it needs, and gets closer to sleep. */
  lemma CompactorReady(s: State, i: nat, saturate: bool)
    requires WellFormed(s) && TableSideInv(s) && i < NUM_COMPACTORS && s.c[i] != Idle
    ensures Enabled(s, Compactor(i, NextCompactorStep(s.c[i], saturate)))
    ensures var t := Apply(s, Compactor(i, NextCompactorStep(s.c[i], saturate)));
            |t.c| == NUM_COMPACTORS && RoundLeft(t.c[i]) < RoundLeft(s.c[i])
  {
    hide TilingInv, WakeInv, Weight, MergeFiles;
    assert CompactorOk(s.levels, s.maxLevel, i, s.c[i]);
  }

  /** What `get` answers: at some instant of the call, with the first `target` writes in place, the version of the key
      as it is handed out; or nothing, for a key deleted then. */
  ghost predicate AnswersCall(s: State, key: Key, found: Option<Entry>, target: nat) {
    && Answers(s, key, Visible(found), target) && s.p.inserted == |s.p.history| <= |s.p.writes|
    && Finds(found, VersionAfter(s.p.history, s.p.inserted, key))
    && (key != [] ==> Finds(found, Lookup(Replay(s.p.writes[..s.p.inserted]), key)))
  }

  /** Nothing is made up: what was found was written to the key. */
  ghost predicate WasWritten(writes: seq<Write>, key: Key, found: Option<Entry>) {
    found.Some? ==> exists n :: 0 <= n < |writes| && writes[n] == Write(key, found.value)
  }

  lemma AnswerOfGet(states: seq<State>, steps: seq<Step>, i: nat, r: nat, key: Key, before: State)
    requires IsRun(states, steps) && i < |steps| && steps[i] == Client(BeginGet(r, key)) && states[i] == before
    requires r in states[|steps|].readers && states[|steps|].readers[r].Done?
    ensures exists m :: i < m < |states| && AnswersCall(states[m], key, states[|steps|].readers[r].found, |before.p.writes|)
    ensures WasWritten(states[|steps|].p.writes, key, states[|steps|].readers[r].found)
  {
    hide Inv, VersionAfter, Replay, Next, Moves, Search, VisibleAfter;
    var m := GetFindsVersion(states, steps, i, |steps|, r, key);
    RunInv(states, steps, m);
    HistoryHolds(states[m]);
    InsertedBound(states[m]);
    SearchIsCurrent(states[m], key);
    VisibleIsVersion(states[m].p.history, states[m].p.inserted, key);
    if key != [] { VersionOfWrites(states[m].p, states[m].p.inserted, key); }
    RunIsTrace(states, steps, r);
    BeginIsRecorded(states[i], r, key, states[i + 1]);
    ReaderIdentity(states, i + 1, |steps|, r);
    LastInv(states, steps);
    if states[|steps|].readers[r].found.Some? { FoundWasWritten(states[|steps|], r); }
  }

  lemma AnswerOfGetTells(states: seq<State>, steps: seq<Step>, i: nat, r: nat, key: Key, before: State)
    requires IsRun(states, steps) && i < |steps| && steps[i] == Client(BeginGet(r, key)) && states[i] == before
    requires r in states[|steps|].readers && states[|steps|].readers[r].Done?
    requires NonEmptyValues(states[|steps|].p.writes)
    ensures exists m, view :: i < m < |states| && Tells(Reported(states[|steps|].readers[r].found), view)
              && Answers(states[m], key, view, |before.p.writes|)
  {
    hide Answers, Tells;
    AnswersAreExact(states, steps, i, |steps|, r, key);
  }

  function LookStep(r: nat, g: Reader): ClientStep {
    if g.AtActive? then ReadActive(r) else if g.AtInactive? then ReadInactive(r) else ReadLevel(r)
  }

  lemma LookMoves(s: State, r: nat)
    requires WellFormed(s) && r in s.readers && !s.readers[r].Awaiting? && !s.readers[r].Done?
    ensures Enabled(s, Client(LookStep(r, s.readers[r])))
    ensures var t := Apply(s, Client(LookStep(r, s.readers[r])));
            r in t.readers && !t.readers[r].Awaiting? && t.readers[r].key == s.readers[r].key
            && Remaining(t.readers[r]) < Remaining(s.readers[r])
  {
  }

  lemma ClientTakes(s: State, step: ClientStep)
    requires WellFormed(s) && ClientEnabled(s, step)
    ensures Enabled(s, Client(step)) && Apply(s, Client(step)) == ClientApply(s, step)
  {
  }

  lemma LastInv(states: seq<State>, steps: seq<Step>)
    requires IsRun(states, steps)
    ensures |states| == |steps| + 1 && Inv(states[|steps|]) && Reachable(states[|steps|])
  {
    hide Inv;
    RunInv(states, steps, |steps|);
    WellFormedFrom(states[|steps|]);
  }

  lemma SameForFlusher(s: State, t: State)
    requires Same(TheFlusher, s, t)
    ensures t.f == s.f && t.flushes == s.flushes
  {
  }

  lemma CompactorSideHolds(s: State)
    requires TableSideInv(s)
    ensures CompactorInv(s.levels, s.c, s.maxLevel)
  {
  }

  lemma IsReachable(states: seq<State>, steps: seq<Step>, n: nat)
    requires IsRun(states, steps) && n < |states|
    ensures Inv(states[n]) && WellFormed(states[n]) && Reachable(states[n])
  {
    hide Inv, Next;
    RunInv(states, steps, n);
    WellFormedFrom(states[n]);
    forall k {:trigger steps[..n][k]} | 0 <= k < n ensures Next(states[..n + 1][k], steps[..n][k], states[..n + 1][k + 1]) {
      assert Next(states[k], steps[k], states[k + 1]);
    }
    assert IsRun(states[..n + 1], steps[..n]) && states[..n + 1][|steps[..n]|] == states[n];
  }

  lemma RunEnds(states: seq<State>, steps: seq<Step>)
    requires IsRun(states, steps)
    ensures |states| == |steps| + 1
  {
  }

  lemma SameSelf(me: Thread, s: State)
    requires WellFormed(s)
    ensures Same(me, s, s)
  {
  }

  lemma WellFormedFrom(s: State)
    requires Inv(s)
    ensures WellFormed(s)
  {
  }

  lemma RunExtends(states: seq<State>, steps: seq<Step>, step: Step)
    requires IsRun(states, steps) && WellFormed(states[|steps|]) && Enabled(states[|steps|], step)
    ensures IsRun(states + [Apply(states[|steps|], step)], steps + [step])
  {
    hide Enabled, Apply, WellFormed;
    var ss, ts := states + [Apply(states[|steps|], step)], steps + [step];
    forall n {:trigger ts[n]} | 0 <= n < |ts| ensures Next(ss[n], ts[n], ss[n + 1]) {
      if n < |steps| { assert Next(states[n], steps[n], states[n + 1]); }
    }
  }
}
