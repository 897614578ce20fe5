/** The threads of the store as programs. Each method is the body of one call or of one round of a thread's
    loop, in the order of its statements. Between two atomic sections any other threads may take any steps;
    a thread that would block returns and leaves the others to go on. */
module Db {
  import opened Bytes
  import opened Entries
  import opened StoreModel
  import opened StoreInvariant
  import opened StoreMemory
  import opened StoreSafety
  import opened StoreTheorems
  import opened StoreAnswers
  import opened Threads
  import opened Rounds

  class DB {
    var state: State
    /** History: the run so far. */
    ghost var states: seq<State>
    ghost var steps: seq<Step>
    /** How often other threads have been let run. */
    ghost var turns: nat

    ghost predicate Valid()
      reads this
    {
      IsRun(states, steps) && state == states[|steps|]
    }

    constructor ()
      ensures Valid() && state == Init && steps == [] && turns == 0
    {
      state := Init;
      states, steps, turns := [Init], [], 0;
    }

    /** One atomic section. */
    method Do(step: Step)
      requires Valid() && WellFormed(state) && Enabled(state, step)
      modifies this
      ensures Valid() && Inv(state) && state == Apply(old(state), step)
      ensures states == old(states) + [state] && steps == old(steps) + [step] && turns == old(turns)
      ensures Mine(ThreadOf(step), steps) == old(Mine(ThreadOf(step), steps)) + [step]
    {
      hide Inv, Enabled, Apply, WellFormed;
      RunExtends(states, steps, step);
      MineSnoc(ThreadOf(step), steps, step);
      state := Apply(state, step);
      states, steps := states + [state], steps + [step];
      RunInv(states, steps, |steps|);
    }

    /** Other threads run for a while. */
    method Others(me: Thread, schedule: seq<Step>)
      requires Valid()
      modifies this
      ensures Valid() && Inv(state) && old(states) <= states && old(steps) <= steps && Same(me, old(state), state)
      ensures Mine(me, steps) == old(Mine(me, steps)) && turns == old(turns) + 1
    {
      hide Inv, Enabled, Apply, IsRun;
      LastInv(states, steps);
      WellFormedFrom(state);
      var i := 0;
      SameSelf(me, state);
      while i < |schedule|
        invariant Valid() && Inv(state) && WellFormed(state) && old(states) <= states && old(steps) <= steps
        invariant Same(me, old(state), state) && |old(state).c| == |state.c|
        invariant Mine(me, steps) == old(Mine(me, steps)) && turns == old(turns)
      {
        if ThreadOf(schedule[i]) != me && Enabled(state, schedule[i]) {
          LastInv(states, steps);
          OthersLeave(me, state, schedule[i]);
          MineSnoc(me, steps, schedule[i]);
          ghost var before := state;
          Do(schedule[i]);
          WellFormedFrom(state);
          SameTwice(me, old(state), before, state);
        }
        i := i + 1;
      }
      turns := turns + 1;
    }

    // ---------- clients ----------

    /** `put`: every call that goes through adds one write, whose number is its place in the queue. */
    method Put(w: Write, others: seq<Step>) returns (done: bool, number: nat)
      requires Valid()
      modifies this
      ensures Valid() && old(states) <= states
      ensures done == old(state.p.delivered == |state.p.writes|)
      ensures Mine(Putter, steps) == old(Mine(Putter, steps)) + if done then [Client(Reserve(w)), Client(Deliver)] else []
      ensures if done then number == |state.p.writes| && state.p.writes == old(state.p.writes) + [w] && state.p.delivered == number
              else state == old(state)
    {
      hide Inv, IsRun, Apply, Enabled, Mine;
      LastInv(states, steps);
      WellFormedFrom(state);
      if state.p.delivered != |state.p.writes| { return false, 0; }
      ClientTakes(state, Reserve(w));
      Do(Client(Reserve(w)));
      number := |state.p.writes|;
      Others(Putter, others);
      WellFormedFrom(state);
      ClientTakes(state, Deliver);
      Do(Client(Deliver));
      done := true;
    }

    /** `get`: waits until every write received before the call is completed, then searches both memtables and
        the levels one after the other. What it hands out is the version of the key at some instant of the call, with all
        those writes in place; or nothing, for a key deleted then. */
    method Get(r: nat, key: Key, others: nat -> seq<Step>, patience: nat) returns (done: bool, found: Option<Str>)
      requires Valid() && r !in state.readers
      modifies this
      ensures Valid() && old(states) <= states && r in state.readers && state.readers[r].key == key
      ensures done ==> state.readers[r].Done? && found == Reported(state.readers[r].found)
      ensures done ==> exists m :: |old(states)| <= m < |states|
                         && AnswersCall(states[m], key, state.readers[r].found, |old(state.p.writes)|)
      ensures done && NonEmptyValues(state.p.writes) ==>
                exists m, view :: |old(states)| <= m < |states| && Tells(found, view)
                  && Answers(states[m], key, view, |old(state.p.writes)|)
      ensures done ==> WasWritten(state.p.writes, key, state.readers[r].found)
      ensures !done ==> found == None && state.p.completed < state.readers[r].target == |old(state.p.writes)|
                          && turns == old(turns) + patience
    {
      hide Inv, IsRun, Apply, Enabled, Look, Answers, AnswersCall, WasWritten;
      LastInv(states, steps);
      WellFormedFrom(state);
      ghost var i, before := |steps|, state;
      ClientTakes(state, BeginGet(r, key));
      Do(Client(BeginGet(r, key)));
      done := AwaitCompleted(r, others, patience, i, key);
      if !done { return false, None; }
      WellFormedFrom(state);
      ClientTakes(state, StartSearch(r));
      Do(Client(StartSearch(r)));
      Search(r, others, patience, i, key);
      AnswerOfGet(states, steps, i, r, key, before);
      if NonEmptyValues(state.p.writes) { AnswerOfGetTells(states, steps, i, r, key, before); }
      found := Reported(state.readers[r].found);
    }

    /** Waits for the writer; gives up after `patience` notifications. */
    method AwaitCompleted(r: nat, others: nat -> seq<Step>, patience: nat, ghost i: nat, ghost key: Key) returns (reached: bool)
      requires Valid() && Inv(state) && r in state.readers && state.readers[r].Awaiting?
      requires i < |steps| && steps[i] == Client(BeginGet(r, key))
      modifies this
      ensures Valid() && Inv(state) && old(states) <= states && i < |steps| && steps[i] == Client(BeginGet(r, key))
      ensures r in state.readers && state.readers[r].Awaiting? && state.readers[r].target == old(state.readers[r].target) && state.readers[r].key == old(state.readers[r].key)
      ensures (reached <==> state.readers[r].target <= state.p.completed) && (!reached ==> turns == old(turns) + patience)
    {
      hide Inv, IsRun;
      var n := 0;
      while state.p.completed < state.readers[r].target && n < patience
        invariant n <= patience && turns == old(turns) + n
        invariant Valid() && Inv(state) && old(states) <= states && i < |steps| && steps[i] == Client(BeginGet(r, key))
        invariant r in state.readers && state.readers[r].Awaiting? && state.readers[r].target == old(state.readers[r].target) && state.readers[r].key == old(state.readers[r].key)
        decreases patience - n
      {
        Others(Getter(r), others(n));
        n := n + 1;
      }
      reached := state.p.completed >= state.readers[r].target;
    }

    /** `search`: active memtable, inactive memtable, then the levels from 0 up, until something is found. */
    method Search(r: nat, others: nat -> seq<Step>, from: nat, ghost i: nat, ghost key: Key)
      requires Valid() && Inv(state) && r in state.readers && state.readers[r].AtActive?
      requires i < |steps| && steps[i] == Client(BeginGet(r, key))
      modifies this
      ensures Valid() && Inv(state) && old(states) <= states && i < |steps| && steps[i] == Client(BeginGet(r, key))
      ensures r in state.readers && state.readers[r].Done? && state.readers[r].key == old(state.readers[r].key)
    {
      hide Inv, IsRun, Apply, Enabled, Look;
      var n := from;
      while !state.readers[r].Done?
        invariant Valid() && Inv(state) && old(states) <= states && i < |steps| && steps[i] == Client(BeginGet(r, key))
        invariant r in state.readers && !state.readers[r].Awaiting? && state.readers[r].key == old(state.readers[r].key)
        decreases Remaining(state.readers[r])
      {
        Others(Getter(r), others(n));
        n := n + 1;
        WellFormedFrom(state);
        LookMoves(state, r);
        Do(Client(LookStep(r, state.readers[r])));
      }
    }

    // ---------- flusher ----------

    /** One section of the flusher, behind which other threads run for a while. */
    method FlusherDoes(step: FlusherStep, others: seq<Step>)
      requires Valid() && Inv(state) && WellFormed(state) && FlusherEnabled(state, step)
      modifies this
      ensures Valid() && Inv(state) && WellFormed(state) && |old(states)| < |states| && old(states) <= states
      ensures Mine(TheFlusher, steps) == old(Mine(TheFlusher, steps)) + [Flusher(step)]
      ensures |old(states)| > 0 && states[|old(states)| - 1] == old(state) && states[|old(states)|] == FlusherApply(old(state), step)
      ensures Same(TheFlusher, FlusherApply(old(state), step), state)
      ensures state.f == FlusherApply(old(state), step).f && state.flushes == FlusherApply(old(state), step).flushes
      ensures others == [] ==> state == FlusherApply(old(state), step) && |states| == |old(states)| + 1
    {
      hide Inv, IsRun, Apply, Enabled, FlusherApply, FlusherEnabled, Same, Mine, WellFormed;
      RunEnds(states, steps);
      FlusherTakes(state, step);
      Do(Flusher(step));
      ghost var done := state;
      WellFormedFrom(state);
      SameSelf(TheFlusher, state);
      if others != [] { Others(TheFlusher, others); }
      WellFormedFrom(state);
      SameForFlusher(done, state);
    }

    /** One round of `memtableFlush`. It publishes one table, which holds what the frozen memtable held when the flusher
        woke up, and only then clears the memtable and its log, ends the flush and looks at level 0. */
    method MemtableFlush(others: nat -> seq<Step>, saturate: bool) returns (done: bool)
      requires Valid() && state.f == Asleep
      modifies this
      ensures Valid() && old(states) <= states && state.f == Asleep && WellFormed(state) && ShowsInserted(state)
      ensures done == (old(state.h.startFlush) > 0) && state.flushes == old(state.flushes) + if done then 1 else 0
      ensures Mine(TheFlusher, steps) == old(Mine(TheFlusher, steps)) + if done then FlushRound(saturate) else []
      ensures done ==> exists m :: |old(states)| <= m && m + 1 < |states|
                         && PublishesAt(states[m], states[m + 1], FrozenTable(old(state)))
      ensures done ==> exists m :: |old(states)| <= m && m + 1 < |states| && EndsFlush(states[m], states[m + 1])
      ensures done ==> |states| > 2 && SignalsAt(states[|states| - 2], state, saturate)
    {
      hide Inv, IsRun, Mine, PublishesAt, EndsFlush, SignalsAt, ShowsInserted, FrozenTable, FlushRound, Reachable, Same;
      LastInv(states, steps);
      WellFormedFrom(state);
      done := state.h.startFlush > 0;
      if done { FlushFrozen(others, saturate); }
      InsertedShow(state);
    }

    /** The round proper. */
    method FlushFrozen(others: nat -> seq<Step>, saturate: bool)
      requires Valid() && Inv(state) && WellFormed(state) && state.f == Asleep && state.h.startFlush > 0
      modifies this
      ensures Valid() && Inv(state) && WellFormed(state) && old(states) <= states && state.f == Asleep
      ensures state.flushes == old(state.flushes) + 1
      ensures Mine(TheFlusher, steps) == old(Mine(TheFlusher, steps)) + FlushRound(saturate)
      ensures exists m :: |old(states)| <= m && m + 1 < |states| && PublishesAt(states[m], states[m + 1], FrozenTable(old(state)))
      ensures exists m :: |old(states)| <= m && m + 1 < |states| && EndsFlush(states[m], states[m + 1])
      ensures |states| > 2 && SignalsAt(states[|states| - 2], state, saturate)
    {
      hide Inv, IsRun, Mine, PublishesAt, EndsFlush, SignalsAt, FrozenTable, RestOfRound, WellFormed, Same;
      BuildFromMemtable(others);
      ghost var m := |states| - 1;
      PublishFrozen(others(2));
      assert PublishesAt(states[m], states[m + 1], FrozenTable(old(state)));
      FlushRest(others, saturate);
    }

    /** The table is published. */
    method PublishFrozen(others: seq<Step>)
      requires Valid() && Inv(state) && WellFormed(state) && state.f == Publishing(FrozenTable(state))
      modifies this
      ensures Valid() && Inv(state) && WellFormed(state) && old(states) < states && state.f == Clearing
      ensures state.flushes == old(state.flushes) + 1
      ensures Mine(TheFlusher, steps) == old(Mine(TheFlusher, steps)) + [Flusher(PublishTable)]
      ensures |old(states)| > 0 && PublishesAt(states[|old(states)| - 1], states[|old(states)|], FrozenTable(old(state)))
    {
      hide Inv, IsRun, Mine, PublishesAt, FrozenTable, Same;
      Publishes(state);
      FlusherDoes(PublishTable, others);
    }

    /** The part of the round up to the publication: the signal is taken and the table built from the frozen memtable. */
    method BuildFromMemtable(others: nat -> seq<Step>)
      requires Valid() && Inv(state) && WellFormed(state) && state.f == Asleep && state.h.startFlush > 0
      modifies this
      ensures Valid() && Inv(state) && WellFormed(state) && old(states) < states && state.flushes == old(state.flushes)
      ensures Mine(TheFlusher, steps) == old(Mine(TheFlusher, steps)) + [Flusher(BeginFlush), Flusher(BuildTable)]
      ensures states[|old(states)|].h.startFlush == old(state.h.startFlush) - 1
      ensures state.f == Publishing(FrozenTable(old(state))) && FrozenTable(state) == FrozenTable(old(state))
    {
      hide Inv, IsRun, Mine;
      FlusherDoes(BeginFlush, others(0));
      FlusherDoes(BuildTable, others(1));
    }

    /** The part of the round behind the publication: frozen memtable and log are cleared. */
    method FlushRest(others: nat -> seq<Step>, saturate: bool)
      requires Valid() && Inv(state) && WellFormed(state) && state.f == Clearing
      modifies this
      ensures Valid() && Inv(state) && WellFormed(state) && old(states) <= states && state.f == Asleep && state.flushes == old(state.flushes)
      ensures Mine(TheFlusher, steps) == old(Mine(TheFlusher, steps)) + RestOfRound(saturate)
      ensures exists m :: |old(states)| <= m && m + 1 < |states| && EndsFlush(states[m], states[m + 1])
      ensures |states| > 2 && SignalsAt(states[|states| - 2], state, saturate)
    {
      hide Inv, IsRun, Mine, EndsFlush, SignalsAt, Same;
      FlusherDoes(ClearMemtable, others(3));
      FlusherDoes(ClearLog, others(4));
      FinishFlush(others, saturate);
    }

    /** `inactive_flushing` is lowered, the writer gets its token if it waits for it, and level 0 is looked at. */
    method FinishFlush(others: nat -> seq<Step>, saturate: bool)
      requires Valid() && Inv(state) && WellFormed(state) && state.f == Unsetting
      modifies this
      ensures Valid() && Inv(state) && WellFormed(state) && old(states) <= states && state.f == Asleep && state.flushes == old(state.flushes)
      ensures Mine(TheFlusher, steps) == old(Mine(TheFlusher, steps)) + [Flusher(EndFlush), Flusher(SignalCompactor(saturate))]
      ensures |states| >= |old(states)| + 2 > 2 && EndsFlush(states[|old(states)| - 1], states[|old(states)|])
      ensures SignalsAt(states[|states| - 2], state, saturate)
    {
      hide Inv, IsRun, Mine, EndsFlush, SignalsAt, Same, MemorySideInv, TableSideInv, ReaderSideInv;
      Sides(state);
      Ends(state);
      FlusherDoes(EndFlush, others(5));
      Signals(state, saturate);
      FlusherDoes(SignalCompactor(saturate), []);
    }

    // ---------- compactors ----------

    /** One round of `compactor`, from its wakeup until it sleeps again, level by level. If its lowest level has enough
        tables at the wakeup, the four oldest of them are merged. */
    method CompactorRound(i: nat, others: nat -> seq<Step>, saturate: bool) returns (done: bool)
      requires Valid() && i < NUM_COMPACTORS && WellFormed(state) && state.c[i] == Idle
      modifies this
      ensures Valid() && old(states) <= states && WellFormed(state) && state.c[i] == Idle
      ensures done == (old(state).start[i] > 0)
      ensures done ==> |old(steps)| < |steps| && steps[|old(steps)|] == Compactor(i, BeginCompaction)
      ensures done && COMPACTION_TRIGGER <= |old(state).levels[i]| ==>
                exists p, q :: Merges(states, i, |old(steps)|, |steps|, p, q, old(state).levels[i][..COMPACTION_TRIGGER])
      ensures done ==> |states| > 2 && SleepsAt(states[|states| - 2], state, i, saturate)
      ensures ShowsInserted(state) && NothingOwed(state, i)
    {
      hide Inv, IsRun, Apply, Enabled, Merges, SleepsAt, ShowsInserted, NothingOwed;
      LastInv(states, steps);
      if state.start[i] == 0 {
        Settled(state, i);
        return false;
      }
      ghost var a := |steps|;
      CompactorTakes(state, i, BeginCompaction);
      Do(Compactor(i, BeginCompaction));
      var n := 0;
      while state.c[i] != Idle
        invariant Valid() && Inv(state) && old(states) <= states && WellFormed(state) && |states| == |steps| + 1
        invariant a < |steps| && states[a] == old(state) && steps[a] == Compactor(i, BeginCompaction)
        invariant state.c[i] == Idle ==> |states| > 2 && SleepsAt(states[|states| - 2], state, i, saturate)
        decreases RoundLeft(state.c[i])
      {
        CompactorSection(i, others(n), saturate);
        n := n + 1;
      }
      LastInv(states, steps);
      RoundMerges(states, steps, i, a);
      Settled(state, i);
      done := true;
    }

    /** The next atomic section of a compactor that is awake. */
    method CompactorSection(i: nat, others: seq<Step>, saturate: bool)
      requires Valid() && Inv(state) && i < NUM_COMPACTORS && WellFormed(state) && state.c[i] != Idle
      modifies this
      ensures Valid() && Inv(state) && WellFormed(state) && old(states) <= states && old(steps) <= steps && |states| == |steps| + 1
      ensures |old(steps)| < |steps| && steps[|steps| - 1] == Compactor(i, NextCompactorStep(old(state).c[i], saturate))
      ensures RoundLeft(state.c[i]) < RoundLeft(old(state).c[i])
      ensures state.c[i] == Idle ==> SleepsAt(states[|states| - 2], state, i, saturate)
    {
      hide Inv, IsRun, Apply, Enabled, TableSideInv, MemorySideInv, ReaderSideInv, RoundLeft, NextCompactorStep, SleepsAt, CompactorInv;
      Others(TheCompactor(i), others);
      WellFormedFrom(state);
      Sides(state);
      CompactorReady(state, i, saturate);
      CompactorSideHolds(state);
      Sleeps(state, i, saturate);
      RunEnds(states, steps);
      Do(Compactor(i, NextCompactorStep(state.c[i], saturate)));
      WellFormedFrom(state);
    }

    // ---------- writer ----------

    /** One section of the writer, behind which other threads run for a while. */
    method WriterDoes(step: WriterStep, others: seq<Step>)
      requires Valid() && Inv(state) && WellFormed(state) && WriterEnabled(state, step)
      modifies this
      ensures Valid() && Inv(state) && WellFormed(state) && |old(states)| < |states| && old(states) <= states
      ensures Mine(TheWriter, steps) == old(Mine(TheWriter, steps)) + [Writer(step)]
      ensures |old(states)| > 0 && states[|old(states)| - 1] == old(state) && states[|old(states)|] == WriterApply(old(state), step)
      ensures WriterStands(WriterApply(old(state), step), state) && turns >= old(turns)
      ensures others == [] ==> state == WriterApply(old(state), step) && |states| == |old(states)| + 1
    {
      hide Inv, IsRun, Apply, Enabled, WriterApply, WriterEnabled, Same, Mine, WellFormed, WriterStands;
      RunEnds(states, steps);
      WriterTakes(state, step);
      Do(Writer(step));
      ghost var done := state;
      WellFormedFrom(state);
      SameSelf(TheWriter, state);
      if others != [] { Others(TheWriter, others); }
      WellFormedFrom(state);
      SameForWriter(done, state);
    }

    /** Other threads run while the writer waits. */
    method WriterWaits(others: seq<Step>)
      requires Valid()
      modifies this
      ensures Valid() && Inv(state) && WellFormed(state) && old(states) <= states && WriterStands(old(state), state)
      ensures Mine(TheWriter, steps) == old(Mine(TheWriter, steps)) && turns == old(turns) + 1
    {
      hide Inv, IsRun, Same, Mine, WriterStands;
      Others(TheWriter, others);
      WellFormedFrom(state);
      SameForWriter(old(state), state);
    }

    /** `checkAndHandleFlush`; `full` is the outcome of the size test. The memtables are swapped exactly if it says so. */
    method CheckAndHandleFlush(full: bool, others: nat -> seq<Step>, patience: nat) returns (done: bool)
      requires Valid() && Inv(state) && WellFormed(state) && state.w == Deciding
      modifies this
      ensures Valid() && Inv(state) && WellFormed(state) && old(states) <= states && SameProgress(old(state), state)
      ensures if done then state.w == NextJob else full && Blocked(state)
      ensures turns >= old(turns) + if done then 0 else patience
      ensures done ==> (full <==> state.m.active != old(state.m.active))
      ensures done ==> exists waited :: Mine(TheWriter, steps) == old(Mine(TheWriter, steps)) + CheckSteps(full, waited)
      ensures done && full ==> exists m :: |old(states)| <= m && m + 1 < |states| && SwapsAt(states[m], states[m + 1])
    {
      hide Inv, IsRun, Mine, SwapsAt, Blocked, HandleSteps, Same;
      WriterDoes(Decide(full), others(0));
      if !full {
        assert CheckSteps(full, false) == [Writer(Decide(full))];
        return true;
      }
      ghost var before := Mine(TheWriter, steps);
      done := HandleFlush(others, patience);
      if done {
        ghost var waited :| Mine(TheWriter, steps) == before + HandleSteps(waited);
        assert Mine(TheWriter, steps) == old(Mine(TheWriter, steps)) + CheckSteps(full, waited);
      }
    }

    /** A flush is due: the writer waits for the last one to end, and swaps the memtables. */
    method HandleFlush(others: nat -> seq<Step>, patience: nat) returns (done: bool)
      requires Valid() && Inv(state) && WellFormed(state) && state.w == Guarding
      modifies this
      ensures Valid() && Inv(state) && WellFormed(state) && old(states) <= states && SameProgress(old(state), state)
      ensures if done then state.w == NextJob && state.m.active == 1 - old(state.m.active) else Blocked(state)
      ensures turns >= old(turns) + if done then 0 else patience
      ensures done ==> exists waited :: Mine(TheWriter, steps) == old(Mine(TheWriter, steps)) + HandleSteps(waited)
      ensures done ==> exists m :: |old(states)| <= m && m + 1 < |states| && SwapsAt(states[m], states[m + 1])
    {
      hide Inv, IsRun, Mine, SwapsAt, WakesAt, OpensAt, SwapSteps, Unread;
      ghost var before := Mine(TheWriter, steps);
      WriterDoes(CheckFlushing, others(1));
      ghost var waited := state.w == Waiting;
      if state.w == Waiting {
        done := AwaitFlusher(others, patience);
        if !done { return false; }
      }
      done := SwapMemtables(others, patience);
      if done { assert Mine(TheWriter, steps) == before + HandleSteps(waited); }
    }

    /** `resume_writes.acquire()`. */
    method AwaitFlusher(others: nat -> seq<Step>, patience: nat) returns (done: bool)
      requires Valid() && Inv(state) && WellFormed(state) && state.w == Waiting
      modifies this
      ensures Valid() && Inv(state) && WellFormed(state) && old(states) <= states && SameProgress(old(state), state)
      ensures if done then state.w == Swapping else state.w == Waiting && state.h.resumeWrites == 0
      ensures turns >= old(turns) + if done then 0 else patience
      ensures state.m.active == old(state.m.active)
      ensures Mine(TheWriter, steps) == old(Mine(TheWriter, steps)) + if done then [Writer(Resume)] else []
    {
      hide Inv, IsRun, Mine;
      var n := 0;
      while state.h.resumeWrites == 0 && n < patience
        invariant n <= patience && turns == old(turns) + n
        invariant Valid() && Inv(state) && WellFormed(state) && old(states) <= states && WriterStands(old(state), state)
        invariant Mine(TheWriter, steps) == old(Mine(TheWriter, steps))
        decreases patience - n
      {
        WriterWaits(others(n));
        n := n + 1;
      }
      if state.h.resumeWrites == 0 { return false; }
      WriterDoes(Resume, others(n));
      done := true;
    }

    /** Takes `active_lock`, swaps the memtables, wakes the flusher and opens a new log. */
    method SwapMemtables(others: nat -> seq<Step>, patience: nat) returns (done: bool)
      requires Valid() && Inv(state) && WellFormed(state) && state.w == Swapping
      modifies this
      ensures Valid() && Inv(state) && WellFormed(state) && old(states) <= states && SameProgress(old(state), state)
      ensures if done then state.w == NextJob && state.m.active == 1 - old(state.m.active) else state.w == Swapping && !Unread(state)
      ensures turns >= old(turns) + if done then 0 else patience
      ensures Mine(TheWriter, steps) == old(Mine(TheWriter, steps)) + if done then SwapSteps() else []
      ensures done ==> exists m: nat :: |old(states)| - 1 <= m && m + 1 < |states| && SwapsAt(states[m], states[m + 1])
      ensures done ==> exists m :: |old(states)| <= m && m + 1 < |states| && WakesAt(states[m], states[m + 1])
      ensures done ==> |states| > 2 && OpensAt(states[|states| - 2], state)
    {
      hide Inv, IsRun, Mine, SwapsAt, WakesAt, OpensAt;
      var n := 0;
      while !Unread(state) && n < patience
        invariant n <= patience && turns == old(turns) + n
        invariant Valid() && Inv(state) && WellFormed(state) && old(states) <= states && WriterStands(old(state), state)
        invariant Mine(TheWriter, steps) == old(Mine(TheWriter, steps))
        decreases patience - n
      {
        WriterWaits(others(n));
        n := n + 1;
      }
      if !Unread(state) { return false; }
      HandOver(others, n);
      done := true;
    }

    /** The frozen memtable is handed over to the flusher. */
    method HandOver(others: nat -> seq<Step>, n: nat)
      requires Valid() && Inv(state) && WellFormed(state) && WriterEnabled(state, Swap)
      modifies this
      ensures Valid() && Inv(state) && WellFormed(state) && old(states) <= states && SameProgress(old(state), state)
      ensures state.w == NextJob && state.m.active == 1 - old(state.m.active) && turns >= old(turns)
      ensures Mine(TheWriter, steps) == old(Mine(TheWriter, steps)) + SwapSteps()
      ensures 0 < |old(states)| < |states| && SwapsAt(states[|old(states)| - 1], states[|old(states)|])
      ensures exists m :: |old(states)| <= m && m + 1 < |states| && WakesAt(states[m], states[m + 1])
      ensures |states| > 2 && OpensAt(states[|states| - 2], state)
    {
      hide Inv, IsRun, Mine, SwapsAt, WakesAt, OpensAt;
      Swaps(state);
      WriterDoes(Swap, others(n));
      Wakes(state);
      ghost var m := |states| - 1;
      WriterDoes(WakeFlusher, others(n + 1));
      assert WakesAt(states[m], states[m + 1]);
      Opens(state);
      WriterDoes(OpenLog, []);
    }

    /** `insert`: first the log, then the memtable, then the flush check. */
    method Insert(full: bool, others: nat -> seq<Step>, patience: nat) returns (done: bool)
      requires Valid() && Inv(state) && WellFormed(state) && state.w == NextJob && state.p.inserted < state.p.taken
      modifies this
      ensures Valid() && Inv(state) && WellFormed(state) && old(states) <= states
      ensures state.p.taken == old(state.p.taken) && state.p.inserted == old(state.p.inserted) + 1
      ensures state.p.completed == old(state.p.completed)
      ensures if done then state.w == NextJob else full && Blocked(state)
      ensures turns >= old(turns) + if done then 0 else patience
      ensures done ==> (full <==> state.m.active != old(state.m.active))
      ensures done ==> exists waited :: Mine(TheWriter, steps) == old(Mine(TheWriter, steps)) + InsertSteps(full, waited)
    {
      hide Inv, IsRun, Mine, CheckSteps, Blocked;
      JobIsThere(state);
      WriterDoes(AppendLog, others(0));
      JobIsThere(state);
      WriterDoes(InsertMemtable, others(1));
      ghost var before := Mine(TheWriter, steps);
      done := CheckAndHandleFlush(full, others, patience);
      if done {
        ghost var waited :| Mine(TheWriter, steps) == before + CheckSteps(full, waited);
        assert Mine(TheWriter, steps) == old(Mine(TheWriter, steps)) + InsertSteps(full, waited);
      }
    }

    /** One round of `writer`: a batch of writes is taken, inserted one by one and then acknowledged; from then
        on an instantaneous search shows all of them. */
    method WriterRound(batch: nat, full: nat -> bool, others: nat -> seq<Step>, patience: nat) returns (done: bool)
      requires Valid() && state.w == Consuming && 1 <= batch <= MAX_BATCH && state.p.taken + batch <= state.p.delivered
      modifies this
      ensures Valid() && old(states) <= states
      ensures if done then state.w == Consuming && state.p.completed == state.p.inserted == old(state.p.taken) + batch
              else Blocked(state) && state.p.completed == old(state.p.completed) && state.p.taken == old(state.p.taken) + batch
      ensures turns >= old(turns) + if done then 0 else patience
      ensures done ==> WellFormed(state) && ShowsInserted(state)
      ensures done ==> exists waits: seq<bool> :: |waits| == batch
                         && Mine(TheWriter, steps) == old(Mine(TheWriter, steps)) + RoundSteps(batch, full, waits)
    {
      hide Inv, IsRun, ShowsInserted, Mine, BatchSteps, Blocked;
      LastInv(states, steps);
      WellFormedFrom(state);
      NoneAhead(state);
      WriterDoes(Consume(batch), []);
      ghost var waits;
      done, waits := InsertBatch(batch, full, others, patience);
      if !done { return false; }
      WriterDoes(Complete, []);
      InsertedShow(state);
      assert Mine(TheWriter, steps) == old(Mine(TheWriter, steps)) + RoundSteps(batch, full, waits);
    }

    /** The loop over the jobs of a batch. */
    method InsertBatch(batch: nat, full: nat -> bool, others: nat -> seq<Step>, patience: nat)
        returns (done: bool, ghost waits: seq<bool>)
      requires Valid() && Inv(state) && WellFormed(state) && state.w == NextJob && state.p.inserted + batch == state.p.taken
      modifies this
      ensures Valid() && Inv(state) && WellFormed(state) && old(states) <= states
      ensures state.p.taken == old(state.p.taken) && state.p.completed == old(state.p.completed)
      ensures if done then state.w == NextJob && state.p.inserted == state.p.taken && |waits| == batch else Blocked(state)
      ensures turns >= old(turns) + if done then 0 else patience
      ensures done ==> Mine(TheWriter, steps) == old(Mine(TheWriter, steps)) + BatchSteps(full, waits)
    {
      hide Inv, IsRun, Mine, InsertSteps, Blocked;
      var n := 0;
      waits := [];
      while state.p.inserted < state.p.taken
        invariant Valid() && Inv(state) && WellFormed(state) && old(states) <= states && state.w == NextJob
        invariant state.p.taken == old(state.p.taken) && state.p.completed == old(state.p.completed)
        invariant state.p.inserted == old(state.p.inserted) + n && |waits| == n <= batch && turns >= old(turns)
        invariant Mine(TheWriter, steps) == old(Mine(TheWriter, steps)) + BatchSteps(full, waits)
        decreases state.p.taken - state.p.inserted
      {
        ghost var so := Mine(TheWriter, steps);
        done := Insert(full(n), others, patience);
        if !done { return false, waits; }
        ghost var waited :| Mine(TheWriter, steps) == so + InsertSteps(full(n), waited);
        BatchSnoc(full, waits, waited);
        waits := waits + [waited];
        n := n + 1;
      }
      done := true;
    }
  }
}
