/** What the store promises, for every interleaving of its threads. */
module StoreTheorems {
  import opened Bytes
  import opened Entries
  import opened Records
  import opened StoreModel
  import opened Tiling
  import opened StoreInvariant
  import opened StoreTables
  import opened StoreReaders
  import opened StoreMemory
  import opened StoreWakeups
  import opened StoreSafety

  // ---------- the store is a map ----------

  lemma {:induction false} LevelsShowCoverage(history: seq<Event>, levels: seq<seq<Sst>>, c: seq<CompactorPc>, top: nat, l: nat, k: Key)
    requires TilingInv(history, levels, c, top) && top <= |history| && l <= |levels|
    ensures Coverage(LiveTables(levels, c), l) <= |history|
    ensures Visible(ScanLevels(levels, l, k)) == VisibleAfter(history, Coverage(LiveTables(levels, c), l), k)
    decreases |levels| - l
  {
    var live := LiveTables(levels, c);
    CoverageMonotone(live, 0, l);
    if l == |levels| {
      assert history[..0] == [];
    } else {
      LevelsShowCoverage(history, levels, c, top, l + 1, k);
      if ScanTables(levels[l], k).Some? {
        FoundOnLevel(history, levels, c, top, l, k);
      } else {
        AbsentOnLevel(history, levels, c, top, l, k);
        if Coverage(live, l + 1) == 0 { assert history[..0] == []; }
      }
    }
  }

  lemma SearchParts(ws: seq<Event>, n: nat, tables: seq<Table>, active: nat, lo: nat, hi: nat, holding: bool, below: Option<Entry>, k: Key)
    requires TablesOk(ws, n, tables, active, lo, hi, holding)
    requires Visible(below) == VisibleAfter(ws, hi, k) || (holding && Visible(below) == VisibleAfter(ws, lo, k))
    ensures Visible(FirstOf(tables, active, below, k)) == VisibleAfter(ws, n, k)
  {
    if k in tables[active] {
      FoundInRange(ws, hi, n, k);
    } else {
      AbsentIsQuiet(ws, hi, n, k);
      if holding {
        if k in tables[1 - active] { FoundInRange(ws, lo, hi, k); } else { AbsentIsQuiet(ws, lo, hi, k); }
      }
    }
  }

  lemma SearchOfParts(m: Memory, h: Handshake, f: FlusherPc, ws: seq<Event>, n: nat, levels: seq<seq<Sst>>, c: seq<CompactorPc>, k: Key)
    requires TablesOk(ws, n, m.tables, m.active, m.frozenLo, m.frozenHi, Holding(h, f))
    requires TilingInv(ws, levels, c, Top(m, h, f))
    ensures Visible(FirstOf(m.tables, m.active, ScanLevels(levels, 0, k), k)) == VisibleAfter(ws, n, k)
  {
    LevelsShowCoverage(ws, levels, c, Top(m, h, f), 0, k);
    SearchParts(ws, n, m.tables, m.active, m.frozenLo, m.frozenHi, Holding(h, f), ScanLevels(levels, 0, k), k);
  }

  /** In every reachable state an instantaneous search gives what the writes performed so far give. */
  lemma SearchIsCurrent(s: State, k: Key)
    requires Inv(s)
    ensures Visible(Search(s, k)) == VisibleAfter(s.p.history, s.p.inserted, k)
  {
    SearchOfParts(s.m, s.h, s.f, s.p.history, s.p.inserted, s.levels, s.c, k);
  }

  /** The version of `k` that the first `n` writes leave, if none is lost. */
  function VisibleWrites(writes: seq<Write>, n: nat, k: Key): Option<Str>
    requires n <= |writes|
  {
    Visible(Lookup(Replay(writes[..n]), k))
  }

  /** For a key that is not empty nothing is ever lost. */
  lemma {:induction false} NothingLost(p: Pipeline, n: nat, k: Key)
    requires HistoryOk(p) && n <= p.inserted && k != []
    ensures VisibleAfter(p.history, n, k) == VisibleWrites(p.writes, n, k)
  {
    hide Outcome, Replay;
    if n == 0 {
      assert p.history[..0] == [] && p.writes[..0] == [];
      NothingYet();
    } else {
      NothingLost(p, n - 1, k);
      assert p.history[..n] == p.history[..n - 1] + [p.history[n - 1]] && p.writes[..n] == p.writes[..n - 1] + [p.writes[n - 1]];
      OutcomeSnoc(p.history[..n - 1], p.history[n - 1]);
      ReplaySnoc(p.writes[..n - 1], p.writes[n - 1]);
      OneMoreEvent(Outcome(p.history[..n - 1]), Replay(p.writes[..n - 1]), p.history[n - 1], p.writes[n - 1], k);
    }
  }

  lemma NothingYet()
    ensures Outcome([]) == map[] && Replay([]) == map[]
  {
  }

  lemma OneMoreEvent(a: Table, b: Table, e: Event, w: Write, k: Key)
    requires Visible(Lookup(a, k)) == Visible(Lookup(b, k)) && k != []
    requires e == Performed(w) || (e == Lost && w.key == [])
    ensures Visible(Lookup(After(a, e), k)) == Visible(Lookup(Put(b, w), k))
  {
  }

  /** In every reachable state an instantaneous search for a key that is not empty gives what the writes inserted
      so far, performed in order, give. */
  lemma SearchShowsWrites(s: State, k: Key)
    requires Reachable(s) && k != []
    ensures s.p.inserted <= |s.p.writes| && Visible(Search(s, k)) == VisibleWrites(s.p.writes, s.p.inserted, k)
  {
    hide MemoryInv, TilingInv, ReadersInv, LogInv, IsRun, Search, VisibleAfter, VisibleWrites;
    ReachableInv(s);
    SearchIsCurrent(s, k);
    NothingLost(s.p, s.p.inserted, k);
  }

  lemma VisibleAfterSnoc(history: seq<Event>, e: Event, k: Key)
    ensures VisibleAfter(history + [e], |history| + 1, k)
         == if e.Performed? && k == e.write.key then Visible(Some(e.write.entry)) else VisibleAfter(history, |history|, k)
  {
    assert (history + [e])[..|history| + 1] == history + [e] && history[..|history|] == history;
    OutcomeSnoc(history, e);
  }

  lemma VisibleAfterPrefix(a: seq<Event>, b: seq<Event>, n: nat, k: Key)
    requires n <= |a| && a <= b
    ensures VisibleAfter(a, n, k) == VisibleAfter(b, n, k)
  {
    assert a[..n] == b[..n];
  }

  // ---------- what one step moves ----------

  /** Writes are only appended, inserts happen one at a time, a call of `get` keeps its key and target,
      and its search begins with the inserts of that instant. */
  ghost predicate Moves(s: State, t: State, r: nat) {
    && s.p.history <= t.p.history
    && s.p.inserted <= t.p.inserted <= s.p.inserted + 1
    && (r in s.readers ==> r in t.readers && t.readers[r].key == s.readers[r].key && t.readers[r].target == s.readers[r].target)
    && (r in s.readers && !s.readers[r].Awaiting? ==> !t.readers[r].Awaiting? && t.readers[r].since == s.readers[r].since)
    && (r in s.readers && s.readers[r].Awaiting? && !t.readers[r].Awaiting? ==> t.readers[r].since == t.p.inserted)
    && (r !in s.readers && r in t.readers ==> t.readers[r].Awaiting? && t.readers[r].target == |s.p.writes|)
  }

  lemma ClientMoves(s: State, step: ClientStep, r: nat)
    requires WellFormed(s) && ClientEnabled(s, step)
    ensures Moves(s, ClientApply(s, step), r)
  {
  }

  lemma StepMoves(s: State, step: Step, r: nat)
    requires WellFormed(s) && Enabled(s, step)
    ensures Moves(s, Apply(s, step), r)
    ensures Apply(s, step).p.inserted == if step == Writer(InsertMemtable) then s.p.inserted + 1 else s.p.inserted
  {
    if step.Client? { ClientMoves(s, step.client, r); }
  }

  /** The write that the memtable insert performs, unless it is lost. */
  predicate Performs(s: State, step: Step, k: Key)
    requires WellFormed(s)
  {
    && step == Writer(InsertMemtable) && s.p.inserted < |s.p.writes|
    && s.p.writes[s.p.inserted].key == k
    && (k != [] || s.m.tables[s.m.active] != map[])
  }

  lemma ViewMoves(s: State, step: Step, k: Key)
    requires WellFormed(s) && Enabled(s, step) && s.p.inserted == |s.p.history|
    ensures var t := Apply(s, step);
            && t.p.inserted == |t.p.history|
            && VisibleAfter(t.p.history, t.p.inserted, k) ==
               if Performs(s, step, k) then Visible(Some(s.p.writes[s.p.inserted].entry))
               else VisibleAfter(s.p.history, s.p.inserted, k)
  {
    hide VisibleAfter;
    var t := Apply(s, step);
    StepMoves(s, step, 0);
    if step == Writer(InsertMemtable) {
      VisibleAfterSnoc(s.p.history, NewEvent(s), k);
    } else {
      HistoryStays(s, step);
    }
  }

  lemma HistoryStays(s: State, step: Step)
    requires WellFormed(s) && Enabled(s, step) && step != Writer(InsertMemtable)
    ensures Apply(s, step).p.history == s.p.history
  {
  }

  lemma InsertedBound(s: State)
    requires Inv(s)
    ensures WellFormed(s) && s.p.inserted == |s.p.history| <= |s.p.writes|
  {
  }

  /** Seen through `search`, only a memtable insert changes the store, and it changes one key. Swap, publish,
      clear, merge and removal leave the map alone. The one insert that changes nothing is that of the empty
      key into an empty memtable. */
  lemma OnlyInsertsChangeTheMap(s: State, step: Step, k: Key)
    requires Reachable(s) && Enabled(s, step)
    ensures var t := Apply(s, step);
            Visible(Search(t, k)) ==
              if Performs(s, step, k) then Visible(Some(s.p.writes[s.p.inserted].entry)) else Visible(Search(s, k))
  {
    hide Inv, Search, VisibleAfter, Apply, Enabled, IsRun;
    ReachableInv(s);
    InsertedBound(s);
    InvKept(s, step);
    SearchIsCurrent(s, k);
    SearchIsCurrent(Apply(s, step), k);
    ViewMoves(s, step, k);
  }

  // ---------- linearizable reads ----------

  /** Successive states of a run, as far as reader `r` can tell. */
  ghost predicate Trace(states: seq<State>, r: nat) {
    forall n, m :: 0 <= n && m == n + 1 && m < |states| ==> Moves(states[n], states[m], r)
  }

  lemma RunIsTrace(states: seq<State>, steps: seq<Step>, r: nat)
    requires IsRun(states, steps)
    ensures Trace(states, r)
  {
    hide Moves;
    forall n, m | 0 <= n && m == n + 1 && m < |states| ensures Moves(states[n], states[m], r) {
      assert Next(states[n], steps[n], states[m]);
      StepMoves(states[n], steps[n], r);
    }
  }

  lemma {:induction false} WritesGrow(states: seq<State>, r: nat, i: nat, j: nat)
    requires Trace(states, r) && i <= j < |states|
    ensures states[i].p.history <= states[j].p.history
    decreases j
  {
    if i < j {
      WritesGrow(states, r, i, j - 1);
      assert Moves(states[j - 1], states[j], r);
    }
  }

  /** A call keeps its key and target for as long as it lasts. */
  lemma {:induction false} ReaderIdentity(states: seq<State>, i: nat, j: nat, r: nat)
    requires Trace(states, r) && i <= j < |states| && r in states[i].readers
    ensures r in states[j].readers
    ensures states[j].readers[r].key == states[i].readers[r].key && states[j].readers[r].target == states[i].readers[r].target
    decreases j
  {
    if i < j {
      ReaderIdentity(states, i, j - 1, r);
      assert Moves(states[j - 1], states[j], r);
    }
  }

  /** Between the start of the search and state `j` the memtables passed through every count of writes. */
  lemma {:induction false} InstantOf(states: seq<State>, i: nat, j: nat, r: nat, n: nat) returns (m: nat)
    requires Trace(states, r) && i < j < |states| && r !in states[i].readers
    requires r in states[j].readers && !states[j].readers[r].Awaiting?
    requires states[j].readers[r].since <= n <= states[j].p.inserted
    ensures i < m <= j && states[m].p.inserted == n
    decreases j
  {
    assert Moves(states[j - 1], states[j], r);
    if states[j].p.inserted == n { return j; }
    m := InstantOf(states, i, j - 1, r, n);
  }

  lemma DoneShows(s: State, r: nat) returns (n: nat)
    requires ReaderSideInv(s) && r in s.readers && s.readers[r].Done?
    ensures s.readers[r].target <= s.readers[r].since <= n <= s.p.inserted <= |s.p.history|
    ensures VisibleAfter(s.p.history, n, s.readers[r].key) == Visible(s.readers[r].found)
  {
    var g := s.readers[r];
    assert ReaderOk(s.p.history, s.p.inserted, LiveTables(s.levels, s.c), s.m.frozenHi, g);
    n :| g.since <= n <= s.p.inserted && VisibleAfter(s.p.history, n, g.key) == Visible(g.found);
  }

  /** The state at `m` answers a search for `k` with `v`, with the first `target` writes in place. */
  ghost predicate Answers(s: State, k: Key, v: Option<Str>, target: nat) {
    WellFormed(s) && Visible(Search(s, k)) == v && target <= s.p.inserted
  }

  lemma InstantAnswers(states: seq<State>, steps: seq<Step>, m: nat, j: nat, r: nat, n: nat, k: Key)
    requires IsRun(states, steps) && m <= j < |states| && states[m].p.inserted == n <= |states[j].p.history|
    ensures Answers(states[m], k, VisibleAfter(states[j].p.history, n, k), n)
  {
    RunInv(states, steps, m);
    RunIsTrace(states, steps, r);
    WritesGrow(states, r, m, j);
    SearchIsCurrent(states[m], k);
    InsertedBound(states[m]);
    VisibleAfterPrefix(states[m].p.history, states[j].p.history, n, k);
  }

  lemma BeginIsRecorded(s: State, r: nat, k: Key, t: State)
    requires Next(s, Client(BeginGet(r, k)), t)
    ensures r !in s.readers && r in t.readers && t.readers[r] == Awaiting(k, |s.p.writes|)
  {
  }

  /** The invariant, part by part. */
  lemma Sides(s: State)
    requires Inv(s)
    ensures MemorySideInv(s) && TableSideInv(s) && ReaderSideInv(s)
  {
  }

  /** `get` is linearizable, and reads its own writes: in any run, the answer of a call that began at
      `i` and is finished at `j` is what an instantaneous search would have answered at some instant
      between, and at that instant every write numbered before the call began was in place. */
  lemma GetIsLinearizable(states: seq<State>, steps: seq<Step>, i: nat, j: nat, r: nat, k: Key)
    requires IsRun(states, steps) && i < j < |states| && steps[i] == Client(BeginGet(r, k))
    requires r in states[j].readers && states[j].readers[r].Done?
    ensures exists m :: i < m <= j && Answers(states[m], k, Visible(states[j].readers[r].found), |states[i].p.writes|)
  {
    hide Inv, Moves, ReaderSideInv, MemorySideInv, TableSideInv;
    RunInv(states, steps, j);
    Sides(states[j]);
    RunIsTrace(states, steps, r);
    BeginIsRecorded(states[i], r, k, states[i + 1]);
    ReaderIdentity(states, i + 1, j, r);
    var n := DoneShows(states[j], r);
    var m := InstantOf(states, i, j, r, n);
    InstantAnswers(states, steps, m, j, r, n, k);
  }

  /** What the string handed out says about the view: the value of a live key, and for a deleted or missing
      key nothing or the empty string, which then stands for no value. */
  ghost predicate Tells(reported: Option<Str>, view: Option<Str>) {
    && (view.Some? ==> reported == view)
    && (view.Some? <==> reported.Some? && reported.value != [])
  }

  /** The string handed out tells the view of an entry exactly if the entry is not a live empty value. */
  lemma ReportedIsExact(e: Option<Entry>)
    ensures Tells(Reported(e), Visible(e)) <==> e != Some(Live([]))
  {
  }

  ghost predicate NonEmptyValues(writes: seq<Write>) {
    forall n :: 0 <= n < |writes| ==> writes[n].entry != Live([])
  }

  /** A value that is shown was written. */
  lemma {:induction false} ShownWasWritten(p: Pipeline, n: nat, k: Key)
    requires HistoryOk(p) && n <= p.inserted && NonEmptyValues(p.writes)
    ensures VisibleAfter(p.history, n, k) != Some([])
  {
    if n > 0 {
      ShownWasWritten(p, n - 1, k);
      assert p.history[..n] == p.history[..n - 1] + [p.history[n - 1]];
      OutcomeSnoc(p.history[..n - 1], p.history[n - 1]);
    }
  }

  lemma DoneIsExact(s: State, r: nat)
    requires Inv(s) && r in s.readers && s.readers[r].Done? && NonEmptyValues(s.p.writes)
    ensures Tells(Reported(s.readers[r].found), Visible(s.readers[r].found))
  {
    hide Inv, VisibleAfter, NonEmptyValues;
    Sides(s);
    HistoryHolds(s);
    var n := DoneShows(s, r);
    ShownWasWritten(s.p, n, s.readers[r].key);
    ReportedIsExact(s.readers[r].found);
  }

  lemma HistoryHolds(s: State)
    requires Inv(s)
    ensures HistoryOk(s.p)
  {
  }

  /** In a run without empty values, the string that `get` hands out tells exactly what an instantaneous search
      shows at some instant of the call. */
  lemma AnswersAreExact(states: seq<State>, steps: seq<Step>, i: nat, j: nat, r: nat, k: Key)
    requires IsRun(states, steps) && i < j < |states| && steps[i] == Client(BeginGet(r, k))
    requires r in states[j].readers && states[j].readers[r].Done? && NonEmptyValues(states[j].p.writes)
    ensures exists m, view :: i < m <= j && Tells(Reported(states[j].readers[r].found), view)
              && Answers(states[m], k, view, |states[i].p.writes|)
  {
    hide Inv, Answers, Tells, IsRun;
    RunInv(states, steps, j);
    GetIsLinearizable(states, steps, i, j, r, k);
    DoneIsExact(states[j], r);
  }

  // ---------- recency ----------

  /** Read from the deepest level and the oldest table up to level 0 and the newest table, the tables tile
      the published history without gap or overlap. Each stands for its interval: exactly, or, if it reaches
      back to the first write, up to tombstones. The one exception are the four sources of a merge that is
      already listed one level down: they are the front of their level, and end where the deeper levels end. */
  lemma TablesTileTheHistory(s: State, l: nat)
    requires Reachable(s) && l <= MAX_LEVEL
    ensures Tiled(LiveTables(s.levels, s.c)) && Coverage(LiveTables(s.levels, s.c), 0) == Top(s.m, s.h, s.f)
    ensures AllOk(s.p.history, s.levels[l])
    ensures if l < MAX_LEVEL && s.c[Owner(l)] == Added(l)
            then COMPACTION_TRIGGER <= |s.levels[l]| && LiveAt(s.levels, s.c, l) == s.levels[l][COMPACTION_TRIGGER..]
                 && s.levels[l][3].hi == Coverage(LiveTables(s.levels, s.c), l + 1)
            else LiveAt(s.levels, s.c, l) == s.levels[l]
  {
    hide Inv, MemorySideInv, ReaderSideInv, IsRun, WakeInv, CompactorInv, Weight, Tiled, AllOk, Chain;
    ReachableInv(s);
    Sides(s);
    assert LevelOk(s.p.history, s.levels[l]);
  }

  // ---------- tombstones ----------

  lemma NewerAbove(live: seq<seq<Sst>>, q: nat, l: nat, j: nat)
    requires Tiled(live) && q < l < |live| && j < |live[q]|
    ensures Coverage(live, l) <= live[q][j].lo
  {
    hide Coverage;
    CoverageMonotone(live, q + 1, l);
    assert Chain(live[q], Coverage(live, q + 1));
    ChainGrows(live[q], Coverage(live, q + 1));
  }

  /** Every live table outside the merge, on its level and the levels above, is newer than the merge. */
  ghost predicate OthersNewer(levels: seq<seq<Sst>>, live: seq<seq<Sst>>, l: nat, hi: nat)
    requires l < |levels| && l <= |live|
  {
    && (forall q, j :: 0 <= q < l && 0 <= j < |live[q]| ==> hi <= live[q][j].lo)
    && (forall j :: COMPACTION_TRIGGER <= j < |levels[l]| ==> hi <= levels[l][j].lo)
  }

  lemma MergeIsOldest(history: seq<Event>, levels: seq<seq<Sst>>, c: seq<CompactorPc>, top: nat, l: nat)
    requires ReadyToAdd(history, levels, c, top, l)
    ensures OthersNewer(levels, LiveTables(levels, c), l, levels[l][3].hi)
  {
    var live := LiveTables(levels, c);
    LiveUnmarked(levels, c, l);
    assert Chain(live[l], Coverage(live, l + 1));
    ChainSplit(live[l], Coverage(live, l + 1), 4);
    ChainGrows(live[l][4..], live[l][3].hi);
    forall j | 4 <= j < |levels[l]| ensures levels[l][3].hi <= levels[l][j].lo {
      assert levels[l][j] == live[l][4..][j - 4];
    }
    forall q, j | 0 <= q < l && 0 <= j < |live[q]| ensures levels[l][3].hi <= live[q][j].lo {
      NewerAbove(live, q, l, j);
    }
  }

  /** When a merge drops tombstones no deeper level holds a table, the merge reaches back to the first
      write, and every other live table is strictly newer than everything merged. */
  lemma DroppingTombstonesIsSafe(s: State, i: nat)
    requires Reachable(s) && i < NUM_COMPACTORS && s.c[i].Merging? && s.c[i].drop
    ensures var l := s.c[i].level;
            && l < MAX_LEVEL && DeeperEmpty(s.levels, l)
            && COMPACTION_TRIGGER <= |s.levels[l]| && s.c[i].files == s.levels[l][..4] && s.c[i].files[0].lo == 0
            && OthersNewer(s.levels, LiveTables(s.levels, s.c), l, s.c[i].files[3].hi)
  {
    hide Inv, MemorySideInv, ReaderSideInv, TableSideInv, IsRun, TilingInv, OthersNewer;
    ReachableInv(s);
    Sides(s);
    MergingIsReady(s, i);
    DropReachesBack(s.p.history, s.levels, s.c, Top(s.m, s.h, s.f), s.c[i].level);
    MergeIsOldest(s.p.history, s.levels, s.c, Top(s.m, s.h, s.f), s.c[i].level);
  }

  /** The four tables being merged are still the oldest of their level, whatever was appended meanwhile. */
  lemma ChosenPrefixIsStable(s: State, i: nat)
    requires Reachable(s) && i < NUM_COMPACTORS && (s.c[i].Chosen? || s.c[i].Merging?)
    ensures s.c[i].level < MAX_LEVEL && |s.c[i].files| == COMPACTION_TRIGGER
    ensures s.c[i].files <= s.levels[s.c[i].level]
  {
    hide Inv, MemorySideInv, ReaderSideInv, IsRun, TilingInv, WakeInv, Weight;
    ReachableInv(s);
    Sides(s);
    assert CompactorOk(s.levels, s.maxLevel, i, s.c[i]);
  }

  // ---------- logs ----------

  lemma ActiveLogHolds(ws: seq<Write>, n: nat, logs: seq<seq<byte>>, active: nat, lo: nat, hi: nat, held: bool, found: seq<Write>)
    requires LogsOk(ws, n, logs, active, lo, hi, held) && logs[active] == EncodeAll(found)
    ensures found == ws[hi..n]
  {
    EncodeAllInjective(found, ws[hi..n]);
  }

  lemma InactiveLogHolds(ws: seq<Write>, n: nat, logs: seq<seq<byte>>, active: nat, lo: nat, hi: nat, held: bool, found: seq<Write>)
    requires LogsOk(ws, n, logs, active, lo, hi, held) && logs[1 - active] == EncodeAll(found)
    ensures found == if held then ws[lo..hi] else []
  {
    var expected := if held then ws[lo..hi] else [];
    assert EncodeAll([]) == [];
    EncodeAllInjective(found, expected);
  }

  lemma LogsAreRange(ws: seq<Write>, n: nat, logs: seq<seq<byte>>, active: nat, lo: nat, hi: nat, held: bool,
                     inactiveWrites: seq<Write>, activeWrites: seq<Write>)
    requires LogsOk(ws, n, logs, active, lo, hi, held)
    requires logs[1 - active] == EncodeAll(inactiveWrites) && logs[active] == EncodeAll(activeWrites)
    ensures inactiveWrites + activeWrites == ws[if held then lo else hi..n]
  {
    hide EncodeAll;
    ActiveLogHolds(ws, n, logs, active, lo, hi, held, activeWrites);
    InactiveLogHolds(ws, n, logs, active, lo, hi, held, inactiveWrites);
  }

  /** The map left by replaying `logged` over what the tables show. */
  function Recovered(logged: seq<Write>, below: Option<Entry>, k: Key): Option<Entry> {
    if k in Replay(logged) then Some(Replay(logged)[k]) else below
  }

  lemma RecoveredRange(ws: seq<Write>, from: nat, cover: nat, n: nat, below: Option<Entry>, k: Key)
    requires from <= cover <= n <= |ws| && Visible(below) == VisibleWrites(ws, cover, k)
    ensures Visible(Recovered(ws[from..n], below, k)) == VisibleWrites(ws, n, k)
  {
    hide Replay;
    ReplaySplit(ws, 0, from, n);
    ReplaySplit(ws, 0, from, cover);
    ReplaySplit(ws, from, cover, n);
    assert ws[0..n] == ws[..n] && ws[0..cover] == ws[..cover];
  }

  /** The inactive log still has the frozen writes. */
  predicate Held(h: Handshake, f: FlusherPc) {
    h.inactiveFlushing && f != Unsetting
  }

  /** The writes whose records the two logs hold. */
  function InactiveLog(s: State): seq<Write>
    requires s.m.frozenLo <= s.m.frozenHi <= |s.p.writes|
  {
    if Held(s.h, s.f) then s.p.writes[s.m.frozenLo..s.m.frozenHi] else []
  }

  function ActiveLog(s: State): seq<Write>
    requires s.m.frozenHi <= Logged(s.p.inserted, s.w) <= |s.p.writes|
  {
    s.p.writes[s.m.frozenHi..Logged(s.p.inserted, s.w)]
  }

  /** In every reachable state both logs are sequences of whole records: the active one of the writes since the
      last swap, the inactive one of the frozen writes or of none. */
  lemma LogsDecode(s: State)
    requires Reachable(s)
    ensures s.m.frozenLo <= s.m.frozenHi <= s.p.inserted <= Logged(s.p.inserted, s.w) <= s.p.inserted + 1
    ensures Logged(s.p.inserted, s.w) <= |s.p.writes|
    ensures s.m.logs[Other(s.m)] == EncodeAll(InactiveLog(s)) && s.m.logs[s.m.active] == EncodeAll(ActiveLog(s))
  {
    hide Inv, EncodeAll, IsRun;
    ReachableInv(s);
    LogsHold(s);
    NoRecords();
  }

  lemma LogsHold(s: State)
    requires Inv(s)
    ensures WellFormed(s) && s.m.frozenLo <= s.m.frozenHi <= s.p.inserted
    ensures LogsOk(s.p.writes, Logged(s.p.inserted, s.w), s.m.logs, s.m.active, s.m.frozenLo, s.m.frozenHi, Held(s.h, s.f))
  {
    hide EncodeAll, Outcome;
  }

  lemma NoRecords()
    ensures EncodeAll([]) == []
  {
  }

  lemma RecoveredParts(m: Memory, h: Handshake, w: WriterPc, f: FlusherPc, p: Pipeline, levels: seq<seq<Sst>>, c: seq<CompactorPc>,
                       inactive: seq<Write>, active: seq<Write>, k: Key)
    requires LogInv(p.writes, p.inserted, m, h, w, f) && TilingInv(p.history, levels, c, Top(m, h, f))
    requires HistoryOk(p) && m.frozenHi <= p.inserted && k != []
    requires m.logs[Other(m)] == EncodeAll(inactive) && m.logs[m.active] == EncodeAll(active)
    ensures Visible(Recovered(inactive + active, ScanLevels(levels, 0, k), k)) == VisibleWrites(p.writes, Logged(p.inserted, w), k)
  {
    hide EncodeAll, ScanLevels, VisibleAfter, VisibleWrites, Recovered;
    var n, top := Logged(p.inserted, w), Top(m, h, f);
    LogsAreRange(p.writes, n, m.logs, m.active, m.frozenLo, m.frozenHi, Held(h, f), inactive, active);
    LevelsShowCoverage(p.history, levels, c, top, 0, k);
    NothingLost(p, top, k);
    RecoveredRange(p.writes, if Held(h, f) then m.frozenLo else m.frozenHi, top, n, ScanLevels(levels, 0, k), k);
  }

  /** Decoding the inactive and then the active log and replaying both over the published tables gives, for
      every key that is not empty, every write logged so far, which is every inserted write and at most one more. */
  lemma LogsCoverMemory(s: State, inactive: seq<Write>, active: seq<Write>, k: Key)
    requires Reachable(s) && k != []
    requires s.m.logs[Other(s.m)] == EncodeAll(inactive) && s.m.logs[s.m.active] == EncodeAll(active)
    ensures s.p.inserted <= Logged(s.p.inserted, s.w) <= s.p.inserted + 1 && Logged(s.p.inserted, s.w) <= |s.p.writes|
    ensures Visible(Recovered(inactive + active, ScanLevels(s.levels, 0, k), k))
            == VisibleWrites(s.p.writes, Logged(s.p.inserted, s.w), k)
  {
    hide EncodeAll, Recovered, VisibleWrites, ScanLevels, IsRun;
    ReachableInv(s);
    RecoveredParts(s.m, s.h, s.w, s.f, s.p, s.levels, s.c, inactive, active, k);
  }

  // ---------- writer and flusher ----------

  lemma WriterLeavesFrozen(s: State, step: WriterStep)
    requires WellFormed(s) && HandshakeInv(s.h, s.w, s.f) && WriterEnabled(s, step) && Busy(s.f)
    ensures var t := WriterApply(s, step);
            && t.m.active == s.m.active
            && t.m.tables[Other(s.m)] == s.m.tables[Other(s.m)]
            && t.m.logs[Other(s.m)] == s.m.logs[Other(s.m)]
  {
  }

  lemma FlusherLeavesActive(s: State, step: FlusherStep)
    requires WellFormed(s) && FlusherEnabled(s, step)
    ensures var t := FlusherApply(s, step);
            && t.m.active == s.m.active
            && (step != ClearMemtable ==> t.m.tables == s.m.tables)
            && (step != ClearLog ==> t.m.logs == s.m.logs)
  {
  }

  /** From the flusher's wakeup until it clears `inactive_flushing` no step changes which memtable is
      active, and no step but the flusher's own clearing touches the frozen memtable or its log. */
  lemma FlusherSeesStableMemtable(s: State, step: Step)
    requires Reachable(s) && Enabled(s, step) && Busy(s.f)
    ensures Apply(s, step).m.active == s.m.active
    ensures step != Flusher(ClearMemtable) ==> Apply(s, step).m.tables[Other(s.m)] == s.m.tables[Other(s.m)]
    ensures step != Flusher(ClearLog) ==> Apply(s, step).m.logs[Other(s.m)] == s.m.logs[Other(s.m)]
  {
    hide Inv, MemorySideInv, TableSideInv, ReaderSideInv, IsRun, ClientApply, WriterApply, FlusherApply, CompactorApply;
    hide ClientEnabled, WriterEnabled, FlusherEnabled, CompactorEnabled;
    ReachableInv(s);
    HandshakeHolds(s);
    match step {
      case Writer(x) => WriterLeavesFrozen(s, x);
      case Flusher(x) => FlusherLeavesActive(s, x);
      case Client(_) =>
      case Compactor(i, x) => CompactorLeavesMemory(s, i, x);
    }
  }

  lemma HandshakeHolds(s: State)
    requires Inv(s)
    ensures WellFormed(s) && HandshakeInv(s.h, s.w, s.f)
  {
  }

  lemma CompactorLeavesMemory(s: State, i: nat, step: CompactorStep)
    requires WellFormed(s) && CompactorEnabled(s, i, step)
    ensures CompactorApply(s, i, step).m == s.m
  {
  }

  /** The pair of memtable and log that a swap makes active is empty. */
  lemma SwapFindsEmptyPair(s: State)
    requires Reachable(s) && s.w == Swapping
    ensures s.m.tables[Other(s.m)] == map[] && s.m.logs[Other(s.m)] == []
  {
    hide Inv, TableSideInv, ReaderSideInv, IsRun;
    ReachableInv(s);
    Sides(s);
  }

  /** The two semaphores between writer and flusher are released only while they are not set. */
  lemma SemaphoresStayBinary(s: State)
    requires Reachable(s)
    ensures s.h.startFlush <= 1 && s.h.resumeWrites <= 1
    ensures s.w == Releasing ==> s.h.startFlush == 0
    ensures s.f == Unsetting && s.h.writerWaiting ==> s.h.resumeWrites == 0
  {
    hide Inv, TableSideInv, ReaderSideInv, IsRun;
    ReachableInv(s);
    Sides(s);
  }

  /** A waiting writer has a token coming: set already, or owed by a flusher that is awake or about to wake. */
  lemma WriterIsNeverForgotten(s: State)
    requires Reachable(s) && s.w == Waiting
    ensures s.h.resumeWrites == 1 || (s.h.writerWaiting && (s.h.startFlush == 1 || Busy(s.f)))
  {
    hide Inv, TableSideInv, ReaderSideInv, IsRun;
    ReachableInv(s);
    Sides(s);
  }

  // ---------- wakeups and the base-4 counter ----------

  /** A sleeping compactor never has four tables to merge without a wakeup under way. */
  lemma NoLostWakeup(s: State, i: nat)
    requires Reachable(s)
    requires i < NUM_COMPACTORS && s.c[i] == Idle && COMPACTION_TRIGGER <= |s.levels[i]|
    ensures Pending(s.start, s.c, s.f, i)
  {
    hide Inv, MemorySideInv, ReaderSideInv, IsRun, TilingInv, CompactorInv, Weight;
    ReachableInv(s);
    Sides(s);
    assert WakeOk(s.levels, s.start, s.c, s.f, i);
  }

  lemma UpperLevelsAreDrained(s: State, l: nat)
    requires Reachable(s) && s.c[2] == Idle && 3 <= l < MAX_LEVEL
    ensures |s.levels[l]| < COMPACTION_TRIGGER
  {
    hide Inv, MemorySideInv, ReaderSideInv, IsRun, TilingInv, CompactorInv, Weight;
    ReachableInv(s);
    Sides(s);
    assert CascadeOk(s.levels, s.c[2], l);
  }

  /** No background thread can take a step. */
  ghost predicate Quiescent(s: State)
    requires WellFormed(s)
  {
    && (forall x: WriterStep :: !WriterEnabled(s, x))
    && (forall x: FlusherStep :: !FlusherEnabled(s, x))
    && (forall i: nat, x: CompactorStep :: !CompactorEnabled(s, i, x))
  }

  lemma QuiescentFlusher(s: State)
    requires WellFormed(s) && (forall x: FlusherStep :: !FlusherEnabled(s, x))
    ensures s.f == Asleep && s.h.startFlush == 0
  {
    assert !FlusherEnabled(s, BeginFlush) && !FlusherEnabled(s, BuildTable) && !FlusherEnabled(s, PublishTable);
    assert !FlusherEnabled(s, ClearMemtable) && !FlusherEnabled(s, ClearLog) && !FlusherEnabled(s, EndFlush);
    assert !FlusherEnabled(s, SignalCompactor(false));
  }

  lemma QuiescentWriter(s: State)
    requires WellFormed(s) && PipelineInv(s.p, s.w) && HandshakeInv(s.h, s.w, s.f)
    requires forall x: WriterStep :: !WriterEnabled(s, x)
    requires s.f == Asleep && s.h.startFlush == 0
    requires forall r :: r in s.readers ==> !s.readers[r].AtInactive?
    ensures s.w == Consuming && s.p.completed == s.p.inserted == s.p.delivered && !s.h.inactiveFlushing
  {
    assert !WriterEnabled(s, Consume(1)) && !WriterEnabled(s, AppendLog) && !WriterEnabled(s, InsertMemtable);
    assert !WriterEnabled(s, Decide(true)) && !WriterEnabled(s, CheckFlushing) && !WriterEnabled(s, Resume);
    assert !WriterEnabled(s, Swap) && !WriterEnabled(s, WakeFlusher) && !WriterEnabled(s, OpenLog);
    assert !WriterEnabled(s, Complete);
  }

  lemma QuiescentCompactor(s: State, i: nat)
    requires WellFormed(s) && CompactorInv(s.levels, s.c, s.maxLevel) && i < NUM_COMPACTORS
    requires forall x: CompactorStep :: !CompactorEnabled(s, i, x)
    ensures s.c[i] == Idle && s.start[i] == 0
  {
    assert CompactorOk(s.levels, s.maxLevel, i, s.c[i]);
    assert !CompactorEnabled(s, i, BeginCompaction) && !CompactorEnabled(s, i, CheckSize(false));
    assert !CompactorEnabled(s, i, Choose) && !CompactorEnabled(s, i, ReadMaxLevel);
    assert !CompactorEnabled(s, i, AddMerged) && !CompactorEnabled(s, i, RemoveMerged);
    assert !CompactorEnabled(s, i, CompareMaxLevel) && !CompactorEnabled(s, i, StoreMaxLevel);
    assert !CompactorEnabled(s, i, Recheck) && !CompactorEnabled(s, i, NotifyNext(false));
  }

  lemma IdleLevelsAreSmall(s: State)
    requires WellFormed(s) && WakeInv(s.levels, s.start, s.c, s.f) && s.f == Asleep
    requires forall i :: 0 <= i < NUM_COMPACTORS ==> s.c[i] == Idle && s.start[i] == 0
    ensures forall l :: 0 <= l < MAX_LEVEL ==> |s.levels[l]| < COMPACTION_TRIGGER
  {
    forall l | 0 <= l < MAX_LEVEL ensures |s.levels[l]| < COMPACTION_TRIGGER {
      if l < 3 { assert WakeOk(s.levels, s.start, s.c, s.f, l); } else { assert CascadeOk(s.levels, s.c[2], l); }
    }
  }

  /** The tables count the flushes: without the sources of a merge that is already listed, the sizes of the
      levels, weighted by powers of four, always add up to the number of flushes. */
  lemma TablesCountFlushes(s: State)
    requires Reachable(s)
    ensures Weight(LiveTables(s.levels, s.c)) == s.flushes
    ensures (forall i :: 0 <= i < NUM_COMPACTORS ==> !s.c[i].Added?) ==> Weight(s.levels) == s.flushes
  {
    hide Inv, MemorySideInv, ReaderSideInv, IsRun, TilingInv, WakeInv, CompactorInv, Weight;
    ReachableInv(s);
    Sides(s);
    if forall i :: 0 <= i < NUM_COMPACTORS ==> !s.c[i].Added? { assert LiveTables(s.levels, s.c) == s.levels; }
  }

  /** Whenever flusher and compactors sleep with no signal pending, the sizes of levels 0 to 6 are the base-4
      digits of the number of flushes, and level 7 holds the rest. */
  lemma IdleCountsAreDigits(s: State)
    requires Reachable(s) && s.f == Asleep
    requires forall i :: 0 <= i < NUM_COMPACTORS ==> s.c[i] == Idle && s.start[i] == 0
    ensures forall l :: 0 <= l < MAX_LEVEL ==> |s.levels[l]| == Digit(s.flushes, l)
    ensures |s.levels[MAX_LEVEL]| == Quotient(s.flushes, MAX_LEVEL)
  {
    hide Inv, MemorySideInv, ReaderSideInv, IsRun, TilingInv, CompactorInv, Weight, Digit, Quotient;
    ReachableInv(s);
    Sides(s);
    IdleLevelsAreSmall(s);
    TablesCountFlushes(s);
    CountIsBase4(s.levels, s.flushes);
  }

  /** The background threads never deadlock: if none of them can move (and no client is between its two
      memtable reads) every delivered write has been inserted and acknowledged, and nothing is owed:
      the numbers of tables on levels 0 to 6 are the base-4 digits of the number of flushes, and level 7
      holds the rest. */
  lemma StuckMeansDone(s: State)
    requires Reachable(s) && Quiescent(s)
    requires forall r :: r in s.readers ==> !s.readers[r].AtInactive?
    ensures s.p.completed == s.p.inserted == s.p.delivered
    ensures s.f == Asleep && !s.h.inactiveFlushing && forall i :: 0 <= i < NUM_COMPACTORS ==> s.c[i] == Idle
    ensures forall l :: 0 <= l < MAX_LEVEL ==> |s.levels[l]| == Digit(s.flushes, l)
    ensures |s.levels[MAX_LEVEL]| == Quotient(s.flushes, MAX_LEVEL)
  {
    ReachableInv(s);
    QuiescentFlusher(s);
    QuiescentWriter(s);
    forall i | 0 <= i < NUM_COMPACTORS ensures s.c[i] == Idle && s.start[i] == 0 { QuiescentCompactor(s, i); }
    IdleCountsAreDigits(s);
  }
}
