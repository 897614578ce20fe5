/** What exactly a search hands out: which version of the key, and when nothing at all. */
module StoreAnswers {
  import opened Bytes
  import opened Entries
  import opened StoreModel
  import opened StoreInvariant
  import opened StoreMemory
  import opened StoreSafety
  import opened StoreTheorems

  /** Some write gave `k` the version `e`. */
  ghost predicate Wrote(history: seq<Event>, k: Key, e: Entry) {
    exists n :: 0 <= n < |history| && history[n] == Performed(Write(k, e))
  }

  ghost predicate Sourced(history: seq<Event>, t: Table) {
    forall k :: k in t ==> Wrote(history, k, t[k])
  }

  ghost predicate LevelSourced(history: seq<Event>, ts: seq<Sst>) {
    forall j :: 0 <= j < |ts| ==> Sourced(history, ts[j].contents)
  }

  ghost predicate ReaderSourced(history: seq<Event>, g: Reader) {
    g.Done? && g.found.Some? ==> Wrote(history, g.key, g.found.value)
  }

  /** Every version in a published table, and every version found, was written to its key. */
  ghost predicate SourcesInv(s: State) {
    && (forall l :: 0 <= l < |s.levels| ==> LevelSourced(s.p.history, s.levels[l]))
    && (forall r :: r in s.readers ==> ReaderSourced(s.p.history, s.readers[r]))
  }

  // ---------- writes and maps ----------

  lemma WroteLater(a: seq<Event>, b: seq<Event>, k: Key, e: Entry)
    requires Wrote(a, k, e) && a <= b
    ensures Wrote(b, k, e)
  {
    var n :| 0 <= n < |a| && a[n] == Performed(Write(k, e));
    assert b[n] == a[n];
  }

  lemma {:induction false} OutcomeSourced(es: seq<Event>)
    ensures Sourced(es, Outcome(es))
  {
    if es != [] {
      var init, last := es[..|es| - 1], es[|es| - 1];
      OutcomeSourced(init);
      forall k | k in Outcome(es) ensures Wrote(es, k, Outcome(es)[k]) {
        if last.Performed? && last.write.key == k {
          assert es[|es| - 1] == Performed(Write(k, last.write.entry));
        } else {
          WroteLater(init, es, k, Outcome(init)[k]);
        }
      }
    }
  }

  lemma RangeSourced(history: seq<Event>, lo: nat, hi: nat)
    requires lo <= hi <= |history|
    ensures Sourced(history, Outcome(history[lo..hi]))
  {
    hide Outcome;
    var es := history[lo..hi];
    OutcomeSourced(es);
    forall k | k in Outcome(es) ensures Wrote(history, k, Outcome(es)[k]) {
      var n :| 0 <= n < |es| && es[n] == Performed(Write(k, Outcome(es)[k]));
      assert history[lo + n] == es[n];
    }
  }

  lemma MemtablesSourced(s: State)
    requires MemorySideInv(s)
    ensures forall x :: 0 <= x < 2 ==> Sourced(s.p.history, s.m.tables[x])
    ensures s.f.Publishing? ==> Sourced(s.p.history, s.f.table)
  {
    hide PipelineInv, LogInv, HandshakeInv, Sourced;
    TwoSourced(s.p.history, s.p.inserted, s.m.tables, s.m.active, s.m.frozenLo, s.m.frozenHi, Holding(s.h, s.f));
  }

  lemma TwoSourced(history: seq<Event>, inserted: nat, tables: seq<Table>, active: nat, lo: nat, hi: nat, holding: bool)
    requires TablesOk(history, inserted, tables, active, lo, hi, holding)
    ensures forall x :: 0 <= x < 2 ==> Sourced(history, tables[x])
  {
    hide Outcome;
    RangeSourced(history, hi, inserted);
    RangeSourced(history, lo, hi);
  }

  lemma {:induction false} UnionSourced(history: seq<Event>, ts: seq<Table>)
    requires forall j :: 0 <= j < |ts| ==> Sourced(history, ts[j])
    ensures Sourced(history, NewestWins(ts))
  {
    if ts != [] { UnionSourced(history, ts[..|ts| - 1]); }
  }

  lemma MergeSourced(history: seq<Event>, files: seq<Sst>, drop: bool)
    requires files != [] && LevelSourced(history, files)
    ensures Sourced(history, MergeFiles(files, drop).contents)
  {
    hide NewestWins;
    UnionSourced(history, Contents(files));
  }

  lemma {:induction false} ScanSourced(history: seq<Event>, ts: seq<Sst>, k: Key)
    requires LevelSourced(history, ts)
    ensures ScanTables(ts, k).Some? ==> Wrote(history, k, ScanTables(ts, k).value)
  {
    if ts != [] { ScanSourced(history, ts[..|ts| - 1], k); }
  }

  // ---------- every step ----------

  lemma SourcesLater(s: State, t: State)
    requires SourcesInv(s) && s.p.history <= t.p.history && t.levels == s.levels && t.readers == s.readers
    ensures SourcesInv(t)
  {
    hide Wrote;
    forall k, e | Wrote(s.p.history, k, e) ensures Wrote(t.p.history, k, e) { WroteLater(s.p.history, t.p.history, k, e); }
    forall l | 0 <= l < |s.levels| ensures LevelSourced(t.p.history, s.levels[l]) {
      assert LevelSourced(s.p.history, s.levels[l]);
    }
    forall r | r in s.readers ensures ReaderSourced(t.p.history, s.readers[r]) {
      assert ReaderSourced(s.p.history, s.readers[r]);
    }
  }

  lemma LookSourced(s: State, g: Reader)
    requires MemorySideInv(s) && SourcesInv(s) && (g.AtActive? || g.AtInactive? || g.AtLevel?)
    ensures ReaderSourced(s.p.history, Look(s, g))
  {
    hide MemorySideInv, Wrote, ReaderSourced;
    WellFormedSide(s);
    MemtablesSourced(s);
    if g.AtLevel? && g.level <= MAX_LEVEL { ScanSourced(s.p.history, s.levels[g.level], g.key); }
    LookCases(s, g);
  }

  lemma LookCases(s: State, g: Reader)
    requires WellFormed(s) && (g.AtActive? || g.AtInactive? || g.AtLevel?)
    requires forall x :: 0 <= x < 2 ==> Sourced(s.p.history, s.m.tables[x])
    requires g.AtLevel? && g.level <= MAX_LEVEL ==>
               var e := ScanTables(s.levels[g.level], g.key); e.Some? ==> Wrote(s.p.history, g.key, e.value)
    ensures ReaderSourced(s.p.history, Look(s, g))
  {
    hide Wrote, ScanTables;
  }

  lemma ClientKeepsSources(s: State, step: ClientStep)
    requires MemorySideInv(s) && SourcesInv(s) && WellFormed(s) && ClientEnabled(s, step)
    ensures SourcesInv(ClientApply(s, step))
  {
    hide MemorySideInv, LevelSourced, Look;
    match step {
      case ReadActive(r) => LookSourced(s, s.readers[r]);
      case ReadInactive(r) => LookSourced(s, s.readers[r]);
      case ReadLevel(r) => LookSourced(s, s.readers[r]);
      case BeginGet(_, _) =>
      case StartSearch(_) =>
      case Reserve(_) =>
      case Deliver =>
    }
  }

  lemma OneMoreTable(history: seq<Event>, ts: seq<Sst>, t: Sst)
    requires LevelSourced(history, ts) && Sourced(history, t.contents)
    ensures LevelSourced(history, ts + [t])
  {
  }

  lemma FlusherKeepsSources(s: State, step: FlusherStep)
    requires MemorySideInv(s) && SourcesInv(s) && WellFormed(s) && FlusherEnabled(s, step)
    ensures SourcesInv(FlusherApply(s, step))
  {
    hide MemorySideInv, LevelSourced, ReaderSourced, Sourced;
    MemtablesSourced(s);
    if step == PublishTable { OneMoreTable(s.p.history, s.levels[0], Published(s)); }
  }

  lemma CompactorKeepsSources(s: State, i: nat, step: CompactorStep)
    requires SourcesInv(s) && WellFormed(s) && CompactorInv(s.levels, s.c, s.maxLevel) && CompactorEnabled(s, i, step)
    ensures SourcesInv(CompactorApply(s, i, step))
  {
    hide ReaderSourced, Sourced, MergeFiles;
    assert CompactorOk(s.levels, s.maxLevel, i, s.c[i]);
    if step == AddMerged {
      var files, l := s.c[i].files, s.c[i].level;
      assert LevelSourced(s.p.history, s.levels[l]) && LevelSourced(s.p.history, s.levels[l + 1]);
      MergeSourced(s.p.history, files, s.c[i].drop);
      OneMoreTable(s.p.history, s.levels[l + 1], MergeFiles(files, s.c[i].drop));
    } else if step == RemoveMerged {
      assert LevelSourced(s.p.history, s.levels[s.c[i].level]);
    }
  }

  lemma StepKeepsSources(s: State, step: Step)
    requires Inv(s) && SourcesInv(s) && Enabled(s, step)
    ensures SourcesInv(Apply(s, step))
  {
    hide Inv, TableSideInv, MemorySideInv, ReaderSideInv, SourcesInv, CompactorInv;
    Sides(s);
    WellFormedSide(s);
    match step {
      case Client(x) => ClientKeepsSources(s, x);
      case Writer(x) => WriterAppends(s, x); SourcesLater(s, WriterApply(s, x));
      case Flusher(x) => FlusherKeepsSources(s, x);
      case Compactor(i, x) => CompactorsHold(s); CompactorKeepsSources(s, i, x);
    }
  }

  lemma CompactorsHold(s: State)
    requires TableSideInv(s)
    ensures CompactorInv(s.levels, s.c, s.maxLevel)
  {
  }

  lemma WriterAppends(s: State, step: WriterStep)
    requires WellFormed(s) && WriterEnabled(s, step)
    ensures var t := WriterApply(s, step); s.p.history <= t.p.history && t.levels == s.levels && t.readers == s.readers
  {
  }

  lemma {:induction false} RunSources(states: seq<State>, steps: seq<Step>, n: nat)
    requires IsRun(states, steps) && n < |states|
    ensures SourcesInv(states[n])
  {
    hide Inv, Apply, Enabled;
    if n > 0 {
      hide SourcesInv;
      RunSources(states, steps, n - 1);
      RunInv(states, steps, n - 1);
      assert Next(states[n - 1], steps[n - 1], states[n]);
      StepKeepsSources(states[n - 1], steps[n - 1]);
    }
  }

  lemma ReachableSources(s: State)
    requires Reachable(s)
    ensures SourcesInv(s)
  {
    hide Next, SourcesInv;
    var states, steps :| IsRun(states, steps) && states[|steps|] == s;
    RunSources(states, steps, |steps|);
  }

  // ---------- which version ----------

  /** The version of `k` that the first `n` inserted writes leave. */
  function VersionAfter(history: seq<Event>, n: nat, k: Key): Option<Entry>
    requires n <= |history|
  {
    Lookup(Outcome(history[..n]), k)
  }

  /** A search finds the version itself; or nothing, for a key that is deleted and whose tombstone may be gone. */
  predicate Finds(found: Option<Entry>, version: Option<Entry>) {
    found == version || (found == None && version == Some(Tombstone))
  }

  lemma {:induction false} WrittenStays(history: seq<Event>, i: nat, n: nat)
    requires i < n <= |history| && history[i].Performed?
    ensures VersionAfter(history, n, history[i].write.key).Some?
    ensures n == i + 1 ==> VersionAfter(history, n, history[i].write.key) == Some(history[i].write.entry)
    decreases n
  {
    assert history[..n] == history[..n - 1] + [history[n - 1]];
    OutcomeSnoc(history[..n - 1], history[n - 1]);
    if i < n - 1 { WrittenStays(history, i, n - 1); }
  }

  /** The instant at which a version that looks right is right. */
  lemma ExactInstant(history: seq<Event>, since: nat, n: nat, k: Key, found: Option<Entry>) returns (m: nat)
    requires since <= n <= |history| && Visible(VersionAfter(history, n, k)) == Visible(found)
    requires found.Some? ==> Wrote(history, k, found.value)
    ensures since <= m <= |history| && Finds(found, VersionAfter(history, m, k))
  {
    hide VersionAfter;
    m := n;
    if found == Some(Tombstone) {
      var i :| 0 <= i < |history| && history[i] == Performed(Write(k, Tombstone));
      if since <= i + 1 {
        m := i + 1;
        WrittenStays(history, i, m);
      } else {
        WrittenStays(history, i, n);
      }
    }
  }

  lemma DoneFinds(s: State, r: nat) returns (n: nat)
    requires Inv(s) && SourcesInv(s) && r in s.readers && s.readers[r].Done?
    ensures s.readers[r].target <= s.readers[r].since <= n <= s.p.inserted == |s.p.history|
    ensures Finds(s.readers[r].found, VersionAfter(s.p.history, n, s.readers[r].key))
  {
    hide Inv, MemorySideInv, TableSideInv, ReaderSideInv, VersionAfter, Outcome, LevelSourced, Wrote;
    Sides(s);
    InsertedBound(s);
    var g := s.readers[r];
    var shown := DoneShows(s, r);
    VisibleIsVersion(s.p.history, shown, g.key);
    assert ReaderSourced(s.p.history, g);
    n := ExactInstant(s.p.history, g.since, shown, g.key, g.found);
  }

  lemma VisibleIsVersion(history: seq<Event>, n: nat, k: Key)
    requires n <= |history|
    ensures VisibleAfter(history, n, k) == Visible(VersionAfter(history, n, k))
  {
  }

  lemma VersionPrefix(a: seq<Event>, b: seq<Event>, n: nat, k: Key)
    requires n <= |a| && a <= b
    ensures VersionAfter(a, n, k) == VersionAfter(b, n, k)
  {
    assert a[..n] == b[..n];
  }

  /** The answer of a finished `get` is exact: at some instant of the call, with every write numbered before it in place,
      it is the version that the writes inserted so far leave; or nothing, for a key deleted then. */
  lemma GetFindsVersion(states: seq<State>, steps: seq<Step>, i: nat, j: nat, r: nat, k: Key) returns (m: nat)
    requires IsRun(states, steps) && i < j < |states| && steps[i] == Client(BeginGet(r, k))
    requires r in states[j].readers && states[j].readers[r].Done?
    ensures i < m <= j && |states[i].p.writes| <= states[m].p.inserted == |states[m].p.history|
    ensures Finds(states[j].readers[r].found, VersionAfter(states[m].p.history, states[m].p.inserted, k))
  {
    hide Inv, Moves, ReaderSideInv, MemorySideInv, TableSideInv, VersionAfter, SourcesInv, Finds;
    RunInv(states, steps, j);
    RunSources(states, steps, j);
    RunIsTrace(states, steps, r);
    BeginIsRecorded(states[i], r, k, states[i + 1]);
    ReaderIdentity(states, i + 1, j, r);
    var n := DoneFinds(states[j], r);
    m := InstantOf(states, i, j, r, n);
    RunInv(states, steps, m);
    InsertedBound(states[m]);
    WritesGrow(states, r, m, j);
    VersionPrefix(states[m].p.history, states[j].p.history, n, k);
  }

  /** Nothing is made up: what a search has found was written to its key. */
  lemma FoundWasWritten(s: State, r: nat)
    requires Reachable(s) && r in s.readers && s.readers[r].Done? && s.readers[r].found.Some?
    ensures exists n :: 0 <= n < s.p.inserted <= |s.p.writes| && s.p.writes[n] == Write(s.readers[r].key, s.readers[r].found.value)
  {
    hide Inv, LevelSourced;
    ReachableInv(s);
    ReachableSources(s);
    HistoryHolds(s);
    assert ReaderSourced(s.p.history, s.readers[r]);
    var n :| 0 <= n < |s.p.history| && s.p.history[n] == Performed(Write(s.readers[r].key, s.readers[r].found.value));
    assert s.p.writes[n] == Write(s.readers[r].key, s.readers[r].found.value);
  }

  /** For a key that is not empty the version is what the writes themselves leave. */
  lemma {:induction false} VersionOfWrites(p: Pipeline, n: nat, k: Key)
    requires HistoryOk(p) && n <= p.inserted && k != []
    ensures VersionAfter(p.history, n, k) == Lookup(Replay(p.writes[..n]), k)
  {
    hide Outcome, Replay;
    if n == 0 {
      assert p.history[..0] == [] && p.writes[..0] == [];
      NothingYet();
    } else {
      VersionOfWrites(p, n - 1, k);
      assert p.history[..n] == p.history[..n - 1] + [p.history[n - 1]] && p.writes[..n] == p.writes[..n - 1] + [p.writes[n - 1]];
      OutcomeSnoc(p.history[..n - 1], p.history[n - 1]);
      ReplaySnoc(p.writes[..n - 1], p.writes[n - 1]);
    }
  }

  // ---------- a search in one instant ----------

  /** Some memtable or listed table has a version of `k`. */
  ghost predicate Stored(s: State, k: Key)
    requires WellFormed(s)
  {
    || k in s.m.tables[0] || k in s.m.tables[1]
    || exists l, j :: 0 <= l < |s.levels| && 0 <= j < |s.levels[l]| && k in s.levels[l][j].contents
  }

  lemma {:induction false} ScanFinds(ts: seq<Sst>, k: Key)
    ensures ScanTables(ts, k).Some? <==> exists j :: 0 <= j < |ts| && k in ts[j].contents
  {
    if ts != [] {
      var n := |ts| - 1;
      ScanFinds(ts[..n], k);
      if j :| 0 <= j < n && k in ts[j].contents { assert k in ts[..n][j].contents; }
    }
  }

  lemma {:induction false} LevelsFind(levels: seq<seq<Sst>>, l: nat, k: Key)
    requires l <= |levels|
    ensures ScanLevels(levels, l, k).Some? <==>
              exists q, j :: l <= q < |levels| && 0 <= j < |levels[q]| && k in levels[q][j].contents
    decreases |levels| - l
  {
    if l < |levels| {
      ScanFinds(levels[l], k);
      LevelsFind(levels, l + 1, k);
    }
  }

  lemma {:induction false} LevelsSourced(history: seq<Event>, levels: seq<seq<Sst>>, l: nat, k: Key)
    requires l <= |levels| && forall q :: 0 <= q < |levels| ==> LevelSourced(history, levels[q])
    ensures ScanLevels(levels, l, k).Some? ==> Wrote(history, k, ScanLevels(levels, l, k).value)
    decreases |levels| - l
  {
    hide Wrote, LevelSourced;
    if l < |levels| {
      ScanSourced(history, levels[l], k);
      LevelsSourced(history, levels, l + 1, k);
    }
  }

  /** A search performed in one instant finds the current version of the key, tombstone or not, if any memtable or
      listed table has a version of it, and nothing otherwise. */
  lemma SearchIsExact(s: State, k: Key)
    requires Reachable(s)
    ensures s.p.inserted == |s.p.history|
    ensures Search(s, k) == if Stored(s, k) then VersionAfter(s.p.history, s.p.inserted, k) else None
  {
    hide Inv, VersionAfter, VisibleAfter, MemorySideInv, TableSideInv, ReaderSideInv, ScanLevels, LevelSourced, Wrote;
    ReachableInv(s);
    ReachableSources(s);
    Sides(s);
    InsertedBound(s);
    LevelsFind(s.levels, 0, k);
    LevelsSourced(s.p.history, s.levels, 0, k);
    MemtablesSourced(s);
    SearchIsCurrent(s, k);
    VisibleIsVersion(s.p.history, s.p.inserted, k);
    if Search(s, k) == Some(Tombstone) { TombstoneIsVersion(s.p.history, k); }
  }

  lemma TombstoneIsVersion(history: seq<Event>, k: Key)
    requires Wrote(history, k, Tombstone) && Visible(VersionAfter(history, |history|, k)) == None
    ensures VersionAfter(history, |history|, k) == Some(Tombstone)
  {
    var i :| 0 <= i < |history| && history[i] == Performed(Write(k, Tombstone));
    WrittenStays(history, i, |history|);
  }

  /** How many places a search has still to look at. */
  function Remaining(g: Reader): nat {
    match g
    case Awaiting(_, _) => 12
    case AtActive(_, _, _) => 11
    case AtInactive(_, _, _) => 10
    case AtLevel(_, _, _, l) => if l > MAX_LEVEL then 1 else 9 - l
    case Done(_, _, _, _) => 0
  }

  /** A search that nothing happens beside, to its end. */
  function Undisturbed(s: State, g: Reader): Option<Entry>
    requires WellFormed(s) && !g.Awaiting?
    decreases Remaining(g)
  {
    if g.Done? then g.found else Undisturbed(s, Look(s, g))
  }

  lemma {:induction false} UndisturbedLevels(s: State, g: Reader)
    requires WellFormed(s) && g.AtLevel?
    ensures Undisturbed(s, g) == ScanLevels(s.levels, g.level, g.key)
    decreases Remaining(g)
  {
    hide ScanTables;
    var next := Look(s, g);
    assert Undisturbed(s, g) == Undisturbed(s, next);
    if next.AtLevel? { UndisturbedLevels(s, next); }
  }

  /** Looking at one place after the other finds what a search in one instant finds. */
  lemma UndisturbedFinds(s: State, g: Reader)
    requires WellFormed(s) && g.AtActive?
    ensures Undisturbed(s, g) == Search(s, g.key)
  {
    hide ScanLevels;
    var second := Look(s, g);
    assert Undisturbed(s, g) == Undisturbed(s, second);
    if second.AtInactive? {
      var third := Look(s, second);
      assert Undisturbed(s, second) == Undisturbed(s, third);
      if third.AtLevel? { UndisturbedLevels(s, third); }
    }
  }

  // ---------- acknowledged first ----------

  /** Every search under way or finished waited until all writes numbered before its call were acknowledged. */
  ghost predicate Patient(s: State) {
    forall r :: r in s.readers && !s.readers[r].Awaiting? ==> s.readers[r].target <= s.p.completed
  }

  lemma StepKeepsPatient(s: State, step: Step)
    requires WellFormed(s) && PipelineInv(s.p, s.w) && Enabled(s, step) && Patient(s)
    ensures Patient(Apply(s, step))
  {
    hide Look, HistoryOk;
    match step {
      case Client(x) => ClientKeepsPatient(s, x);
      case Writer(_) =>
      case Flusher(_) =>
      case Compactor(_, _) =>
    }
  }

  lemma ClientKeepsPatient(s: State, step: ClientStep)
    requires WellFormed(s) && ClientEnabled(s, step) && Patient(s)
    ensures Patient(ClientApply(s, step))
  {
  }

  lemma PipelineOf(s: State)
    requires Inv(s)
    ensures WellFormed(s) && PipelineInv(s.p, s.w)
  {
  }

  lemma {:induction false} SearchAfterAcknowledged(states: seq<State>, steps: seq<Step>, n: nat)
    requires IsRun(states, steps) && n < |states|
    ensures Patient(states[n])
  {
    hide Inv, Apply, Enabled;
    if n > 0 {
      hide Patient;
      SearchAfterAcknowledged(states, steps, n - 1);
      RunInv(states, steps, n - 1);
      PipelineOf(states[n - 1]);
      assert Next(states[n - 1], steps[n - 1], states[n]);
      StepKeepsPatient(states[n - 1], steps[n - 1]);
    }
  }
}
