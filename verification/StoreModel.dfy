/** The store of DB.cpp as an interleaved state machine: any number of clients, one writer, one
    flusher and three compactors. Each step is one atomic section of one thread. */
module StoreModel {
  import opened Bytes
  import opened Entries
  import opened Records

  const MAX_LEVEL := 7
  const COMPACTION_TRIGGER := 4
  const NUM_COMPACTORS := 3
  const MAX_BATCH := 10000

  /** A published table. `lo` and `hi` are history: the table stands for writes lo, ..., hi - 1. */
  datatype Sst = Sst(contents: Table, lo: nat, hi: nat)

  /** Program points of the threads. */
  datatype WriterPc = Consuming | NextJob | Inserting | Deciding | Guarding | Waiting | Swapping | Releasing | Opening

  datatype FlusherPc = Asleep | Building | Publishing(table: Table) | Clearing | Erasing | Unsetting | Signalling

  datatype CompactorPc =
    | Idle
    | Checking
    | Choosing(level: nat)
    | Chosen(level: nat, files: seq<Sst>)
    | Merging(level: nat, files: seq<Sst>, drop: bool)
    | Added(level: nat)
    | Removed(level: nat)
    | Bumping(level: nat)
    | Rechecking(level: nat)
    | Notifying(level: nat)

  /** A call of `get`. `since` is history: how many writes the memtables held when the search began. */
  datatype Reader =
    | Awaiting(key: Key, target: nat)
    | AtActive(key: Key, target: nat, since: nat)
    | AtInactive(key: Key, target: nat, since: nat)
    | AtLevel(key: Key, target: nat, since: nat, level: nat)
    | Done(key: Key, target: nat, since: nat, found: Option<Entry>)

  /** Writes by sequence number (write s is `writes[s - 1]`), and how far each stage has come:
      delivered to the ring buffer, taken by the writer, inserted in a memtable, acknowledged. History: what
      became of each inserted write. */
  datatype Pipeline = Pipeline(writes: seq<Write>, delivered: nat, taken: nat, inserted: nat, completed: nat, history: seq<Event>)

  /** The two memtables and their logs. History: the active pair holds the writes from `frozenHi` on,
      the inactive pair was filled with the writes from `frozenLo` to `frozenHi`. */
  datatype Memory = Memory(tables: seq<Table>, logs: seq<seq<byte>>, active: nat, frozenLo: nat, frozenHi: nat)

  datatype Handshake = Handshake(startFlush: nat, resumeWrites: nat, inactiveFlushing: bool, writerWaiting: bool)

  datatype State = State(
    p: Pipeline,
    m: Memory,
    h: Handshake,
    levels: seq<seq<Sst>>,
    maxLevel: nat,
    start: seq<nat>,
    flushes: nat,
    w: WriterPc,
    f: FlusherPc,
    c: seq<CompactorPc>,
    readers: map<nat, Reader>)

  predicate WellFormed(s: State) {
    && |s.m.tables| == 2 && |s.m.logs| == 2 && s.m.active < 2
    && |s.levels| == MAX_LEVEL + 1
    && |s.start| == NUM_COMPACTORS + 1
    && |s.c| == NUM_COMPACTORS
  }

  const Init := State(
    Pipeline([], 0, 0, 0, 0, []),
    Memory([map[], map[]], [[], []], 0, 0, 0),
    Handshake(0, 0, false, false),
    [[], [], [], [], [], [], [], []],
    0,
    [0, 0, 0, 0],
    0,
    Consuming,
    Asleep,
    [Idle, Idle, Idle],
    map[])

  datatype ClientStep =
    | Reserve(write: Write)
    | Deliver
    | BeginGet(r: nat, key: Key)
    | StartSearch(r: nat)
    | ReadActive(r: nat)
    | ReadInactive(r: nat)
    | ReadLevel(r: nat)

  datatype WriterStep =
    | Consume(n: nat)
    | AppendLog
    | InsertMemtable
    | Decide(full: bool)
    | CheckFlushing
    | Resume
    | Swap
    | WakeFlusher
    | OpenLog
    | Complete

  datatype FlusherStep =
    | BeginFlush
    | BuildTable
    | PublishTable
    | ClearMemtable
    | ClearLog
    | EndFlush
    | SignalCompactor(saturate: bool)

  datatype CompactorStep =
    | BeginCompaction
    | CheckSize(saturate: bool)
    | Choose
    | ReadMaxLevel
    | AddMerged
    | RemoveMerged
    | CompareMaxLevel
    | StoreMaxLevel
    | Recheck
    | NotifyNext(saturate: bool)

  datatype Step = Client(client: ClientStep) | Writer(writer: WriterStep) | Flusher(flusher: FlusherStep)
    | Compactor(i: nat, compactor: CompactorStep)

  /** Compactor `i` works on the levels from Lower(i) up to, and not including, Higher(i). */
  function Lower(i: nat): nat { i }

  function Higher(i: nat): nat { if i < 2 then i + 1 else MAX_LEVEL }

  /** The compactor that merges out of level `l`. */
  function Owner(l: nat): nat { if l < 2 then l else 2 }

  /** Release of a semaphore that is a counter, or a flag that a second release leaves set. */
  function Release(n: nat, saturate: bool): (r: nat)
    ensures r > 0 && (r == n <==> saturate && n > 0) && (r != n ==> r == n + 1)
  {
    if saturate && n > 0 then n else n + 1
  }

  function Other(m: Memory): nat
    requires m.active < 2
  {
    1 - m.active
  }

  /** Newest-first scan of one level's list of tables. */
  function ScanTables(ts: seq<Sst>, k: Key): Option<Entry> {
    if ts == [] then None
    else if k in ts[|ts| - 1].contents then Some(ts[|ts| - 1].contents[k])
    else ScanTables(ts[..|ts| - 1], k)
  }

  function ScanLevels(levels: seq<seq<Sst>>, l: nat, k: Key): Option<Entry>
    decreases |levels| - l
  {
    if l >= |levels| then None
    else
      var e := ScanTables(levels[l], k);
      if e.Some? then e else ScanLevels(levels, l + 1, k)
  }

  /** The active memtable hides the inactive one, which hides the levels. */
  function FirstOf(tables: seq<Table>, active: nat, below: Option<Entry>, k: Key): Option<Entry>
    requires |tables| == 2 && active < 2
  {
    if k in tables[active] then Some(tables[active][k])
    else if k in tables[1 - active] then Some(tables[1 - active][k])
    else below
  }

  /** `search` performed in one instant. */
  function Search(s: State, k: Key): Option<Entry>
    requires WellFormed(s)
  {
    FirstOf(s.m.tables, s.m.active, ScanLevels(s.levels, 0, k), k)
  }

  function Contents(ts: seq<Sst>): seq<Table> {
    seq(|ts|, i requires 0 <= i < |ts| => ts[i].contents)
  }

  function MergeFiles(files: seq<Sst>, drop: bool): Sst
    requires files != []
  {
    Sst(Merged(Contents(files), drop), files[0].lo, files[|files| - 1].hi)
  }

  /** The four oldest tables, or all of them if a level were ever shorter. */
  function Oldest(ts: seq<Sst>): seq<Sst> {
    if |ts| < COMPACTION_TRIGGER then ts else ts[..COMPACTION_TRIGGER]
  }

  function WithoutOldest(ts: seq<Sst>): seq<Sst> {
    if |ts| < COMPACTION_TRIGGER then [] else ts[COMPACTION_TRIGGER..]
  }

  function Answer(r: Reader, found: Option<Entry>, otherwise: Reader): Reader
    requires !r.Awaiting?
  {
    if found.Some? then Done(r.key, r.target, r.since, found) else otherwise
  }

  // ---------- clients: put and get ----------

  predicate ClientEnabled(s: State, step: ClientStep)
    requires WellFormed(s)
  {
    match step
    case Reserve(_) => s.p.delivered == |s.p.writes|
    case Deliver => s.p.delivered < |s.p.writes|
    case BeginGet(r, _) => r !in s.readers
    case StartSearch(r) => r in s.readers && s.readers[r].Awaiting? && s.p.completed >= s.readers[r].target
    case ReadActive(r) => r in s.readers && s.readers[r].AtActive?
    case ReadInactive(r) => r in s.readers && s.readers[r].AtInactive?
    case ReadLevel(r) => r in s.readers && s.readers[r].AtLevel?
  }

  /** One step of a search: the reader's next program point, or its answer. */
  function Look(s: State, g: Reader): Reader
    requires WellFormed(s) && (g.AtActive? || g.AtInactive? || g.AtLevel?)
  {
    match g
    case AtActive(k, target, since) =>
      Answer(g, Lookup(s.m.tables[s.m.active], k), AtInactive(k, target, since))
    case AtInactive(k, target, since) =>
      Answer(g, Lookup(s.m.tables[Other(s.m)], k), AtLevel(k, target, since, 0))
    case AtLevel(k, target, since, l) =>
      if l > MAX_LEVEL then Done(k, target, since, None)
      else Answer(g, ScanTables(s.levels[l], k), AtLevel(k, target, since, l + 1))
  }

  function ClientApply(s: State, step: ClientStep): (t: State)
    requires WellFormed(s) && ClientEnabled(s, step)
    ensures t == s.(p := t.p, readers := t.readers)
  {
    match step
    case Reserve(w) => s.(p := s.p.(writes := s.p.writes + [w]))
    case Deliver => s.(p := s.p.(delivered := |s.p.writes|))
    case BeginGet(r, k) => s.(readers := s.readers[r := Awaiting(k, |s.p.writes|)])
    case StartSearch(r) =>
      s.(readers := s.readers[r := AtActive(s.readers[r].key, s.readers[r].target, s.p.inserted)])
    case ReadActive(r) => s.(readers := s.readers[r := Look(s, s.readers[r])])
    case ReadInactive(r) => s.(readers := s.readers[r := Look(s, s.readers[r])])
    case ReadLevel(r) => s.(readers := s.readers[r := Look(s, s.readers[r])])
  }

  // ---------- writer ----------

  predicate WriterEnabled(s: State, step: WriterStep)
    requires WellFormed(s)
  {
    match step
    case Consume(n) => s.w == Consuming && 1 <= n <= MAX_BATCH && s.p.taken + n <= s.p.delivered
    case AppendLog => s.w == NextJob && s.p.inserted < s.p.taken && s.p.inserted < |s.p.writes|
    case InsertMemtable => s.w == Inserting && s.p.inserted < |s.p.writes|
    case Decide(_) => s.w == Deciding
    case CheckFlushing => s.w == Guarding
    case Resume => s.w == Waiting && s.h.resumeWrites > 0
    case Swap => s.w == Swapping && forall r :: r in s.readers ==> !s.readers[r].AtInactive?
    case WakeFlusher => s.w == Releasing
    case OpenLog => s.w == Opening
    case Complete => s.w == NextJob && s.p.inserted == s.p.taken
  }

  function WriterApply(s: State, step: WriterStep): (t: State)
    requires WellFormed(s) && WriterEnabled(s, step)
    ensures t == s.(p := t.p, m := t.m, h := t.h, w := t.w)
    ensures WellFormed(t)
  {
    match step
    case Consume(n) => s.(p := s.p.(taken := s.p.taken + n), w := NextJob)
    case AppendLog =>
      s.(m := s.m.(logs := s.m.logs[s.m.active := s.m.logs[s.m.active] + Encode(s.p.writes[s.p.inserted])]), w := Inserting)
    case InsertMemtable =>
      var e := Insertion(s.m.tables[s.m.active], s.p.writes[s.p.inserted]);
      s.(m := s.m.(tables := s.m.tables[s.m.active := After(s.m.tables[s.m.active], e)]),
        p := s.p.(inserted := s.p.inserted + 1, history := s.p.history + [e]), w := Deciding)
    case Decide(full) => s.(w := if full then Guarding else NextJob)
    case CheckFlushing =>
      if s.h.inactiveFlushing then s.(h := s.h.(writerWaiting := true), w := Waiting) else s.(w := Swapping)
    case Resume => s.(h := s.h.(resumeWrites := s.h.resumeWrites - 1), w := Swapping)
    case Swap =>
      s.(m := s.m.(active := Other(s.m), frozenLo := s.m.frozenHi, frozenHi := s.p.inserted),
        h := s.h.(inactiveFlushing := true), w := Releasing)
    case WakeFlusher => s.(h := s.h.(startFlush := s.h.startFlush + 1), w := Opening)
    case OpenLog => s.(m := s.m.(logs := s.m.logs[s.m.active := []]), w := NextJob)
    case Complete => s.(p := s.p.(completed := s.p.inserted), w := Consuming)
  }

  // ---------- flusher ----------

  predicate FlusherEnabled(s: State, step: FlusherStep)
    requires WellFormed(s)
  {
    match step
    case BeginFlush => s.f == Asleep && s.h.startFlush > 0
    case BuildTable => s.f == Building
    case PublishTable => s.f.Publishing?
    case ClearMemtable => s.f == Clearing
    case ClearLog => s.f == Erasing
    case EndFlush => s.f == Unsetting
    case SignalCompactor(_) => s.f == Signalling
  }

  function FlusherApply(s: State, step: FlusherStep): (t: State)
    requires WellFormed(s) && FlusherEnabled(s, step)
    ensures t == s.(m := t.m, h := t.h, f := t.f, levels := t.levels, start := t.start, flushes := t.flushes)
    ensures WellFormed(t)
  {
    match step
    case BeginFlush => s.(h := s.h.(startFlush := s.h.startFlush - 1), f := Building)
    case BuildTable => s.(f := Publishing(s.m.tables[Other(s.m)]))
    case PublishTable =>
      s.(levels := s.levels[0 := s.levels[0] + [Sst(s.f.table, s.m.frozenLo, s.m.frozenHi)]],
        flushes := s.flushes + 1, f := Clearing)
    case ClearMemtable => s.(m := s.m.(tables := s.m.tables[Other(s.m) := map[]]), f := Erasing)
    case ClearLog => s.(m := s.m.(logs := s.m.logs[Other(s.m) := []]), f := Unsetting)
    case EndFlush =>
      s.(h := s.h.(inactiveFlushing := false, writerWaiting := false,
           resumeWrites := if s.h.writerWaiting then s.h.resumeWrites + 1 else s.h.resumeWrites),
        f := Signalling)
    case SignalCompactor(saturate) =>
      if |s.levels[0]| >= COMPACTION_TRIGGER then s.(start := s.start[0 := Release(s.start[0], saturate)], f := Asleep)
      else s.(f := Asleep)
  }

  // ---------- compactors ----------

  predicate CompactorEnabled(s: State, i: nat, step: CompactorStep)
    requires WellFormed(s)
  {
    && i < NUM_COMPACTORS
    && var pc := s.c[i];
       match step
       case BeginCompaction => pc == Idle && s.start[i] > 0
       case CheckSize(_) => pc == Checking
       case Choose => pc.Choosing? && pc.level <= MAX_LEVEL
       case ReadMaxLevel => pc.Chosen?
       case AddMerged => pc.Merging? && pc.level < MAX_LEVEL && pc.files != []
       case RemoveMerged => pc.Added? && pc.level <= MAX_LEVEL
       case CompareMaxLevel => pc.Removed?
       case StoreMaxLevel => pc.Bumping?
       case Recheck => pc.Rechecking? && pc.level < MAX_LEVEL
       case NotifyNext(_) => pc.Notifying?
  }

  /** Where the compactor goes next. */
  function NextPc(s: State, i: nat, step: CompactorStep): CompactorPc
    requires WellFormed(s) && CompactorEnabled(s, i, step)
  {
    var pc := s.c[i];
    match step
    case BeginCompaction => Checking
    case CheckSize(_) => if |s.levels[Lower(i)]| >= COMPACTION_TRIGGER then Choosing(Lower(i)) else Idle
    case Choose => Chosen(pc.level, Oldest(s.levels[pc.level]))
    case ReadMaxLevel => Merging(pc.level, pc.files, pc.level == s.maxLevel)
    case AddMerged => Added(pc.level)
    case RemoveMerged => Removed(pc.level)
    case CompareMaxLevel => if pc.level + 1 > s.maxLevel then Bumping(pc.level) else Rechecking(pc.level)
    case StoreMaxLevel => Rechecking(pc.level)
    case Recheck =>
      if |s.levels[pc.level + 1]| < COMPACTION_TRIGGER then Idle
      else if pc.level + 1 < Higher(i) then Choosing(pc.level + 1)
      else if Higher(i) != MAX_LEVEL then Notifying(pc.level)
      else Idle
    case NotifyNext(_) => Idle
  }

  /** What the step does to the lists of tables. */
  function NextLevels(s: State, i: nat, step: CompactorStep): (levels: seq<seq<Sst>>)
    requires WellFormed(s) && CompactorEnabled(s, i, step)
    ensures |levels| == |s.levels|
  {
    var pc := s.c[i];
    match step
    case AddMerged => s.levels[pc.level + 1 := s.levels[pc.level + 1] + [MergeFiles(pc.files, pc.drop)]]
    case RemoveMerged => s.levels[pc.level := WithoutOldest(s.levels[pc.level])]
    case _ => s.levels
  }

  /** What the step does to the wakeup semaphores. */
  function NextStart(s: State, i: nat, step: CompactorStep): (start: seq<nat>)
    requires WellFormed(s) && CompactorEnabled(s, i, step)
    ensures |start| == |s.start|
  {
    match step
    case BeginCompaction => s.start[i := s.start[i] - 1]
    case CheckSize(saturate) =>
      if |s.levels[Lower(i)]| >= 2 * COMPACTION_TRIGGER then s.start[i := Release(s.start[i], saturate)] else s.start
    case NotifyNext(saturate) => s.start[i + 1 := Release(s.start[i + 1], saturate)]
    case _ => s.start
  }

  function CompactorApply(s: State, i: nat, step: CompactorStep): (t: State)
    requires WellFormed(s) && CompactorEnabled(s, i, step)
    ensures WellFormed(t)
    ensures t == s.(c := t.c, levels := t.levels, start := t.start, maxLevel := t.maxLevel)
    ensures forall j :: 0 <= j < NUM_COMPACTORS && j != i ==> t.c[j] == s.c[j]
    ensures forall l :: 0 <= l <= MAX_LEVEL && t.levels[l] != s.levels[l] ==>
              (step == AddMerged && l == s.c[i].level + 1) || (step == RemoveMerged && l == s.c[i].level)
  {
    s.(c := s.c[i := NextPc(s, i, step)],
      levels := NextLevels(s, i, step),
      start := NextStart(s, i, step),
      maxLevel := if step == StoreMaxLevel then s.c[i].level + 1 else s.maxLevel)
  }

  // ---------- all threads ----------

  predicate Enabled(s: State, step: Step)
    requires WellFormed(s)
  {
    match step
    case Client(x) => ClientEnabled(s, x)
    case Writer(x) => WriterEnabled(s, x)
    case Flusher(x) => FlusherEnabled(s, x)
    case Compactor(i, x) => CompactorEnabled(s, i, x)
  }

  function Apply(s: State, step: Step): (t: State)
    requires WellFormed(s) && Enabled(s, step)
    ensures WellFormed(t)
  {
    match step
    case Client(x) => ClientApply(s, x)
    case Writer(x) => WriterApply(s, x)
    case Flusher(x) => FlusherApply(s, x)
    case Compactor(i, x) => CompactorApply(s, i, x)
  }

  ghost predicate Next(s: State, step: Step, t: State) {
    WellFormed(s) && Enabled(s, step) && t == Apply(s, step)
  }

  /** A run: the states visited by performing the steps one after the other from the initial state. */
  ghost predicate IsRun(states: seq<State>, steps: seq<Step>) {
    && |states| == |steps| + 1
    && states[0] == Init
    && forall n {:trigger steps[n]} :: 0 <= n < |steps| ==> Next(states[n], steps[n], states[n + 1])
  }

  /** `s` is the last state of some run. */
  ghost predicate Reachable(s: State) {
    WellFormed(s) && exists states, steps :: IsRun(states, steps) && states[|steps|] == s
  }

  /** The version of `k` after the first `n` inserted writes, as clients see it. */
  function VisibleAfter(history: seq<Event>, n: nat, k: Key): Option<Str>
    requires n <= |history|
  {
    Visible(Lookup(Outcome(history[..n]), k))
  }
}
