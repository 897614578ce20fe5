/** What every reachable state of the store satisfies. */
module StoreInvariant {
  import opened Bytes
  import opened Entries
  import opened Records
  import opened StoreModel
  import opened Tiling

  // ---------- pipeline: ring buffer, writer, acknowledgement ----------

  /** The history tells of every inserted write; only writes of the empty key are ever lost. */
  ghost predicate HistoryOk(p: Pipeline) {
    && |p.history| == p.inserted <= |p.writes|
    && forall n :: 0 <= n < p.inserted ==> p.history[n] == Performed(p.writes[n]) || (p.history[n] == Lost && p.writes[n].key == [])
  }

  ghost predicate PipelineInv(p: Pipeline, w: WriterPc) {
    && p.completed <= p.inserted <= p.taken <= p.delivered <= |p.writes| <= p.delivered + 1
    && HistoryOk(p)
    && (w != Consuming ==> p.completed < p.taken)
    && (w == Consuming ==> p.completed == p.inserted == p.taken)
    && (w == Inserting ==> p.inserted < p.taken)
  }

  // ---------- writer and flusher ----------

  predicate Busy(f: FlusherPc) {
    f == Building || f.Publishing? || f == Clearing || f == Erasing || f == Unsetting
  }

  ghost predicate HandshakeInv(h: Handshake, w: WriterPc, f: FlusherPc) {
    && h.startFlush <= 1 && h.resumeWrites <= 1
    && (h.startFlush == 1 ==> !Busy(f))
    && (h.inactiveFlushing <==> h.startFlush == 1 || Busy(f) || w == Releasing)
    && (w == Releasing ==> h.startFlush == 0 && !Busy(f))
    && (h.writerWaiting ==> w == Waiting && h.inactiveFlushing)
    && (h.resumeWrites == 1 ==> w == Waiting && !h.inactiveFlushing && !h.writerWaiting)
    && (w == Waiting ==> h.writerWaiting || h.resumeWrites == 1)
    && (w == Swapping ==> !h.inactiveFlushing && h.resumeWrites == 0)
  }

  // ---------- memtables and logs ----------

  /** The inactive memtable still holds the frozen writes. */
  predicate Holding(h: Handshake, f: FlusherPc) {
    h.inactiveFlushing && f != Erasing && f != Unsetting
  }

  /** The frozen writes are in no table yet. */
  predicate Unpublished(h: Handshake, f: FlusherPc) {
    Holding(h, f) && f != Clearing
  }

  /** The active memtable holds the writes from `hi` on, the inactive one the frozen writes or nothing. */
  ghost predicate TablesOk(history: seq<Event>, inserted: nat, tables: seq<Table>, active: nat, lo: nat, hi: nat, holding: bool) {
    && |tables| == 2 && active < 2
    && lo <= hi <= inserted <= |history|
    && tables[active] == Outcome(history[hi..inserted])
    && tables[1 - active] == (if holding then Outcome(history[lo..hi]) else map[])
  }

  ghost predicate PhaseOk(inserted: nat, m: Memory, h: Handshake, w: WriterPc, f: FlusherPc) {
    && |m.tables| == 2 && m.active < 2
    && (f.Publishing? ==> f.table == m.tables[Other(m)])
    && (h.inactiveFlushing ==> m.frozenLo < m.frozenHi)
    && (w == Deciding || w == Guarding || w == Waiting || w == Swapping ==> m.frozenHi < inserted)
    && (w == Releasing || w == Opening ==> m.frozenHi == inserted)
  }

  ghost predicate MemoryInv(history: seq<Event>, inserted: nat, m: Memory, h: Handshake, w: WriterPc, f: FlusherPc) {
    && TablesOk(history, inserted, m.tables, m.active, m.frozenLo, m.frozenHi, Holding(h, f))
    && PhaseOk(inserted, m, h, w, f)
  }

  /** How many writes are in the logs: the active log runs at most one record ahead of its memtable. */
  function Logged(inserted: nat, w: WriterPc): nat {
    if w == Inserting then inserted + 1 else inserted
  }

  ghost predicate LogsOk(writes: seq<Write>, logged: nat, logs: seq<seq<byte>>, active: nat, lo: nat, hi: nat, held: bool) {
    && |logs| == 2 && active < 2
    && lo <= hi <= logged <= |writes|
    && logs[active] == EncodeAll(writes[hi..logged])
    && logs[1 - active] == (if held then EncodeAll(writes[lo..hi]) else [])
  }

  ghost predicate LogInv(writes: seq<Write>, inserted: nat, m: Memory, h: Handshake, w: WriterPc, f: FlusherPc) {
    LogsOk(writes, Logged(inserted, w), m.logs, m.active, m.frozenLo, m.frozenHi, h.inactiveFlushing && f != Unsetting)
  }

  // ---------- tables ----------

  /** A level as it is once removals of already merged tables, if pending, are done. */
  function LiveAt(levels: seq<seq<Sst>>, c: seq<CompactorPc>, l: nat): seq<Sst>
    requires |c| == NUM_COMPACTORS && l < |levels|
  {
    if l < MAX_LEVEL && c[Owner(l)] == Added(l) then WithoutOldest(levels[l]) else levels[l]
  }

  function LiveTables(levels: seq<seq<Sst>>, c: seq<CompactorPc>): seq<seq<Sst>>
    requires |c| == NUM_COMPACTORS
  {
    seq(|levels|, l requires 0 <= l < |levels| => LiveAt(levels, c, l))
  }

  function Top(m: Memory, h: Handshake, f: FlusherPc): nat {
    if Unpublished(h, f) then m.frozenLo else m.frozenHi
  }

  ghost predicate LevelOk(history: seq<Event>, ts: seq<Sst>) {
    AllOk(history, ts) && Chain(ts, Start(ts))
  }

  /** While a merged table and its four sources are both listed, the sources are the front of their
      level and lie inside what the deeper levels cover. */
  ghost predicate Duplicated(ts: seq<Sst>, covered: nat) {
    COMPACTION_TRIGGER <= |ts| && ts[3].hi == covered
  }

  ghost predicate DuplicatesOk(levels: seq<seq<Sst>>, c: seq<CompactorPc>, live: seq<seq<Sst>>) {
    && |c| == NUM_COMPACTORS
    && forall l :: 0 <= l < MAX_LEVEL && l < |levels| && c[Owner(l)] == Added(l) ==> Duplicated(levels[l], Coverage(live, l + 1))
  }

  ghost predicate LevelsOk(history: seq<Event>, levels: seq<seq<Sst>>) {
    forall l :: 0 <= l < |levels| ==> LevelOk(history, levels[l])
  }

  /** The live tables tile the published history. */
  ghost predicate TilingInv(history: seq<Event>, levels: seq<seq<Sst>>, c: seq<CompactorPc>, top: nat) {
    && |c| == NUM_COMPACTORS && |levels| == MAX_LEVEL + 1
    && Tiled(LiveTables(levels, c))
    && Coverage(LiveTables(levels, c), 0) == top
    && LevelsOk(history, levels)
    && DuplicatesOk(levels, c, LiveTables(levels, c))
  }

  // ---------- compactors ----------

  /** The level a busy compactor is working on. */
  function Working(pc: CompactorPc): Option<nat> {
    if pc == Idle || pc == Checking then None else Some(pc.level)
  }

  /** The four tables being merged are still the front of the level. */
  predicate BeforeRemoval(pc: CompactorPc) {
    pc.Choosing? || pc.Chosen? || pc.Merging? || pc.Added?
  }

  ghost predicate DeeperEmpty(levels: seq<seq<Sst>>, l: nat) {
    forall p :: l < p < |levels| ==> levels[p] == []
  }

  /** The merged table for level `l + 1` is listed, and the shared maximum not yet known to cover it. */
  predicate Landing(pc: CompactorPc, l: nat) {
    pc == Added(l) || pc == Removed(l) || pc == Bumping(l)
  }

  ghost predicate CompactorOk(levels: seq<seq<Sst>>, maxLevel: nat, i: nat, pc: CompactorPc) {
    Working(pc).Some? ==>
      var l := pc.level;
      && Lower(i) <= l < Higher(i) && l < |levels|
      && l <= maxLevel
      && (BeforeRemoval(pc) ==> COMPACTION_TRIGGER <= |levels[l]|)
      && (pc.Chosen? ==> pc.files == levels[l][..COMPACTION_TRIGGER])
      && (pc.Merging? ==> pc.files == levels[l][..COMPACTION_TRIGGER] && (pc.drop ==> DeeperEmpty(levels, l)))
      && (pc.Bumping? ==> maxLevel == l)
      && (pc.Rechecking? || pc.Notifying? ==> l < maxLevel)
      && (pc.Notifying? ==> i < 2)
  }

  /** A level the shared maximum does not reach is empty, or has just received its very first table. */
  ghost predicate BeyondMaximum(levels: seq<seq<Sst>>, c: seq<CompactorPc>, maxLevel: nat, l: nat)
    requires 0 < l < |levels| && |c| == NUM_COMPACTORS
  {
    l <= maxLevel || levels[l] == [] || (|levels[l]| == 1 && Landing(c[Owner(l - 1)], l - 1))
  }

  ghost predicate CompactorInv(levels: seq<seq<Sst>>, c: seq<CompactorPc>, maxLevel: nat) {
    && |c| == NUM_COMPACTORS && |levels| == MAX_LEVEL + 1
    && maxLevel <= MAX_LEVEL
    && (forall i :: 0 <= i < NUM_COMPACTORS ==> CompactorOk(levels, maxLevel, i, c[i]))
    && (forall l :: 0 < l < |levels| ==> BeyondMaximum(levels, c, maxLevel, l))
  }

  // ---------- wakeups ----------

  /** Compactor `pc` has added to the level of the next compactor and not yet decided whether to signal. */
  predicate Informing(pc: CompactorPc) {
    pc.Added? || pc.Removed? || pc.Bumping? || pc.Rechecking? || pc.Notifying?
  }

  /** A signal for compactor `i` is set, or its producer is between append and release. */
  predicate Pending(start: seq<nat>, c: seq<CompactorPc>, f: FlusherPc, i: nat)
    requires i < NUM_COMPACTORS <= |start| && |c| == NUM_COMPACTORS
  {
    || start[i] > 0
    || (if i == 0 then f == Clearing || f == Erasing || f == Unsetting || f == Signalling else Informing(c[i - 1]))
  }

  ghost predicate WakeOk(levels: seq<seq<Sst>>, start: seq<nat>, c: seq<CompactorPc>, f: FlusherPc, i: nat)
    requires i < NUM_COMPACTORS <= |start| && |c| == NUM_COMPACTORS && |levels| == MAX_LEVEL + 1
  {
    || c[i] == Checking
    || Pending(start, c, f, i)
    || (if BeforeRemoval(c[i]) && c[i].level == Lower(i) then |levels[i]| < 2 * COMPACTION_TRIGGER
        else |levels[i]| < COMPACTION_TRIGGER)
  }

  /** Levels 3 to 6 belong to the third compactor alone: they overflow only while it is on its way. */
  ghost predicate CascadeOk(levels: seq<seq<Sst>>, pc: CompactorPc, l: nat)
    requires 0 < l < |levels|
  {
    || |levels[l]| < COMPACTION_TRIGGER
    || (|levels[l]| == COMPACTION_TRIGGER
        && ((BeforeRemoval(pc) && pc.level == l) || (Landing(pc, l - 1) || pc == Rechecking(l - 1))))
  }

  ghost predicate WakeInv(levels: seq<seq<Sst>>, start: seq<nat>, c: seq<CompactorPc>, f: FlusherPc) {
    && |start| == NUM_COMPACTORS + 1 && |c| == NUM_COMPACTORS && |levels| == MAX_LEVEL + 1
    && (forall i :: 0 <= i < NUM_COMPACTORS ==> WakeOk(levels, start, c, f, i))
    && (forall l :: 3 <= l < MAX_LEVEL ==> CascadeOk(levels, c[2], l))
  }

  // ---------- base-4 counter ----------

  function Weight(live: seq<seq<Sst>>): nat
    requires |live| == MAX_LEVEL + 1
  {
    |live[0]| + 4 * |live[1]| + 16 * |live[2]| + 64 * |live[3]| + 256 * |live[4]| + 1024 * |live[5]|
    + 4096 * |live[6]| + 16384 * |live[7]|
  }

  // ---------- readers ----------

  /** Instant `n` of the history shows `k` as it was when the search began, or as it was later. */
  ghost predicate Recent(history: seq<Event>, since: nat, k: Key, n: nat) {
    && since <= |history| && n <= |history|
    && (since <= n || VisibleAfter(history, n, k) == VisibleAfter(history, since, k))
  }

  /** Some instant between the start of the search and now showed `k` as `v`. */
  ghost predicate ShownAs(history: seq<Event>, since: nat, now: nat, k: Key, v: Option<Str>) {
    now <= |history| && exists n :: since <= n <= now && VisibleAfter(history, n, k) == v
  }

  ghost predicate AllRecent(history: seq<Event>, since: nat, k: Key, ts: seq<Sst>) {
    forall j :: 0 <= j < |ts| ==> Recent(history, since, k, ts[j].hi)
  }

  /** A reader about to look at level `l`: what the levels from `l` down cover is recent, and so is every
      boundary above it that may become their coverage; unless they cover nothing and a missing key is right. */
  ghost predicate LevelReaderOk(history: seq<Event>, now: nat, live: seq<seq<Sst>>, frozenHi: nat, since: nat, k: Key, l: nat) {
    && (|| Recent(history, since, k, Coverage(live, l))
        || (Coverage(live, l) == 0 && ShownAs(history, since, now, k, None)))
    && Recent(history, since, k, frozenHi)
    && (forall q :: 0 <= q < l && q < |live| ==> AllRecent(history, since, k, live[q]))
  }

  ghost predicate ReaderOk(history: seq<Event>, now: nat, live: seq<seq<Sst>>, frozenHi: nat, r: Reader) {
    && now <= |history|
    && (!r.Awaiting? ==> r.target <= r.since <= now)
    && (r.AtInactive? ==> Recent(history, r.since, r.key, frozenHi))
    && (r.AtLevel? ==> LevelReaderOk(history, now, live, frozenHi, r.since, r.key, r.level))
    && (r.Done? ==> ShownAs(history, r.since, now, r.key, Visible(r.found)))
  }

  ghost predicate ReadersInv(history: seq<Event>, now: nat, live: seq<seq<Sst>>, frozenHi: nat, readers: map<nat, Reader>) {
    forall r :: r in readers ==> ReaderOk(history, now, live, frozenHi, readers[r])
  }

  // ---------- everything ----------

  ghost predicate Inv(s: State) {
    && WellFormed(s)
    && PipelineInv(s.p, s.w)
    && HandshakeInv(s.h, s.w, s.f)
    && MemoryInv(s.p.history, s.p.inserted, s.m, s.h, s.w, s.f)
    && LogInv(s.p.writes, s.p.inserted, s.m, s.h, s.w, s.f)
    && TilingInv(s.p.history, s.levels, s.c, Top(s.m, s.h, s.f))
    && CompactorInv(s.levels, s.c, s.maxLevel)
    && WakeInv(s.levels, s.start, s.c, s.f)
    && Weight(LiveTables(s.levels, s.c)) == s.flushes
    && ReadersInv(s.p.history, s.p.inserted, LiveTables(s.levels, s.c), s.m.frozenHi, s.readers)
  }
}
