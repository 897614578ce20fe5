/** A reader that takes one snapshot per memtable and level still answers with a version that was
    current at some instant of its search. */
module StoreReaders {
  import opened Bytes
  import opened Entries
  import opened StoreModel
  import opened Tiling
  import opened StoreInvariant
  import opened StoreTables

  // ---------- later writes ----------

  lemma VisibleLater(history: seq<Event>, w: Event, n: nat, k: Key)
    requires n <= |history|
    ensures VisibleAfter(history + [w], n, k) == VisibleAfter(history, n, k)
  {
    assert (history + [w])[..n] == history[..n];
  }

  lemma RecentLater(history: seq<Event>, w: Event, since: nat, k: Key, n: nat)
    requires Recent(history, since, k, n)
    ensures Recent(history + [w], since, k, n)
  {
    VisibleLater(history, w, n, k);
    VisibleLater(history, w, since, k);
  }

  lemma ShownLater(history: seq<Event>, w: Event, since: nat, now: nat, k: Key, v: Option<Str>)
    requires ShownAs(history, since, now, k, v)
    ensures ShownAs(history + [w], since, now, k, v)
  {
    var n :| since <= n <= now && VisibleAfter(history, n, k) == v;
    VisibleLater(history, w, n, k);
  }

  lemma LevelReaderLater(history: seq<Event>, w: Event, now: nat, live: seq<seq<Sst>>, frozenHi: nat, since: nat, k: Key, l: nat)
    requires LevelReaderOk(history, now, live, frozenHi, since, k, l)
    ensures LevelReaderOk(history + [w], now, live, frozenHi, since, k, l)
  {
    var b := Coverage(live, l);
    if Recent(history, since, k, b) { RecentLater(history, w, since, k, b); }
    else { ShownLater(history, w, since, now, k, None); }
    RecentLater(history, w, since, k, frozenHi);
    forall q | 0 <= q < l && q < |live| ensures AllRecent(history + [w], since, k, live[q]) {
      assert AllRecent(history, since, k, live[q]);
      forall j | 0 <= j < |live[q]| ensures Recent(history + [w], since, k, live[q][j].hi) {
        RecentLater(history, w, since, k, live[q][j].hi);
      }
    }
  }

  lemma ReaderLater(history: seq<Event>, w: Event, now: nat, live: seq<seq<Sst>>, frozenHi: nat, r: Reader)
    requires ReaderOk(history, now, live, frozenHi, r)
    ensures ReaderOk(history + [w], now, live, frozenHi, r)
  {
    match r {
      case Awaiting(_, _) =>
      case AtActive(_, _, _) =>
      case AtInactive(k, _, since) => RecentLater(history, w, since, k, frozenHi);
      case AtLevel(k, _, since, l) => LevelReaderLater(history, w, now, live, frozenHi, since, k, l);
      case Done(k, _, since, found) => ShownLater(history, w, since, now, k, Visible(found));
    }
  }

  /** One more write has reached the memtable. */
  lemma ReaderAdvance(history: seq<Event>, now: nat, live: seq<seq<Sst>>, frozenHi: nat, r: Reader)
    requires ReaderOk(history, now, live, frozenHi, r) && now + 1 <= |history|
    ensures ReaderOk(history, now + 1, live, frozenHi, r)
  {
    if r.Done? {
      var n :| r.since <= n <= now && VisibleAfter(history, n, r.key) == Visible(r.found);
      assert ShownAs(history, r.since, now + 1, r.key, Visible(r.found));
    }
    if r.AtLevel? && ShownAs(history, r.since, now, r.key, None) {
      var n :| r.since <= n <= now && VisibleAfter(history, n, r.key) == None;
      assert ShownAs(history, r.since, now + 1, r.key, None);
    }
  }

  // ---------- swap, publish, merge ----------

  lemma ReaderSwap(history: seq<Event>, now: nat, live: seq<seq<Sst>>, frozenHi: nat, r: Reader)
    requires ReaderOk(history, now, live, frozenHi, r) && !r.AtInactive?
    ensures ReaderOk(history, now, live, now, r)
  {
  }

  lemma ReaderPublish(history: seq<Event>, now: nat, live: seq<seq<Sst>>, r: Reader, t: Sst)
    requires ReaderOk(history, now, live, t.hi, r)
    requires Tiled(live) && live != [] && t.lo == Coverage(live, 0) && t.lo < t.hi
    ensures ReaderOk(history, now, live[0 := live[0] + [t]], t.hi, r)
  {
    PublishTiles(live, t);
    if r.AtLevel? {
      var b := live[0 := live[0] + [t]];
      forall q | 0 <= q < r.level && q < |b| ensures AllRecent(history, r.since, r.key, b[q]) {
        assert AllRecent(history, r.since, r.key, live[q]);
      }
    }
  }

  lemma LevelReaderMerge(history: seq<Event>, now: nat, live: seq<seq<Sst>>, frozenHi: nat, since: nat, k: Key, p: nat, l: nat, t: Sst)
    requires LevelReaderOk(history, now, live, frozenHi, since, k, p)
    requires Tiled(live) && l + 1 < |live| && COMPACTION_TRIGGER <= |live[l]|
    requires t.lo == live[l][0].lo && t.hi == live[l][3].hi
    ensures LevelReaderOk(history, now, AfterMerge(live, l, t), frozenHi, since, k, p)
  {
    var b := AfterMerge(live, l, t);
    MergeCoverage(live, l, t);
    if l < p {
      assert AllRecent(history, since, k, live[l]);
      assert Recent(history, since, k, t.hi);
    }
    if p > |live| { assert Coverage(b, p) == Coverage(live, p); }
    forall q | 0 <= q < p && q < |b| ensures AllRecent(history, since, k, b[q]) {
      assert AllRecent(history, since, k, live[q]);
    }
  }

  lemma ReaderMerge(history: seq<Event>, now: nat, live: seq<seq<Sst>>, frozenHi: nat, r: Reader, l: nat, t: Sst)
    requires ReaderOk(history, now, live, frozenHi, r)
    requires Tiled(live) && l + 1 < |live| && COMPACTION_TRIGGER <= |live[l]|
    requires t.lo == live[l][0].lo && t.hi == live[l][3].hi
    ensures ReaderOk(history, now, AfterMerge(live, l, t), frozenHi, r)
  {
    if r.AtLevel? { LevelReaderMerge(history, now, live, frozenHi, r.since, r.key, r.level, l, t); }
  }

  // ---------- the reader's own steps ----------

  /** If `k` was left alone from `lo` to `hi`, then `lo` is as recent as `hi`. */
  lemma RecentBack(history: seq<Event>, since: nat, k: Key, lo: nat, hi: nat)
    requires Recent(history, since, k, hi) && lo <= hi && Quiet(history, lo, hi, k)
    ensures Recent(history, since, k, lo)
  {
  }

  lemma RecentShows(history: seq<Event>, since: nat, now: nat, k: Key, n: nat)
    requires Recent(history, since, k, n) && since <= now && n <= now <= |history|
    ensures ShownAs(history, since, now, k, VisibleAfter(history, n, k))
  {
    if since > n { assert VisibleAfter(history, since, k) == VisibleAfter(history, n, k); }
  }

  lemma FoundInRange(history: seq<Event>, lo: nat, hi: nat, k: Key)
    requires lo <= hi <= |history| && k in Outcome(history[lo..hi])
    ensures Visible(Some(Outcome(history[lo..hi])[k])) == VisibleAfter(history, hi, k)
  {
    OutcomeSplit(history, 0, lo, hi);
    assert history[0..hi] == history[..hi];
  }

  lemma ActiveStep(history: seq<Event>, now: nat, live: seq<seq<Sst>>, frozenHi: nat, r: Reader, table: Table)
    requires ReaderOk(history, now, live, frozenHi, r) && r.AtActive?
    requires frozenHi <= now && table == Outcome(history[frozenHi..now])
    ensures ReaderOk(history, now, live, frozenHi, Answer(r, Lookup(table, r.key), AtInactive(r.key, r.target, r.since)))
  {
    if r.key in table {
      FoundInRange(history, frozenHi, now, r.key);
      RecentShows(history, r.since, now, r.key, now);
    } else {
      AbsentIsQuiet(history, frozenHi, now, r.key);
      assert Recent(history, r.since, r.key, now);
      RecentBack(history, r.since, r.key, frozenHi, now);
    }
  }

  lemma InactiveStep(history: seq<Event>, now: nat, live: seq<seq<Sst>>, frozenLo: nat, frozenHi: nat, r: Reader, table: Table, holding: bool)
    requires ReaderOk(history, now, live, frozenHi, r) && r.AtInactive?
    requires frozenLo <= frozenHi <= now
    requires table == if holding then Outcome(history[frozenLo..frozenHi]) else map[]
    requires Coverage(live, 0) == frozenHi || (Coverage(live, 0) == frozenLo && holding)
    ensures ReaderOk(history, now, live, frozenHi, Answer(r, Lookup(table, r.key), AtLevel(r.key, r.target, r.since, 0)))
  {
    if r.key in table {
      FoundInRange(history, frozenLo, frozenHi, r.key);
      RecentShows(history, r.since, now, r.key, frozenHi);
    } else if holding {
      AbsentIsQuiet(history, frozenLo, frozenHi, r.key);
      RecentBack(history, r.since, r.key, frozenLo, frozenHi);
    }
  }

  lemma {:induction false} ScanSuffix(ts: seq<Sst>, n: nat, k: Key)
    requires n <= |ts| && ScanTables(ts, k).None?
    ensures ScanTables(ts[n..], k).None?
    decreases |ts|
  {
    if n < |ts| {
      ScanSuffix(ts[..|ts| - 1], n, k);
      assert ts[n..][..|ts| - n - 1] == ts[..|ts| - 1][n..];
    }
  }

  /** One level of tiled tables as a reader finds it. */
  ghost predicate LevelView(history: seq<Event>, levels: seq<seq<Sst>>, c: seq<CompactorPc>, top: nat, l: nat) {
    TilingInv(history, levels, c, top) && l < |levels| && top <= |history|
  }

  /** What is found on a level, even in a table already merged deeper, is what was current at the level's coverage. */
  lemma FoundOnLevel(history: seq<Event>, levels: seq<seq<Sst>>, c: seq<CompactorPc>, top: nat, l: nat, k: Key)
    requires LevelView(history, levels, c, top, l) && ScanTables(levels[l], k).Some?
    ensures var n := Coverage(LiveTables(levels, c), l);
            0 < n <= |history| && Visible(ScanTables(levels[l], k)) == VisibleAfter(history, n, k)
  {
    var ts := levels[l];
    assert LevelOk(history, ts);
    LastIsCoverage(levels, c, l);
    assert SstOk(history, ts[0]) && SstOk(history, ts[|ts| - 1]);
    ScanChain(history, ts, Start(ts), k);
  }

  lemma LiveLevelOk(history: seq<Event>, levels: seq<seq<Sst>>, c: seq<CompactorPc>, top: nat, l: nat)
    requires LevelView(history, levels, c, top, l)
    ensures AllOk(history, LiveTables(levels, c)[l])
    ensures Coverage(LiveTables(levels, c), l + 1) <= Coverage(LiveTables(levels, c), l) <= |history|
  {
    var live := LiveTables(levels, c);
    assert live[l] == LiveAt(levels, c, l);
    assert LevelOk(history, levels[l]);
    CoverageMonotone(live, l, l + 1);
    CoverageMonotone(live, 0, l);
  }

  lemma AbsentOnLevel(history: seq<Event>, levels: seq<seq<Sst>>, c: seq<CompactorPc>, top: nat, l: nat, k: Key)
    requires LevelView(history, levels, c, top, l) && ScanTables(levels[l], k).None?
    ensures var ts := LiveTables(levels, c)[l];
            var from := Coverage(LiveTables(levels, c), l + 1);
            var n := Coverage(LiveTables(levels, c), l);
            && from <= n <= |history| && Quiet(history, QuietFrom(ts, from), n, k)
            && (from == 0 ==> VisibleAfter(history, n, k) == None)
  {
    var live := LiveTables(levels, c);
    assert live[l] == LiveAt(levels, c, l);
    if live[l] != levels[l] {
      if |levels[l]| >= COMPACTION_TRIGGER { ScanSuffix(levels[l], COMPACTION_TRIGGER, k); }
    }
    LiveLevelOk(history, levels, c, top, l);
    ScanChain(history, live[l], Coverage(live, l + 1), k);
  }

  /** After a level without `k`, every boundary in it is as recent as its end. */
  lemma BoundariesRecent(history: seq<Event>, ts: seq<Sst>, from: nat, since: nat, k: Key)
    requires Chain(ts, from) && Recent(history, since, k, End(ts, from))
    requires Quiet(history, QuietFrom(ts, from), End(ts, from), k)
    ensures AllRecent(history, since, k, ts)
  {
    ChainGrows(ts, from);
    forall j | 0 <= j < |ts| ensures Recent(history, since, k, ts[j].hi) {
      FirstEndsFirst(ts, from, j);
      RecentBack(history, since, k, ts[j].hi, End(ts, from));
    }
  }

  lemma {:induction false} FirstEndsFirst(ts: seq<Sst>, from: nat, j: nat)
    requires Chain(ts, from) && j < |ts|
    ensures ts[0].hi <= ts[j].hi && from < ts[j].hi
  {
    if j > 0 {
      FirstEndsFirst(ts, from, j - 1);
      assert ts[j - 1].hi == ts[j].lo;
    }
  }

  lemma AbsentStep(history: seq<Event>, now: nat, levels: seq<seq<Sst>>, c: seq<CompactorPc>, top: nat, frozenHi: nat, since: nat, k: Key, l: nat)
    requires LevelView(history, levels, c, top, l) && ScanTables(levels[l], k).None?
    requires since <= now <= |history| && top <= now
    requires LevelReaderOk(history, now, LiveTables(levels, c), frozenHi, since, k, l)
    ensures LevelReaderOk(history, now, LiveTables(levels, c), frozenHi, since, k, l + 1)
  {
    var live := LiveTables(levels, c);
    var from, n := Coverage(live, l + 1), Coverage(live, l);
    AbsentOnLevel(history, levels, c, top, l, k);
    CoverageMonotone(live, 0, l);
    assert Chain(live[l], from);
    if Recent(history, since, k, n) {
      BoundariesRecent(history, live[l], from, since, k);
      if from > 0 { RecentBack(history, since, k, from, n); } else { RecentShows(history, since, now, k, n); }
    } else {
      assert live[l] == [];
    }
  }

  lemma LevelStep(history: seq<Event>, now: nat, levels: seq<seq<Sst>>, c: seq<CompactorPc>, top: nat, frozenHi: nat, r: Reader)
    requires TilingInv(history, levels, c, top) && top <= now <= |history|
    requires r.AtLevel? && r.level <= MAX_LEVEL && ReaderOk(history, now, LiveTables(levels, c), frozenHi, r)
    ensures ReaderOk(history, now, LiveTables(levels, c), frozenHi,
              Answer(r, ScanTables(levels[r.level], r.key), AtLevel(r.key, r.target, r.since, r.level + 1)))
  {
    if ScanTables(levels[r.level], r.key).Some? {
      var n := Coverage(LiveTables(levels, c), r.level);
      FoundOnLevel(history, levels, c, top, r.level, r.key);
      CoverageMonotone(LiveTables(levels, c), 0, r.level);
      RecentShows(history, r.since, now, r.key, n);
    } else {
      AbsentStep(history, now, levels, c, top, frozenHi, r.since, r.key, r.level);
    }
  }

  lemma LastStep(history: seq<Event>, now: nat, live: seq<seq<Sst>>, frozenHi: nat, r: Reader)
    requires r.AtLevel? && r.level >= |live| && ReaderOk(history, now, live, frozenHi, r)
    ensures ReaderOk(history, now, live, frozenHi, Done(r.key, r.target, r.since, None))
  {
    assert history[..0] == [];
    if Recent(history, r.since, r.key, 0) { RecentShows(history, r.since, now, r.key, 0); }
  }
}
