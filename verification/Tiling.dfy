/** Tables ordered by recency: how the history intervals of the published tables fit together. */
module Tiling {
  import opened Entries
  import opened StoreModel

  /** `t` stands for its interval of the history. Only a table that reaches back to the very first
      write may lack tombstones, and then clients cannot tell. */
  ghost predicate SstOk(history: seq<Event>, t: Sst) {
    && t.lo < t.hi <= |history|
    && if t.lo == 0 then Agree(t.contents, Outcome(history[..t.hi])) else t.contents == Outcome(history[t.lo..t.hi])
  }

  ghost predicate AllOk(history: seq<Event>, ts: seq<Sst>) {
    forall i :: 0 <= i < |ts| ==> SstOk(history, ts[i])
  }

  /** The intervals of `ts` follow one another without gap or overlap, beginning at `from`. */
  ghost predicate Chain(ts: seq<Sst>, from: nat) {
    && (ts != [] ==> ts[0].lo == from)
    && (forall i :: 0 <= i < |ts| ==> ts[i].lo < ts[i].hi)
    && (forall i, j :: 0 <= i && j == i + 1 && j < |ts| ==> ts[i].hi == ts[j].lo)
  }

  function End(ts: seq<Sst>, from: nat): nat {
    if ts == [] then from else ts[|ts| - 1].hi
  }

  function Start(ts: seq<Sst>): nat {
    if ts == [] then 0 else ts[0].lo
  }

  /** How many writes the levels from `l` down cover. */
  function Coverage(live: seq<seq<Sst>>, l: nat): nat
    decreases |live| - l
  {
    if l >= |live| then 0 else End(live[l], Coverage(live, l + 1))
  }

  /** Deepest level and oldest table first, the intervals tile [0, Coverage(live, 0)). */
  ghost predicate Tiled(live: seq<seq<Sst>>) {
    forall l :: 0 <= l < |live| ==> Chain(live[l], Coverage(live, l + 1))
  }

  lemma {:induction false} CoverageFrame(a: seq<seq<Sst>>, b: seq<seq<Sst>>, l: nat)
    requires |a| == |b| && forall q :: l <= q < |a| ==> a[q] == b[q]
    ensures Coverage(a, l) == Coverage(b, l)
    decreases |a| - l
  {
    if l < |a| { CoverageFrame(a, b, l + 1); }
  }

  /** Below an unchanged stretch the coverage stays what it was. */
  lemma {:induction false} CoverageAbove(a: seq<seq<Sst>>, b: seq<seq<Sst>>, l: nat, m: nat)
    requires l <= m <= |a| == |b| && forall q :: l <= q < m ==> a[q] == b[q]
    requires Coverage(a, m) == Coverage(b, m)
    ensures Coverage(a, l) == Coverage(b, l)
    decreases m - l
  {
    if l < m { CoverageAbove(a, b, l + 1, m); }
  }

  lemma {:induction false} CoverageMonotone(live: seq<seq<Sst>>, l: nat, m: nat)
    requires Tiled(live) && l <= m
    ensures Coverage(live, m) <= Coverage(live, l)
    decreases m - l
  {
    if l < m {
      CoverageMonotone(live, l + 1, m);
      if l < |live| { ChainGrows(live[l], Coverage(live, l + 1)); }
    }
  }

  lemma {:induction false} ChainGrows(ts: seq<Sst>, from: nat)
    requires Chain(ts, from)
    ensures from <= End(ts, from)
    ensures forall i :: 0 <= i < |ts| ==> from <= ts[i].lo && ts[i].hi <= End(ts, from)
    decreases |ts|
  {
    if ts != [] {
      var init := ts[..|ts| - 1];
      ChainGrows(init, from);
      if init != [] { assert ts[|ts| - 2].hi == ts[|ts| - 1].lo; }
    }
  }

  lemma ChainSnoc(ts: seq<Sst>, from: nat, t: Sst)
    requires Chain(ts, from) && t.lo == End(ts, from) && t.lo < t.hi
    ensures Chain(ts + [t], from) && End(ts + [t], from) == t.hi
  {
  }

  lemma ChainSplit(ts: seq<Sst>, from: nat, n: nat)
    requires Chain(ts, from) && n <= |ts|
    ensures Chain(ts[..n], from)
    ensures Chain(ts[n..], End(ts[..n], from)) && End(ts[n..], End(ts[..n], from)) == End(ts, from)
  {
  }

  lemma PublishTiles(live: seq<seq<Sst>>, t: Sst)
    requires Tiled(live) && live != [] && t.lo == Coverage(live, 0) && t.lo < t.hi
    ensures Tiled(live[0 := live[0] + [t]])
    ensures Coverage(live[0 := live[0] + [t]], 0) == t.hi
    ensures forall l :: 0 < l <= |live| ==> Coverage(live[0 := live[0] + [t]], l) == Coverage(live, l)
  {
    var b := live[0 := live[0] + [t]];
    forall l | 0 < l <= |live| ensures Coverage(b, l) == Coverage(live, l) { CoverageFrame(b, live, l); }
    ChainSnoc(live[0], Coverage(live, 1), t);
  }

  /** The levels once the four oldest tables of `l` have been replaced by `t` on the level below. */
  function AfterMerge(live: seq<seq<Sst>>, l: nat, t: Sst): seq<seq<Sst>>
    requires l + 1 < |live| && COMPACTION_TRIGGER <= |live[l]|
  {
    live[l := live[l][COMPACTION_TRIGGER..]][l + 1 := live[l + 1] + [t]]
  }

  lemma MergeBounds(live: seq<seq<Sst>>, l: nat, t: Sst)
    requires Tiled(live) && l + 1 < |live| && COMPACTION_TRIGGER <= |live[l]|
    requires t.lo == live[l][0].lo && t.hi == live[l][3].hi
    ensures t.lo == Coverage(live, l + 1) == End(live[l + 1], Coverage(live, l + 2)) && t.lo < t.hi
    ensures Chain(live[l][4..], t.hi) && End(live[l][4..], t.hi) == Coverage(live, l)
  {
    var from := Coverage(live, l + 1);
    assert Chain(live[l], from);
    ChainSplit(live[l], from, 4);
    ChainGrows(live[l][..4], from);
    assert live[l][..4][3] == live[l][3];
    assert live[l][3].lo < live[l][3].hi;
  }

  lemma MergeCoverage(live: seq<seq<Sst>>, l: nat, t: Sst)
    requires Tiled(live) && l + 1 < |live| && COMPACTION_TRIGGER <= |live[l]|
    requires t.lo == live[l][0].lo && t.hi == live[l][3].hi
    ensures Coverage(AfterMerge(live, l, t), l + 1) == t.hi
    ensures forall q :: 0 <= q <= |live| && q != l + 1 ==> Coverage(AfterMerge(live, l, t), q) == Coverage(live, q)
  {
    var b := AfterMerge(live, l, t);
    forall q | l + 2 <= q <= |live| ensures Coverage(b, q) == Coverage(live, q) { CoverageFrame(b, live, q); }
    MergeBounds(live, l, t);
    assert Coverage(b, l + 1) == t.hi;
    assert Coverage(b, l) == Coverage(live, l);
    forall q | 0 <= q < l ensures Coverage(b, q) == Coverage(live, q) { CoverageAbove(b, live, q, l); }
  }

  lemma MergeTiles(live: seq<seq<Sst>>, l: nat, t: Sst)
    requires Tiled(live) && l + 1 < |live| && COMPACTION_TRIGGER <= |live[l]|
    requires t.lo == live[l][0].lo && t.hi == live[l][3].hi
    ensures Tiled(AfterMerge(live, l, t))
  {
    hide Chain, End, Coverage;
    var b := AfterMerge(live, l, t);
    MergeCoverage(live, l, t);
    MergeBounds(live, l, t);
    forall q | 0 <= q < |b| ensures Chain(b[q], Coverage(b, q + 1)) {
      assert Chain(live[q], Coverage(live, q + 1));
      if q == l + 1 {
        ChainSnoc(live[q], Coverage(live, q + 1), t);
      } else if q != l {
        assert b[q] == live[q];
      }
    }
  }

  /** The history of a table does not change when later writes arrive. */
  lemma SstOkLater(history: seq<Event>, more: seq<Event>, t: Sst)
    requires SstOk(history, t)
    ensures SstOk(history + more, t)
  {
    assert (history + more)[..t.hi] == history[..t.hi];
    assert (history + more)[t.lo..t.hi] == history[t.lo..t.hi];
  }

  lemma {:induction false} MergeExact(history: seq<Event>, files: seq<Sst>)
    requires files != [] && AllOk(history, files) && Chain(files, files[0].lo) && files[0].lo > 0
    requires files[0].lo < files[|files| - 1].hi
    ensures NewestWins(Contents(files)) == Outcome(history[files[0].lo..files[|files| - 1].hi])
    decreases |files|
  {
    var n := |files| - 1;
    var last := files[n];
    assert Contents(files)[..n] == Contents(files[..n]);
    ChainGrows(files, files[0].lo);
    if n == 0 {
      assert NewestWins(Contents(files)) == last.contents;
    } else {
      ChainGrows(files[..n], files[0].lo);
      assert files[n - 1].lo < files[n - 1].hi;
      MergeExact(history, files[..n]);
      assert files[n - 1].hi == last.lo;
      OutcomeSplit(history, files[0].lo, last.lo, last.hi);
    }
  }

  lemma {:induction false} MergeAgrees(history: seq<Event>, files: seq<Sst>)
    requires files != [] && AllOk(history, files) && Chain(files, 0)
    ensures Agree(NewestWins(Contents(files)), Outcome(history[..files[|files| - 1].hi]))
    decreases |files|
  {
    var n := |files| - 1;
    var last := files[n];
    assert Contents(files)[..n] == Contents(files[..n]);
    if n == 0 {
      assert NewestWins(Contents(files)) == last.contents;
    } else {
      MergeAgrees(history, files[..n]);
      assert files[n - 1].hi == last.lo;
      OutcomeSplit(history, 0, last.lo, last.hi);
      assert history[0..last.lo] == history[..last.lo] && history[0..last.hi] == history[..last.hi];
      AgreeUnion(NewestWins(Contents(files[..n])), Outcome(history[..last.lo]), last.contents);
    }
  }

  lemma AgreeUnion(a: Table, b: Table, c: Table)
    requires Agree(a, b)
    ensures Agree(a + c, b + c)
  {
    forall k: Key ensures Visible(Lookup(a + c, k)) == Visible(Lookup(b + c, k)) {
      assert Visible(Lookup(a, k)) == Visible(Lookup(b, k));
    }
  }

  lemma AgreeWithoutTombstones(a: Table, b: Table)
    requires Agree(a, b)
    ensures Agree(WithoutTombstones(a), b)
  {
    forall k: Key ensures Visible(Lookup(WithoutTombstones(a), k)) == Visible(Lookup(b, k)) {
      assert Visible(Lookup(a, k)) == Visible(Lookup(b, k));
    }
  }

  /** Merging consecutive tables gives the table of the joined interval, with or without tombstones,
      provided tombstones are dropped only when nothing older exists. */
  lemma MergeOk(history: seq<Event>, files: seq<Sst>, drop: bool)
    requires files != [] && AllOk(history, files) && Chain(files, files[0].lo)
    requires drop ==> files[0].lo == 0
    ensures SstOk(history, MergeFiles(files, drop))
  {
    ChainGrows(files, files[0].lo);
    assert files[|files| - 1].lo < files[|files| - 1].hi;
    if files[0].lo == 0 {
      MergeAgrees(history, files);
      AgreeWithoutTombstones(NewestWins(Contents(files)), Outcome(history[..files[|files| - 1].hi]));
    } else {
      MergeExact(history, files);
    }
  }

  /** Nothing touched `k` between the two instants. */
  ghost predicate Quiet(history: seq<Event>, lo: nat, hi: nat, k: Key) {
    hi <= |history| && forall n :: lo <= n <= hi ==> VisibleAfter(history, n, k) == VisibleAfter(history, hi, k)
  }

  lemma {:induction false} AbsentIsQuiet(history: seq<Event>, lo: nat, hi: nat, k: Key)
    requires lo <= hi <= |history| && k !in Outcome(history[lo..hi])
    ensures Quiet(history, lo, hi, k)
  {
    forall n | lo <= n <= hi ensures VisibleAfter(history, n, k) == VisibleAfter(history, hi, k) {
      OutcomeSplit(history, 0, n, hi);
      OutcomeSplit(history, lo, n, hi);
      assert history[0..n] == history[..n] && history[0..hi] == history[..hi];
    }
  }

  /** From where on a chain without `k` shows that `k` was left alone. */
  function QuietFrom(ts: seq<Sst>, from: nat): nat {
    if from > 0 || ts == [] then from else ts[0].hi
  }

  /** A newest-first scan of consecutive tables finds what was current at their end; if it finds
      nothing, the key was left alone since the beginning, or since the first table if that one
      reaches back to the first write, in which case the key is not there. */
  lemma {:induction false} ScanChain(history: seq<Event>, ts: seq<Sst>, from: nat, k: Key)
    requires Chain(ts, from) && AllOk(history, ts) && from <= |history|
    ensures End(ts, from) <= |history|
    ensures ScanTables(ts, k).Some? ==> Visible(ScanTables(ts, k)) == VisibleAfter(history, End(ts, from), k)
    ensures ScanTables(ts, k).None? ==> Quiet(history, QuietFrom(ts, from), End(ts, from), k)
    ensures ScanTables(ts, k).None? && from == 0 ==> VisibleAfter(history, End(ts, from), k) == None
    decreases |ts|
  {
    if ts != [] {
      var n := |ts| - 1;
      var last := ts[n];
      ScanChain(history, ts[..n], from, k);
      assert last.lo == End(ts[..n], from);
      if k in last.contents {
        if last.lo > 0 {
          OutcomeSplit(history, 0, last.lo, last.hi);
          assert history[0..last.lo] == history[..last.lo] && history[0..last.hi] == history[..last.hi];
        }
      } else if last.lo > 0 {
        AbsentIsQuiet(history, last.lo, last.hi, k);
      } else {
        ChainGrows(ts, from);
        assert n == 0;
      }
    }
  }
}
