/** A k-way merge as steps on what is left of its inputs, listed oldest first. */
module MergeSpec {
  import opened Bytes
  import opened Entries
  import opened TableFormat

  /** The maps that the rests of the inputs stand for. */
  ghost function Tables(rem: seq<seq<Write>>): (ts: seq<Table>)
    ensures |ts| == |rem| && forall i :: 0 <= i < |rem| ==> ts[i] == Replay(rem[i])
  {
    seq(|rem|, i requires 0 <= i < |rem| => Replay(rem[i]))
  }

  ghost predicate AllSorted(rem: seq<seq<Write>>) {
    forall i :: 0 <= i < |rem| ==> StrictlySorted(rem[i])
  }

  ghost predicate Above(k: Key, es: seq<Write>) {
    forall x :: 0 <= x < |es| ==> Less(k, es[x].key)
  }

  ghost predicate AllAbove(merged: seq<Write>, rem: seq<seq<Write>>) {
    forall m, i :: 0 <= m < |merged| && 0 <= i < |rem| ==> Above(merged[m].key, rem[i])
  }

  /** `merged` has been emitted, `rem` is left, and together they stand for `whole`. */
  ghost predicate Merging(whole: Table, rem: seq<seq<Write>>, merged: seq<Write>) {
    && AllSorted(rem) && StrictlySorted(merged) && AllAbove(merged, rem)
    && whole == NewestWins(Tables(rem)) + Replay(merged)
  }

  // ---------- the newest version among several tables ----------

  lemma NewestStep(ts: seq<Table>, k: Key)
    requires ts != []
    ensures Lookup(NewestWins(ts), k)
         == if k in ts[|ts| - 1] then Lookup(ts[|ts| - 1], k) else Lookup(NewestWins(ts[..|ts| - 1]), k)
  {
  }

  lemma {:induction false} NewestAgree(a: seq<Table>, b: seq<Table>, k: Key)
    requires |a| == |b| && forall i :: 0 <= i < |a| ==> Lookup(a[i], k) == Lookup(b[i], k)
    ensures Lookup(NewestWins(a), k) == Lookup(NewestWins(b), k)
  {
    if a != [] {
      hide NewestWins;
      NewestStep(a, k);
      NewestStep(b, k);
      NewestAgree(a[..|a| - 1], b[..|b| - 1], k);
    }
  }

  /** What table `m` says about a key that a newer table also holds does not matter. */
  lemma {:induction false} NewerHides(a: seq<Table>, b: seq<Table>, k: Key, m: nat, i: nat)
    requires |a| == |b| && m < i < |a| && k in a[i]
    requires forall j :: 0 <= j < |a| && j != m ==> Lookup(a[j], k) == Lookup(b[j], k)
    ensures Lookup(NewestWins(a), k) == Lookup(NewestWins(b), k)
  {
    hide NewestWins;
    NewestStep(a, k);
    NewestStep(b, k);
    if i < |a| - 1 { NewerHides(a[..|a| - 1], b[..|b| - 1], k, m, i); }
    else { assert Lookup(a[i], k) == Lookup(b[i], k); }
    if k !in a[|a| - 1] { assert Lookup(a[|a| - 1], k) == Lookup(b[|a| - 1], k); }
  }

  lemma {:induction false} OnlyHolder(ts: seq<Table>, k: Key, m: nat)
    requires m < |ts| && forall j :: 0 <= j < |ts| && j != m ==> k !in ts[j]
    ensures Lookup(NewestWins(ts), k) == Lookup(ts[m], k)
  {
    hide NewestWins;
    NewestStep(ts, k);
    if m < |ts| - 1 {
      OnlyHolder(ts[..|ts| - 1], k, m);
    } else {
      NoHolder(ts[..|ts| - 1], k);
    }
  }

  lemma {:induction false} NoHolder(ts: seq<Table>, k: Key)
    requires forall j :: 0 <= j < |ts| ==> k !in ts[j]
    ensures Lookup(NewestWins(ts), k) == None
  {
    if ts != [] {
      NewestStep(ts, k);
      NoHolder(ts[..|ts| - 1], k);
    } else {
      assert NewestWins(ts) == map[];
    }
  }

  // ---------- taking the head of one input ----------

  function WithoutHead(rem: seq<seq<Write>>, m: nat): seq<seq<Write>>
    requires m < |rem| && rem[m] != []
  {
    rem[m := rem[m][1..]]
  }

  lemma HeadOnly(es: seq<Write>, k: Key)
    requires es != [] && StrictlySorted(es)
    ensures Lookup(Replay(es), es[0].key) == Some(es[0].entry) && Lookup(Replay(es[1..]), es[0].key) == None
    ensures k != es[0].key ==> Lookup(Replay(es), k) == Lookup(Replay(es[1..]), k)
  {
    hide Less, Replay, Lookup;
    LookupAt(es, 0);
    LessIrreflexive(es[0].key);
    LookupAbsent(es[1..], es[0].key);
    assert es == [es[0]] + es[1..];
    ReplayConcat([es[0]], es[1..]);
    SingleReplay(es[0], k, Replay(es[1..]));
  }

  lemma SingleReplay(w: Write, k: Key, t: Table)
    ensures k != w.key ==> Lookup(Replay([w]) + t, k) == Lookup(t, k)
  {
    assert [w] == [] + [w];
    ReplaySnoc([], w);
  }

  lemma TailSorted(es: seq<Write>)
    requires es != [] && StrictlySorted(es)
    ensures StrictlySorted(es[1..]) && Above(es[0].key, es[1..])
  {
    hide Less;
  }

  lemma WithoutHeadSorted(merged: seq<Write>, rem: seq<seq<Write>>, m: nat)
    requires AllSorted(rem) && AllAbove(merged, rem) && m < |rem| && rem[m] != []
    ensures AllSorted(WithoutHead(rem, m)) && AllAbove(merged, WithoutHead(rem, m))
  {
    hide Less, StrictlySorted;
    TailSorted(rem[m]);
    var next := WithoutHead(rem, m);
    forall j, i | 0 <= j < |merged| && 0 <= i < |next| ensures Above(merged[j].key, next[i]) {
      assert Above(merged[j].key, rem[i]);
    }
  }

  /** Clearing the older of two equal keys in mid-scan changes nothing. */
  lemma DropKeeps(whole: Table, rem: seq<seq<Write>>, merged: seq<Write>, m: nat, i: nat)
    requires Merging(whole, rem, merged) && m < i < |rem| && rem[m] != [] && rem[i] != []
    requires rem[m][0].key == rem[i][0].key
    ensures Merging(whole, WithoutHead(rem, m), merged)
  {
    hide Less, StrictlySorted, NewestWins, Replay, AllAbove, Lookup;
    WithoutHeadSorted(merged, rem, m);
    DropNewest(rem, m, i);
  }

  lemma DropNewest(rem: seq<seq<Write>>, m: nat, i: nat)
    requires AllSorted(rem) && m < i < |rem| && rem[m] != [] && rem[i] != [] && rem[m][0].key == rem[i][0].key
    ensures NewestWins(Tables(WithoutHead(rem, m))) == NewestWins(Tables(rem))
  {
    hide Less, StrictlySorted, NewestWins, Replay;
    var next, k0 := WithoutHead(rem, m), rem[m][0].key;
    forall k: Key ensures Lookup(NewestWins(Tables(next)), k) == Lookup(NewestWins(Tables(rem)), k) {
      HeadOnly(rem[m], k);
      HeadOnly(rem[i], k);
      if k == k0 {
        NewerHides(Tables(rem), Tables(next), k, m, i);
      } else {
        NewestAgree(Tables(rem), Tables(next), k);
      }
    }
    SameLookups(NewestWins(Tables(next)), NewestWins(Tables(rem)));
  }

  /** Emitting the least key, held by one input alone, moves its version from the inputs to the output. */
  lemma EmitKeeps(whole: Table, rem: seq<seq<Write>>, merged: seq<Write>, m: nat)
    requires Merging(whole, rem, merged) && m < |rem| && rem[m] != []
    requires forall j :: 0 <= j < |rem| && j != m ==> Above(rem[m][0].key, rem[j])
    ensures Merging(whole, WithoutHead(rem, m), merged + [rem[m][0]])
  {
    hide Less, NewestWins, Replay, Lookup;
    var w, next := rem[m][0], WithoutHead(rem, m);
    WithoutHeadSorted(merged, rem, m);
    TailSorted(rem[m]);
    forall j | 0 <= j < |merged| ensures Less(merged[j].key, w.key) { assert Above(merged[j].key, rem[m]); }
    EmitNewest(rem, m);
    EmitReplay(NewestWins(Tables(next)), merged, w);
  }

  lemma EmitReplay(rest: Table, merged: seq<Write>, w: Write)
    requires forall j :: 0 <= j < |merged| ==> Less(merged[j].key, w.key)
    ensures rest[w.key := w.entry] + Replay(merged) == rest + Replay(merged + [w])
  {
    hide Less, Replay;
    LessIrreflexive(w.key);
    ReplaySnoc(merged, w);
    LookupAbsent(merged, w.key);
    PutOver(rest, Replay(merged), w);
  }

  lemma PutOver(rest: Table, t: Table, w: Write)
    requires w.key !in t
    ensures rest[w.key := w.entry] + t == rest + Put(t, w)
  {
    var a, b := rest[w.key := w.entry] + t, rest + Put(t, w);
    forall k: Key ensures Lookup(a, k) == Lookup(b, k) {
      if k in t { assert k != w.key; }
    }
    SameLookups(a, b);
  }

  lemma EmitNewest(rem: seq<seq<Write>>, m: nat)
    requires AllSorted(rem) && m < |rem| && rem[m] != []
    requires forall j :: 0 <= j < |rem| && j != m ==> Above(rem[m][0].key, rem[j])
    ensures NewestWins(Tables(rem)) == NewestWins(Tables(WithoutHead(rem, m)))[rem[m][0].key := rem[m][0].entry]
  {
    hide Less, StrictlySorted, NewestWins, Replay;
    var w, next := rem[m][0], WithoutHead(rem, m);
    var a, b := NewestWins(Tables(rem)), NewestWins(Tables(next))[w.key := w.entry];
    forall k: Key ensures Lookup(a, k) == Lookup(b, k) {
      HeadOnly(rem[m], k);
      if k == w.key {
        forall j | 0 <= j < |rem| && j != m ensures k !in Tables(rem)[j] { AboveAbsent(rem[j], k); }
        OnlyHolder(Tables(rem), k, m);
      } else {
        NewestAgree(Tables(rem), Tables(next), k);
      }
    }
    SameLookups(a, b);
  }

  lemma AboveAbsent(es: seq<Write>, k: Key)
    requires Above(k, es)
    ensures k !in Replay(es)
  {
    hide Less, Replay;
    LessIrreflexive(k);
    LookupAbsent(es, k);
  }

  // ---------- scanning for the least key ----------

  /** After a scan of the first `i` inputs: all were at their end, or input `m` alone holds the least key. */
  ghost predicate Scanned(rem: seq<seq<Write>>, i: nat, allNull: bool, m: int)
    requires i <= |rem|
  {
    if allNull then forall j :: 0 <= j < i ==> rem[j] == []
    else 0 <= m < i && rem[m] != [] && forall j :: 0 <= j < i && j != m ==> Above(rem[m][0].key, rem[j])
  }

  lemma ScanEmpty(rem: seq<seq<Write>>, i: nat, allNull: bool, m: int)
    requires i < |rem| && Scanned(rem, i, allNull, m) && rem[i] == []
    ensures Scanned(rem, i + 1, allNull, m)
  {
    hide Less;
  }

  lemma ScanFirst(rem: seq<seq<Write>>, i: nat, m: int)
    requires i < |rem| && Scanned(rem, i, true, m) && rem[i] != []
    ensures Scanned(rem, i + 1, false, i)
  {
    hide Less;
  }

  lemma ScanEqual(rem: seq<seq<Write>>, i: nat, m: nat)
    requires i < |rem| && AllSorted(rem) && Scanned(rem, i, false, m) && rem[i] != [] && rem[m][0].key == rem[i][0].key
    ensures Scanned(WithoutHead(rem, m), i + 1, false, i)
  {
    hide Less, StrictlySorted;
    TailSorted(rem[m]);
  }

  lemma ScanLess(rem: seq<seq<Write>>, i: nat, m: nat)
    requires i < |rem| && AllSorted(rem) && Scanned(rem, i, false, m) && rem[i] != []
    requires Less(rem[i][0].key, rem[m][0].key)
    ensures Scanned(rem, i + 1, false, i)
  {
    hide Less;
    var k, k0 := rem[i][0].key, rem[m][0].key;
    forall j | 0 <= j < i ensures Above(k, rem[j]) {
      forall x | 0 <= x < |rem[j]| ensures Less(k, rem[j][x].key) {
        if j != m {
          assert Above(k0, rem[j]);
          LessTransitive(k, k0, rem[j][x].key);
        } else if x > 0 {
          LessTransitive(k, k0, rem[j][x].key);
        }
      }
    }
  }

  lemma ScanGreater(rem: seq<seq<Write>>, i: nat, m: nat)
    requires i < |rem| && AllSorted(rem) && Scanned(rem, i, false, m) && rem[i] != []
    requires Less(rem[m][0].key, rem[i][0].key)
    ensures Scanned(rem, i + 1, false, m)
  {
    hide Less;
    var k0 := rem[m][0].key;
    forall x | 0 <= x < |rem[i]| ensures Less(k0, rem[i][x].key) {
      if x > 0 { LessTransitive(k0, rem[i][0].key, rem[i][x].key); }
    }
  }

  /** How many records are left. */
  ghost function Total(rem: seq<seq<Write>>): nat {
    if rem == [] then 0 else |rem[0]| + Total(rem[1..])
  }

  lemma {:induction false} TotalShrinks(rem: seq<seq<Write>>, m: nat)
    requires m < |rem| && rem[m] != []
    ensures Total(WithoutHead(rem, m)) == Total(rem) - 1
  {
    if m > 0 {
      TotalShrinks(rem[1..], m - 1);
      assert WithoutHead(rem, m)[1..] == WithoutHead(rem[1..], m - 1);
    }
  }

  // ---------- the end, and dropping tombstones ----------

  lemma MergedAll(whole: Table, rem: seq<seq<Write>>, merged: seq<Write>)
    requires Merging(whole, rem, merged) && forall i :: 0 <= i < |rem| ==> rem[i] == []
    ensures Replay(merged) == whole
  {
    hide Less, StrictlySorted, NewestWins;
    var rest := NewestWins(Tables(rem));
    forall k: Key ensures k !in rest { NoHolder(Tables(rem), k); }
    assert rest == map[];
  }

  /** The records that are written: all of them, or only the live ones. */
  function Kept(ws: seq<Write>, removeTombstones: bool): seq<Write> {
    if ws == [] then []
    else
      var w := ws[|ws| - 1];
      Kept(ws[..|ws| - 1], removeTombstones) + (if removeTombstones && w.entry.Tombstone? then [] else [w])
  }

  lemma {:induction false} KeptBelow(ws: seq<Write>, removeTombstones: bool, k: Key)
    requires forall i :: 0 <= i < |ws| ==> Less(ws[i].key, k)
    ensures forall i :: 0 <= i < |Kept(ws, removeTombstones)| ==> Less(Kept(ws, removeTombstones)[i].key, k)
  {
    hide Less;
    if ws != [] { KeptBelow(ws[..|ws| - 1], removeTombstones, k); }
  }

  /** Leaving out tombstones keeps the order and removes exactly the deleted keys from the map. */
  lemma {:induction false} KeptMeans(ws: seq<Write>, removeTombstones: bool)
    requires StrictlySorted(ws)
    ensures StrictlySorted(Kept(ws, removeTombstones))
    ensures Replay(Kept(ws, removeTombstones)) == (if removeTombstones then WithoutTombstones(Replay(ws)) else Replay(ws))
  {
    hide Less, WithoutTombstones, Replay;
    if ws == [] {
      NothingToDrop();
    } else {
      var n := |ws| - 1;
      KeptMeans(ws[..n], removeTombstones);
      KeptBelow(ws[..n], removeTombstones, ws[n].key);
      ReplaySnoc(Kept(ws[..n], removeTombstones), ws[n]);
      ReplaySnoc(ws[..n], ws[n]);
      assert ws == ws[..n] + [ws[n]];
      assert Kept(ws[..n], removeTombstones) + [] == Kept(ws[..n], removeTombstones);
      LessIrreflexive(ws[n].key);
      LookupAbsent(ws[..n], ws[n].key);
      DropPut(Replay(ws[..n]), ws[n]);
    }
  }

  lemma NothingToDrop()
    ensures Replay([]) == map[] && WithoutTombstones(map[]) == map[]
  {
  }

  lemma DropPut(t: Table, w: Write)
    requires w.key !in t
    ensures WithoutTombstones(Put(t, w)) == if w.entry.Tombstone? then WithoutTombstones(t) else Put(WithoutTombstones(t), w)
  {
  }
}
