/** The write-ahead log: appended record by record, replayed into a memtable. */
module Wal {
  import opened Bytes
  import opened Entries
  import opened Records
  import opened Codec
  import opened SkipSpec
  import opened Arena
  import opened SkipLists

  /** One insertion into a skip list. */
  function InsertOne(t: Table, w: Write): Table {
    After(t, Insertion(t, w))
  }

  function InsertAll(t: Table, ws: seq<Write>): Table {
    if ws == [] then t else InsertOne(InsertAll(t, ws[..|ws| - 1]), ws[|ws| - 1])
  }

  /** The number of leading writes of the empty key. */
  function LeadingEmpty(ws: seq<Write>): (f: nat)
    ensures f <= |ws| && (forall i :: 0 <= i < f ==> ws[i].key == []) && (f < |ws| ==> ws[f].key != [])
  {
    if ws == [] || ws[0].key != [] then 0 else 1 + LeadingEmpty(ws[1..])
  }

  lemma InsertAllSnoc(t: Table, ws: seq<Write>, w: Write)
    ensures InsertAll(t, ws + [w]) == InsertOne(InsertAll(t, ws), w)
  {
    assert (ws + [w])[..|ws|] == ws;
  }

  lemma {:induction false} InsertAllAdds(t: Table, ws: seq<Write>)
    requires t != map[] || ws == [] || ws[0].key != []
    ensures InsertAll(t, ws) == t + Replay(ws)
    ensures ws != [] ==> InsertAll(t, ws) != map[]
  {
    if ws != [] {
      var n := |ws| - 1;
      InsertAllAdds(t, ws[..n]);
      if n == 0 { assert InsertAll(t, ws[..n]) == t; }
      assert ws[n].key in InsertAll(t, ws);
    }
  }

  lemma {:induction false} LeadingLost(ws: seq<Write>, f: nat)
    requires f <= |ws| && forall i :: 0 <= i < f ==> ws[i].key == []
    ensures InsertAll(map[], ws[..f]) == map[]
  {
    if f > 0 {
      assert ws[..f][..f - 1] == ws[..f - 1];
      LeadingLost(ws, f - 1);
    }
  }

  lemma {:induction false} InsertAllConcat(t: Table, a: seq<Write>, b: seq<Write>)
    ensures InsertAll(t, a + b) == InsertAll(InsertAll(t, a), b)
  {
    if b == [] {
      assert a + b == a;
    } else {
      InsertAllConcat(t, a, b[..|b| - 1]);
      assert (a + b)[..|a + b| - 1] == a + b[..|b| - 1];
    }
  }

  /** Replaying a log into an empty memtable gives the map the log stands for exactly if no write of the empty
      key comes before all others, or another write of the empty key follows later. */
  lemma ReplayIntoEmpty(ws: seq<Write>)
    ensures var f := LeadingEmpty(ws);
            InsertAll(map[], ws) == Replay(ws) <==> f == 0 || exists j :: f <= j < |ws| && ws[j].key == []
  {
    hide InsertAll, Replay;
    var f := LeadingEmpty(ws);
    hide LeadingEmpty;
    var a, b := ws[..f], ws[f..];
    assert ws == a + b;
    LeadingLost(ws, f);
    InsertAllConcat(map[], a, b);
    InsertAllAdds(map[], b);
    ReplayConcat(a, b);
    OnlyEmptyKey(a);
    SameUnion(Replay(a), Replay(b));
    EmptyKeyLater(ws, f);
  }

  lemma EmptyKeyLater(ws: seq<Write>, f: nat)
    requires f <= |ws|
    ensures [] in Replay(ws[f..]) <==> exists j :: f <= j < |ws| && ws[j].key == []
  {
    hide Replay;
    var b := ws[f..];
    KeyWritten(b, []);
    if j :| f <= j < |ws| && ws[j].key == [] { assert b[j - f] == ws[j]; }
    if i :| 0 <= i < |b| && b[i].key == [] { assert ws[f + i] == b[i]; }
  }

  lemma SameUnion(a: Table, b: Table)
    requires a.Keys == {} || a.Keys == {[]}
    ensures map[] + b == a + b <==> a == map[] || [] in b
    ensures map[] + b == b && (a == map[] <==> a.Keys == {})
  {
    if a.Keys == {} { assert a == map[]; }
    if [] in a { assert [] in (a + b); }
  }

  lemma {:induction false} OnlyEmptyKey(ws: seq<Write>)
    requires forall i :: 0 <= i < |ws| ==> ws[i].key == []
    ensures Replay(ws).Keys == if ws == [] then {} else {[]}
  {
    if ws != [] { OnlyEmptyKey(ws[..|ws| - 1]); }
  }

  lemma {:induction false} KeyWritten(ws: seq<Write>, k: Key)
    ensures k in Replay(ws) <==> exists i :: 0 <= i < |ws| && ws[i].key == k
  {
    if ws != [] {
      var n := |ws| - 1;
      KeyWritten(ws[..n], k);
      if i :| 0 <= i < |ws[..n]| && ws[..n][i].key == k { assert ws[i].key == k; }
    }
  }

  class WAL {
    var file: seq<byte>
    ghost var logged: seq<Write>

    ghost predicate Valid()
      reads this
    {
      file == EncodeAll(logged)
    }

    constructor ()
      ensures Valid() && logged == []
    {
      file, logged := [], [];
    }

    method WriteKeyOrVal(s: Str)
      modifies this`file
      ensures file == old(file) + EncodeStr(s)
    {
      file := AppendStr(file, s);
    }

    method Append(isTombstone: bool, key: Key, val: Str)
      requires Valid()
      modifies this
      ensures Valid() && logged == old(logged) + [Write(key, if isTombstone then Tombstone else Live(val))]
    {
      hide EncodeAll, EncodeStr;
      ghost var w := Write(key, if isTombstone then Tombstone else Live(val));
      file := file + [if isTombstone then 1 else 0];
      WriteKeyOrVal(key);
      if !isTombstone { WriteKeyOrVal(val); }
      EncodeAllSnoc(logged, w);
      RecordInPieces(old(file), w, file);
      logged := logged + [w];
    }

    /** Discards the log; a new one starts empty. */
    method Clear()
      modifies this
      ensures Valid() && logged == []
    {
      file, logged := [], [];
    }

    /** The replay loop: every record of the file is inserted, in order. `heights` stands for the random heights
        of the new nodes. */
    method Recover(memtable: SkipList, heights: nat -> nat)
      requires Valid() && memtable.Valid() && forall n :: heights(n) <= MAX_LVL
      requires |memtable.arena| + NODE_OVERHEAD * |logged| + |file| < LIMIT32
      requires |memtable.valData| + |logged| <= INVALID_INDEX
      modifies memtable
      ensures memtable.Valid() && memtable.contents == InsertAll(old(memtable.contents), logged)
    {
      hide SkipList.Valid, EncodeAll, Encode, InsertAll, NodeSize, RecordAt, Offset;
      var pos, n := 0, 0;
      var record;
      NothingReplayed(memtable.contents, logged);
      record, pos := DecodeNext(file, 0, logged, 0);
      while record.Some?
        invariant n <= |logged| && memtable.Valid() && memtable.contents == InsertAll(old(memtable.contents), logged[..n])
        invariant if n < |logged| then record == Some(logged[n]) && pos == Offset(logged, n + 1) else record == None
        invariant |memtable.arena| + NODE_OVERHEAD * (|logged| - n) + |file| - Offset(logged, n) < LIMIT32
        invariant |memtable.valData| + |logged| - n <= INVALID_INDEX
        decreases |logged| - n
      {
        RecordInPlace(logged, n, file);
        KeyFits(logged[n], heights(n));
        InsertAllSnoc(old(memtable.contents), logged[..n], logged[n]);
        assert logged[..n] + [logged[n]] == logged[..n + 1];
        match record.value.entry {
          case Tombstone => memtable.Insert(true, record.value.key, [], heights(n));
          case Live(val) => memtable.Insert(false, record.value.key, val, heights(n));
        }
        n := n + 1;
        record, pos := DecodeNext(file, pos, logged, n);
      }
      assert logged[..n] == logged;
    }
  }

  /** What a node takes besides its key, at most. */
  const NODE_OVERHEAD: nat := 1 + 4 * (MAX_LVL + 1) + 9

  lemma KeyFits(w: Write, height: nat)
    requires height <= MAX_LVL
    ensures NodeSize(height, |w.key|) <= NODE_OVERHEAD + |Encode(w)|
  {
  }

  lemma NothingReplayed(t: Table, ws: seq<Write>)
    ensures Offset(ws, 0) == 0 && InsertAll(t, ws[..0]) == t
  {
  }
}
