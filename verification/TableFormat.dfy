/** The bytes of a table file: records in key order, a sparse index, the filter's words, and a footer
    of two offsets. */
module TableFormat {
  import opened Bytes
  import opened Entries
  import opened Records

  /** One index entry is kept for every BLOCK records. */
  const BLOCK: nat := 40

  datatype Bookmark = Bookmark(key: Key, offset: u64)

  ghost predicate StrictlySorted(es: seq<Write>) {
    forall i, j :: 0 <= i < j < |es| ==> Less(es[i].key, es[j].key)
  }

  ghost function KeySet(es: seq<Write>): set<seq<byte>> {
    set i | 0 <= i < |es| :: es[i].key
  }

  /** The index points, in 64-bit offsets, to records 0, BLOCK, 2 * BLOCK and so on. */
  ghost predicate Indexes(index: seq<Bookmark>, es: seq<Write>) {
    && |index| == (|es| + BLOCK - 1) / BLOCK
    && forall j :: 0 <= j < |index| ==> IndexesAt(index[j], es, BLOCK * j)
  }

  ghost predicate IndexesAt(b: Bookmark, es: seq<Write>, i: nat) {
    i < |es| && b.key == es[i].key && b.offset == Offset(es, i) % LIMIT64
  }

  function EncodeBookmark(b: Bookmark): (r: seq<byte>)
    ensures |r| == 12 + |b.key|
  {
    EncodeStr(b.key) + U64(b.offset)
  }

  function EncodeIndex(bs: seq<Bookmark>): seq<byte> {
    if bs == [] then [] else EncodeIndex(bs[..|bs| - 1]) + EncodeBookmark(bs[|bs| - 1])
  }

  function EncodeWords(ws: seq<u64>): (r: seq<byte>)
    ensures |r| == 8 * |ws|
  {
    if ws == [] then [] else EncodeWords(ws[..|ws| - 1]) + U64(ws[|ws| - 1])
  }

  /** The file for the records `es` and the filter table `words`. */
  ghost predicate IsTable(data: seq<byte>, es: seq<Write>, index: seq<Bookmark>, words: seq<u64>) {
    && Indexes(index, es)
    && var indexOffset := |EncodeAll(es)|;
       var filterOffset := indexOffset + |EncodeIndex(index)|;
       && filterOffset + 8 * |words| + 16 == |data| < LIMIT64
       && Assembled(data, EncodeAll(es), EncodeIndex(index), EncodeWords(words), filterOffset, indexOffset)
  }

  ghost predicate Assembled(data: seq<byte>, records: seq<byte>, index: seq<byte>, filter: seq<byte>, filterOffset: u64, indexOffset: u64) {
    data == records + index + filter + U64(filterOffset) + U64(indexOffset)
  }

  /** Appending a record moves no earlier one. */
  lemma OffsetsStay(es: seq<Write>, w: Write, i: nat)
    requires i <= |es|
    ensures Offset(es + [w], i) == Offset(es, i)
  {
    assert (es + [w])[..i] == es[..i];
  }

  // ---------- index ----------

  lemma IndexWithout(index: seq<Bookmark>, es: seq<Write>, w: Write)
    requires Indexes(index, es) && |es| % BLOCK != 0
    ensures Indexes(index, es + [w])
  {
    forall j | 0 <= j < |index| ensures IndexesAt(index[j], es + [w], BLOCK * j) {
      assert IndexesAt(index[j], es, BLOCK * j);
      OffsetsStay(es, w, BLOCK * j);
    }
  }

  lemma IndexWith(index: seq<Bookmark>, es: seq<Write>, w: Write)
    requires Indexes(index, es) && |es| % BLOCK == 0
    ensures Indexes(index + [Bookmark(w.key, |EncodeAll(es)| % LIMIT64)], es + [w])
  {
    hide EncodeAll;
    var more := index + [Bookmark(w.key, |EncodeAll(es)| % LIMIT64)];
    forall j | 0 <= j < |more| ensures IndexesAt(more[j], es + [w], BLOCK * j) {
      if j < |index| {
        assert IndexesAt(index[j], es, BLOCK * j);
        OffsetsStay(es, w, BLOCK * j);
      } else {
        OffsetsStay(es, w, |es|);
        OffsetsEnd(es);
      }
    }
  }

  lemma {:induction false} IndexPrefix(bs: seq<Bookmark>, n: nat)
    requires n <= |bs|
    ensures EncodeIndex(bs[..n]) <= EncodeIndex(bs)
  {
    if n < |bs| {
      IndexPrefix(bs[..|bs| - 1], n);
      assert bs[..|bs| - 1][..n] == bs[..n];
    } else {
      assert bs[..n] == bs;
    }
  }

  /** What a parser standing behind the first `n` bookmarks finds. */
  lemma BookmarkInPlace(bs: seq<Bookmark>, n: nat, data: seq<byte>, at: nat)
    requires n < |bs| && at + |EncodeIndex(bs)| <= |data| && data[at..at + |EncodeIndex(bs)|] == EncodeIndex(bs)
    ensures var p := at + |EncodeIndex(bs[..n])|;
            && |EncodeIndex(bs[..n + 1])| == |EncodeIndex(bs[..n])| + 12 + |bs[n].key| <= |EncodeIndex(bs)|
            && StrAt(data, p, bs[n].key)
            && ReadU64(data, p + 4 + |bs[n].key|) == bs[n].offset
  {
    hide EncodeStr, ReadU64, U64, StrAt;
    assert bs[..n + 1][..n] == bs[..n];
    IndexPrefix(bs, n + 1);
    var b := EncodeBookmark(bs[n]);
    PartInPlace(data, at, EncodeIndex(bs), EncodeIndex(bs[..n]), b);
    BookmarkFields(data, at + |EncodeIndex(bs[..n])|, bs[n]);
  }

  /** A part of a prefix of a piece of the data. */
  lemma PartInPlace(data: seq<byte>, at: nat, piece: seq<byte>, before: seq<byte>, part: seq<byte>)
    requires at + |piece| <= |data| && data[at..at + |piece|] == piece && before + part <= piece
    ensures |before| + |part| <= |piece|
    ensures data[at + |before|..at + |before| + |part|] == part
  {
    SliceOfSlice(data, at, at + |piece|, |before|, |before| + |part|);
    SliceOfPrefix(before + part, piece, |before|, |before| + |part|);
    assert (before + part)[|before|..|before| + |part|] == part;
  }

  lemma BookmarkFields(data: seq<byte>, at: nat, b: Bookmark)
    requires at + |EncodeBookmark(b)| <= |data| && data[at..at + |EncodeBookmark(b)|] == EncodeBookmark(b)
    ensures StrAt(data, at, b.key) && ReadU64(data, at + 4 + |b.key|) == b.offset
  {
    hide EncodeStr, ReadU64, U64, StrAt;
    var k := 4 + |b.key|;
    SliceOfSlice(data, at, at + k + 8, 0, k);
    SliceOfSlice(data, at, at + k + 8, k, k + 8);
    StrFields(data, at, b.key);
    U64ReadsBack(data, at + k, b.offset);
  }

  lemma U64ReadsBack(data: seq<byte>, at: nat, n: u64)
    requires at + 8 <= |data| && data[at..at + 8] == U64(n)
    ensures ReadU64(data, at) == n
  {
  }

  // ---------- filter and footer ----------

  lemma {:induction false} WordsPrefix(ws: seq<u64>, n: nat)
    requires n <= |ws|
    ensures EncodeWords(ws[..n]) <= EncodeWords(ws)
    ensures n > 0 ==> EncodeWords(ws[..n]) == EncodeWords(ws[..n - 1]) + U64(ws[n - 1])
  {
    if n > 0 { assert ws[..n][..n - 1] == ws[..n - 1]; }
    if n < |ws| {
      WordsPrefix(ws[..|ws| - 1], n);
      assert ws[..|ws| - 1][..n] == ws[..n];
    } else {
      assert ws[..n] == ws;
    }
  }

  lemma WordInPlace(ws: seq<u64>, n: nat, data: seq<byte>, at: nat)
    requires n < |ws| && at + 8 * |ws| <= |data| && data[at..at + 8 * |ws|] == EncodeWords(ws)
    ensures ReadU64(data, at + 8 * n) == ws[n]
  {
    hide ReadU64, U64, EncodeWords;
    WordsPrefix(ws, n + 1);
    PartInPlace(data, at, EncodeWords(ws), EncodeWords(ws[..n]), U64(ws[n]));
    U64ReadsBack(data, at + 8 * n, ws[n]);
  }

  /** The footer leads to every other part of the file. */
  lemma PartsInPlace(data: seq<byte>, es: seq<Write>, index: seq<Bookmark>, words: seq<u64>)
    requires IsTable(data, es, index, words)
    ensures ReadU64(data, |data| - 8) == |EncodeAll(es)|
    ensures ReadU64(data, |data| - 16) == |EncodeAll(es)| + |EncodeIndex(index)|
    ensures EncodeAll(es) <= data
    ensures var io, fo := |EncodeAll(es)|, |EncodeAll(es)| + |EncodeIndex(index)|;
            && data[io..fo] == EncodeIndex(index)
            && data[fo..fo + 8 * |words|] == EncodeWords(words)
            && fo + 8 * |words| + 16 == |data|
  {
    hide EncodeAll, EncodeIndex, EncodeWords, ReadU64, Indexes, Assembled;
    var a, b, c := EncodeAll(es), EncodeIndex(index), EncodeWords(words);
    FiveParts(data, a, b, c, |a| + |b|, |a|);
  }

  lemma FooterReadsBack(data: seq<byte>, fo: u64, io: u64)
    requires |data| >= 16 && data[|data| - 16..|data| - 8] == U64(fo) && data[|data| - 8..|data|] == U64(io)
    ensures ReadU64(data, |data| - 8) == io && ReadU64(data, |data| - 16) == fo
  {
    hide ReadU64, U64;
    U64ReadsBack(data, |data| - 8, io);
    U64ReadsBack(data, |data| - 16, fo);
  }

  lemma FiveParts(data: seq<byte>, a: seq<byte>, b: seq<byte>, c: seq<byte>, fo: u64, io: u64)
    requires Assembled(data, a, b, c, fo, io)
    ensures a <= data && data[|a|..|a| + |b|] == b && data[|a| + |b|..|a| + |b| + |c|] == c
    ensures |data| == |a| + |b| + |c| + 16 && ReadU64(data, |data| - 8) == io && ReadU64(data, |data| - 16) == fo
  {
    hide ReadU64, U64;
    Cut(data, a, b, c, U64(fo), U64(io));
    FooterReadsBack(data, fo, io);
  }

  lemma Cut(data: seq<byte>, a: seq<byte>, b: seq<byte>, c: seq<byte>, d: seq<byte>, e: seq<byte>)
    requires data == a + b + c + d + e
    ensures a <= data && data[|a|..|a| + |b|] == b && data[|a| + |b|..|a| + |b| + |c|] == c
    ensures data[|data| - |d| - |e|..|data| - |e|] == d && data[|data| - |e|..|data|] == e
  {
  }

  // ---------- lookup ----------

  /** In a sorted record list every record is the one its key is looked up to. */
  lemma {:induction false} LookupAt(es: seq<Write>, i: nat)
    requires StrictlySorted(es) && i < |es|
    ensures Lookup(Replay(es), es[i].key) == Some(es[i].entry)
  {
    hide Less;
    var n := |es| - 1;
    if i < n {
      LessIrreflexive(es[i].key);
      assert es[..n][i] == es[i];
      LookupAt(es[..n], i);
    }
  }

  lemma {:induction false} LookupAbsent(es: seq<Write>, k: Key)
    requires forall i :: 0 <= i < |es| ==> es[i].key != k
    ensures Lookup(Replay(es), k) == None
  {
    if es != [] { LookupAbsent(es[..|es| - 1], k); }
  }
}
