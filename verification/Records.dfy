/** The record format shared by the write-ahead log and the table files:
    tombstone flag, key length, key, and for live versions value length and value. */
module Records {
  import opened Bytes
  import opened Entries

  function EncodeStr(s: Str): (r: seq<byte>)
    ensures |r| == 4 + |s|
  {
    U32(|s|) + s
  }

  function Flag(e: Entry): byte {
    if e.Tombstone? then 1 else 0
  }

  function Encode(w: Write): (r: seq<byte>)
    ensures |r| == 5 + |w.key| + (if w.entry.Live? then 4 + |w.entry.val| else 0)
  {
    [Flag(w.entry)] + EncodeStr(w.key) + (if w.entry.Live? then EncodeStr(w.entry.val) else [])
  }

  function EncodeAll(ws: seq<Write>): seq<byte> {
    if ws == [] then [] else Encode(ws[0]) + EncodeAll(ws[1..])
  }

  lemma {:induction false} EncodeAllConcat(a: seq<Write>, b: seq<Write>)
    ensures EncodeAll(a + b) == EncodeAll(a) + EncodeAll(b)
  {
    if a == [] {
      assert a + b == b;
    } else {
      EncodeAllConcat(a[1..], b);
      assert (a + b)[0] == a[0] && (a + b)[1..] == a[1..] + b;
      ConcatAssociative(Encode(a[0]), EncodeAll(a[1..]), EncodeAll(b));
    }
  }

  lemma EncodeAllSnoc(ws: seq<Write>, w: Write)
    ensures EncodeAll(ws + [w]) == EncodeAll(ws) + Encode(w)
  {
    EncodeAllConcat(ws, [w]);
    assert EncodeAll([w]) == Encode(w);
  }

  /** The record of `w` occupies `data` from position `at`. */
  ghost predicate RecordAt(data: seq<byte>, at: nat, w: Write) {
    at + |Encode(w)| <= |data| && data[at..at + |Encode(w)|] == Encode(w)
  }

  ghost predicate StrAt(data: seq<byte>, at: nat, s: Str) {
    at + 4 + |s| <= |data| && ReadU32(data, at) == |s| && data[at + 4..at + 4 + |s|] == s
  }

  lemma StrFields(data: seq<byte>, at: nat, s: Str)
    requires at + 4 + |s| <= |data| && data[at..at + 4 + |s|] == EncodeStr(s)
    ensures StrAt(data, at, s)
  {
    var d := data[at..at + 4 + |s|];
    SliceOfSlice(data, at, at + 4 + |s|, 0, 4);
    SliceOfSlice(data, at, at + 4 + |s|, 4, 4 + |s|);
    assert d[0..4] == U32(|s|) && d[4..4 + |s|] == s;
  }

  /** What a parser standing at the record reads, field by field. */
  lemma Fields(data: seq<byte>, at: nat, w: Write)
    requires RecordAt(data, at, w)
    ensures data[at] == Flag(w.entry)
    ensures StrAt(data, at + 1, w.key)
    ensures w.entry.Live? ==> StrAt(data, at + 5 + |w.key|, w.entry.val)
  {
    var r := Encode(w);
    var d := data[at..at + |r|];
    assert d[0] == Flag(w.entry);
    var k := 1 + 4 + |w.key|;
    SliceOfSlice(data, at, at + |r|, 1, k);
    assert r[1..k] == EncodeStr(w.key);
    StrFields(data, at + 1, w.key);
    if w.entry.Live? {
      SliceOfSlice(data, at, at + |r|, k, |r|);
      assert r[k..] == EncodeStr(w.entry.val);
      StrFields(data, at + k, w.entry.val);
    }
  }

  lemma StrUnique(data: seq<byte>, at: nat, s: Str, t: Str)
    requires StrAt(data, at, s) && StrAt(data, at, t)
    ensures s == t
  {
  }

  /** No record is a proper prefix of another: bytes determine the record. */
  lemma RecordUnique(data: seq<byte>, at: nat, v: Write, w: Write)
    requires RecordAt(data, at, v) && RecordAt(data, at, w)
    ensures v == w
  {
    hide RecordAt, StrAt;
    Fields(data, at, v);
    Fields(data, at, w);
    StrUnique(data, at + 1, v.key, w.key);
    if v.entry.Live? { StrUnique(data, at + 5 + |v.key|, v.entry.val, w.entry.val); }
  }

  /** Encoding loses nothing: different histories have different logs. */
  lemma {:induction false} EncodeAllInjective(a: seq<Write>, b: seq<Write>)
    requires EncodeAll(a) == EncodeAll(b)
    ensures a == b
  {
    if a != [] && b != [] {
      var d := EncodeAll(a);
      assert RecordAt(d, 0, a[0]) && RecordAt(d, 0, b[0]);
      RecordUnique(d, 0, a[0], b[0]);
      assert EncodeAll(a[1..]) == d[|Encode(a[0])|..] == EncodeAll(b[1..]);
      EncodeAllInjective(a[1..], b[1..]);
      assert a == [a[0]] + a[1..] && b == [b[0]] + b[1..];
    }
  }

  /** Where the `i`-th record starts. */
  function Offset(es: seq<Write>, i: nat): nat
    requires i <= |es|
  {
    |EncodeAll(es[..i])|
  }

  /** The records follow each other without gaps. */
  lemma RecordInPlace(es: seq<Write>, i: nat, data: seq<byte>)
    requires i < |es| && EncodeAll(es) <= data
    ensures Offset(es, i + 1) == Offset(es, i) + |Encode(es[i])| <= |EncodeAll(es)|
    ensures RecordAt(data, Offset(es, i), es[i])
  {
    hide Encode;
    assert es[..i + 1] == es[..i] + [es[i]];
    EncodeAllSnoc(es[..i], es[i]);
    assert es == es[..i + 1] + es[i + 1..];
    EncodeAllConcat(es[..i + 1], es[i + 1..]);
    var r := EncodeAll(es[..i + 1]);
    assert r <= data;
    SliceOfPrefix(r, data, Offset(es, i), |r|);
  }

  lemma SliceOfPrefix(p: seq<byte>, data: seq<byte>, lo: nat, hi: nat)
    requires p <= data && lo <= hi <= |p|
    ensures data[lo..hi] == p[lo..hi]
  {
  }

  lemma OffsetsEnd(es: seq<Write>)
    ensures Offset(es, 0) == 0 && Offset(es, |es|) == |EncodeAll(es)|
  {
    assert es[..|es|] == es;
  }

  lemma {:induction false} OffsetsIncrease(es: seq<Write>, i: nat, j: nat)
    requires i < j <= |es|
    ensures Offset(es, i) < Offset(es, j)
    decreases j - i
  {
    hide Encode;
    RecordInPlace(es, j - 1, EncodeAll(es));
    if i < j - 1 { OffsetsIncrease(es, i, j - 1); }
  }

  lemma RecordInPieces(before: seq<byte>, w: Write, after: seq<byte>)
    requires after == (if w.entry.Live? then before + [Flag(w.entry)] + EncodeStr(w.key) + EncodeStr(w.entry.val)
                       else before + [Flag(w.entry)] + EncodeStr(w.key))
    ensures after == before + Encode(w)
  {
    hide EncodeStr;
  }
}
