/** The record codec: one record into a buffer, and back out of a stream or a buffer. */
module Codec {
  import opened Bytes
  import opened Entries
  import opened Records

  method AppendStr(buffer: seq<byte>, s: Str) returns (grown: seq<byte>)
    ensures grown == buffer + EncodeStr(s)
  {
    hide U32;
    grown := buffer + U32(|s|);
    grown := grown + s;
    ConcatAssociative(buffer, U32(|s|), s);
  }

  method EncodeRecord(isTombstone: bool, key: Key, val: Str) returns (buffer: seq<byte>)
    ensures buffer == Encode(Write(key, if isTombstone then Tombstone else Live(val)))
  {
    hide EncodeStr;
    buffer := [if isTombstone then 1 else 0];
    buffer := AppendStr(buffer, key);
    if isTombstone { return; }
    buffer := AppendStr(buffer, val);
  }

  /** A length and that many bytes. */
  method ReadStr(data: seq<byte>, offset: nat, ghost s: Str) returns (r: Str)
    requires StrAt(data, offset, s)
    ensures r == s
  {
    hide ReadU32;
    var length := ReadU32(data, offset);
    r := data[offset + 4..offset + 4 + length];
  }

  /** `decode` from a buffer: the record at `offset` and the number of bytes it takes. */
  method DecodeAt(data: seq<byte>, offset: nat, ghost w: Write) returns (r: Write, bytesRead: nat)
    requires RecordAt(data, offset, w)
    ensures r == w && bytesRead == |Encode(w)|
  {
    hide RecordAt, StrAt;
    Fields(data, offset, w);
    RecordFits(data, offset, w);
    var tombstone := data[offset];
    bytesRead := 1;
    var key := ReadStr(data, offset + bytesRead, w.key);
    bytesRead := bytesRead + 4 + |key|;
    if tombstone == 0 {
      var val := ReadStr(data, offset + bytesRead, w.entry.val);
      bytesRead := bytesRead + 4 + |val|;
      r := Write(key, Live(val));
    } else {
      r := Write(key, Tombstone);
    }
  }

  lemma RecordFits(data: seq<byte>, offset: nat, w: Write)
    requires RecordAt(data, offset, w)
    ensures offset + |Encode(w)| <= |data|
  {
  }

  /** `decode` from a stream: nothing at the end of the file, otherwise the next record. */
  method DecodeNext(data: seq<byte>, pos: nat, ghost ws: seq<Write>, ghost n: nat) returns (r: Option<Write>, next: nat)
    requires data == EncodeAll(ws) && n <= |ws| && pos == Offset(ws, n)
    ensures n == |ws| ==> r == None && next == pos == |data|
    ensures n < |ws| ==> r == Some(ws[n]) && next == Offset(ws, n + 1)
  {
    hide EncodeAll, Encode, RecordAt;
    if n < |ws| { RecordInPlace(ws, n, data); }
    OffsetsEnd(ws);
    if pos >= |data| { return None, pos; }
    var w, bytesRead := DecodeAt(data, pos, ws[n]);
    return Some(w), pos + bytesRead;
  }
}
