/** Keys, versions of keys, and the key-value maps that memtables and tables stand for. */
module Entries {
  import opened Bytes

  datatype Option<+T> = None | Some(value: T)

  type Key = Str

  datatype Entry = Tombstone | Live(val: Str)

  datatype Write = Write(key: Key, entry: Entry)

  type Table = map<Key, Entry>

  function Lookup(t: Table, k: Key): Option<Entry> {
    if k in t then Some(t[k]) else None
  }

  /** What a version means to a client: a deleted key and a missing key are the same. */
  function Visible(e: Option<Entry>): Option<Str> {
    if e.Some? && e.value.Live? then Some(e.value.val) else None
  }

  /** The string `get` hands out: "" for a tombstone, nothing for a missing key. */
  function Reported(e: Option<Entry>): Option<Str> {
    match e
    case None => None
    case Some(Tombstone) => Some([])
    case Some(Live(v)) => Some(v)
  }

  /** One write performed on a map. */
  function Put(t: Table, w: Write): Table {
    t[w.key := w.entry]
  }

  /** The map left by performing the writes in order. */
  function Replay(ws: seq<Write>): Table {
    if ws == [] then map[]
    else Put(Replay(ws[..|ws| - 1]), ws[|ws| - 1])
  }

  lemma ReplaySnoc(ws: seq<Write>, w: Write)
    ensures Replay(ws + [w]) == Put(Replay(ws), w)
  {
    assert (ws + [w])[..|ws|] == ws;
  }

  lemma {:induction false} ReplayConcat(a: seq<Write>, b: seq<Write>)
    ensures Replay(a + b) == Replay(a) + Replay(b)
  {
    if b == [] {
      assert a + b == a;
    } else {
      ReplayConcat(a, b[..|b| - 1]);
      assert (a + b)[..|a + b| - 1] == a + b[..|b| - 1];
    }
  }

  /** Replaying a range of the history splits at any point inside it. */
  lemma ReplaySplit(ws: seq<Write>, lo: nat, mid: nat, hi: nat)
    requires lo <= mid <= hi <= |ws|
    ensures Replay(ws[lo..hi]) == Replay(ws[lo..mid]) + Replay(ws[mid..hi])
  {
    assert ws[lo..hi] == ws[lo..mid] + ws[mid..hi];
    ReplayConcat(ws[lo..mid], ws[mid..hi]);
  }

  /** What became of a write when it was inserted into a memtable. */
  datatype Event = Performed(write: Write) | Lost

  /** An empty key written to an empty memtable is taken for the key of the head node, and lost. */
  function Insertion(t: Table, w: Write): Event {
    if w.key == [] && t == map[] then Lost else Performed(w)
  }

  function After(t: Table, e: Event): Table {
    if e.Performed? then Put(t, e.write) else t
  }

  /** The map left by what became of the writes, in order. */
  function Outcome(es: seq<Event>): Table {
    if es == [] then map[] else After(Outcome(es[..|es| - 1]), es[|es| - 1])
  }

  lemma OutcomeSnoc(es: seq<Event>, e: Event)
    ensures Outcome(es + [e]) == After(Outcome(es), e)
  {
    assert (es + [e])[..|es|] == es;
  }

  lemma {:induction false} OutcomeConcat(a: seq<Event>, b: seq<Event>)
    ensures Outcome(a + b) == Outcome(a) + Outcome(b)
  {
    if b == [] {
      assert a + b == a;
    } else {
      OutcomeConcat(a, b[..|b| - 1]);
      assert (a + b)[..|a + b| - 1] == a + b[..|b| - 1];
    }
  }

  /** The outcome of a range of the history splits at any point inside it. */
  lemma OutcomeSplit(es: seq<Event>, lo: nat, mid: nat, hi: nat)
    requires lo <= mid <= hi <= |es|
    ensures Outcome(es[lo..hi]) == Outcome(es[lo..mid]) + Outcome(es[mid..hi])
  {
    assert es[lo..hi] == es[lo..mid] + es[mid..hi];
    OutcomeConcat(es[lo..mid], es[mid..hi]);
  }

  /** The union of tables listed oldest first, the newest version of each key winning. */
  function NewestWins(ts: seq<Table>): Table {
    if ts == [] then map[] else NewestWins(ts[..|ts| - 1]) + ts[|ts| - 1]
  }

  function WithoutTombstones(t: Table): Table {
    map k | k in t && t[k] != Tombstone :: t[k]
  }

  /** What one compaction writes. */
  function Merged(ts: seq<Table>, dropTombstones: bool): Table {
    if dropTombstones then WithoutTombstones(NewestWins(ts)) else NewestWins(ts)
  }

  /** The two tables give every client the same view. */
  ghost predicate Agree(a: Table, b: Table) {
    forall k: Key :: Visible(Lookup(a, k)) == Visible(Lookup(b, k))
  }

  /** Maps that answer every lookup alike are equal. */
  lemma SameLookups(a: Table, b: Table)
    requires forall k: Key :: Lookup(a, k) == Lookup(b, k)
    ensures a == b
  {
    forall k: Key ensures k in a <==> k in b { assert Lookup(a, k) == Lookup(b, k); }
    forall k: Key | k in a && k in b ensures a[k] == b[k] { assert Lookup(a, k) == Lookup(b, k); }
  }
}
