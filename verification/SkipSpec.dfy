/** Skip lists as values: nodes addressed by number, number 0 being the head and the end of every list. */
module SkipSpec {
  import opened Bytes
  import opened Entries

  const MAX_LVL: nat := 20

  /** `next[i]` is the node's successor in the list of level `i`. */
  datatype Node = Node(levels: nat, tombstone: byte, key: Key, valIndex: nat, next: seq<nat>)

  type Nodes = map<nat, Node>

  ghost predicate Shaped(nodes: Nodes) {
    && 0 in nodes && nodes[0].levels == MAX_LVL && nodes[0].key == []
    && forall a :: a in nodes ==> nodes[a].levels <= MAX_LVL && |nodes[a].next| == nodes[a].levels + 1
  }

  /** `b` is an entry on level `i`. */
  ghost predicate On(nodes: Nodes, i: nat, b: nat) {
    b != 0 && b in nodes && nodes[b].levels >= i
  }

  /** The head comes before every entry, an entry before those with greater keys. */
  ghost predicate Before(nodes: Nodes, a: nat, b: nat)
    requires a in nodes && b in nodes
  {
    a == 0 || Less(nodes[a].key, nodes[b].key)
  }

  ghost predicate BeforeKey(nodes: Nodes, a: nat, k: Key)
    requires a in nodes
  {
    a == 0 || Less(nodes[a].key, k)
  }

  /** `t` is the entry of level `i` that follows `a` with no entry in between, or 0 if none follows. */
  ghost predicate Follows(nodes: Nodes, i: nat, a: nat, t: nat)
    requires a in nodes
  {
    if t == 0 then forall b :: On(nodes, i, b) ==> !Before(nodes, a, b)
    else
      && On(nodes, i, t) && Before(nodes, a, t)
      && forall b :: On(nodes, i, b) && Before(nodes, a, b) ==> !Less(nodes[b].key, nodes[t].key)
  }

  /** The list of level `i` visits exactly the entries of that level, in strictly increasing key order. */
  ghost predicate LevelLinked(nodes: Nodes, i: nat)
    requires Shaped(nodes)
  {
    forall a :: a in nodes && nodes[a].levels >= i ==> Follows(nodes, i, a, nodes[a].next[i])
  }

  ghost predicate DistinctKeys(nodes: Nodes) {
    forall a, b :: a in nodes && b in nodes && a != 0 && b != 0 && a != b ==> nodes[a].key != nodes[b].key
  }

  ghost predicate Linked(nodes: Nodes) {
    && Shaped(nodes) && DistinctKeys(nodes)
    && forall i :: 0 <= i <= MAX_LVL ==> LevelLinked(nodes, i)
  }

  /** `p` is the last node on level `i` whose key is less than `k`. */
  ghost predicate Predecessor(nodes: Nodes, k: Key, i: nat, p: nat) {
    && p in nodes && nodes[p].levels >= i && BeforeKey(nodes, p, k)
    && forall b :: On(nodes, i, b) && Before(nodes, p, b) ==> !Less(nodes[b].key, k)
  }

  /** The keys of the list and what each holds. */
  ghost predicate Holds(nodes: Nodes, values: seq<Str>, t: Table) {
    && (forall a :: a in nodes && a != 0 ==> nodes[a].key in t && t[nodes[a].key] == EntryOf(nodes[a], values))
    && (forall k :: k in t ==> exists a :: a in nodes && a != 0 && nodes[a].key == k)
  }

  function EntryOf(n: Node, values: seq<Str>): Entry {
    if n.tombstone != 0 || n.valIndex >= |values| then Tombstone else Live(values[n.valIndex])
  }

  ghost predicate SlotOk(n: Node, values: seq<Str>, invalid: nat) {
    && n.tombstone <= 1
    && (n.valIndex == invalid || n.valIndex < |values|)
    && (n.tombstone == 0 ==> n.valIndex < |values|)
  }

  /** Every live node has a slot in the value table, and no two nodes share one. */
  ghost predicate SlotsOk(nodes: Nodes, values: seq<Str>, invalid: nat) {
    && |values| <= invalid
    && (forall a :: a in nodes ==> SlotOk(nodes[a], values, invalid))
    && (forall a, b :: a in nodes && b in nodes && a != b && nodes[a].valIndex != invalid ==>
          nodes[a].valIndex != nodes[b].valIndex)
  }

  // ---------- search ----------

  /** If the successor of `p` is not less than `k`, then `p` is the predecessor. */
  lemma StopIsPredecessor(nodes: Nodes, k: Key, i: nat, p: nat)
    requires Linked(nodes) && i <= MAX_LVL && p in nodes && nodes[p].levels >= i && BeforeKey(nodes, p, k)
    requires var t := nodes[p].next[i]; t == 0 || (t in nodes && !Less(nodes[t].key, k))
    ensures Predecessor(nodes, k, i, p)
  {
    hide Less;
    var t := nodes[p].next[i];
    assert LevelLinked(nodes, i);
    assert Follows(nodes, i, p, t);
    forall b | On(nodes, i, b) && Before(nodes, p, b) ensures !Less(nodes[b].key, k) {
      if t != 0 && Less(nodes[b].key, k) {
        LessTotal(nodes[b].key, nodes[t].key);
        if Less(nodes[t].key, nodes[b].key) { LessTransitive(nodes[t].key, nodes[b].key, k); }
      }
    }
  }

  lemma NextIsNode(nodes: Nodes, i: nat, p: nat)
    requires Linked(nodes) && i <= MAX_LVL && p in nodes && nodes[p].levels >= i
    ensures var t := nodes[p].next[i]; t == 0 || (On(nodes, i, t) && Before(nodes, p, t))
  {
    hide Less;
    assert LevelLinked(nodes, i);
    assert Follows(nodes, i, p, nodes[p].next[i]);
  }

  /** The entries that come after `a`. */
  ghost function Ahead(nodes: Nodes, a: nat): set<nat>
    requires a in nodes
  {
    set b | b in nodes && b != 0 && Before(nodes, a, b)
  }

  /** Following a pointer leaves strictly fewer entries ahead: the lists have no cycles. */
  lemma AheadShrinks(nodes: Nodes, i: nat, p: nat)
    requires Linked(nodes) && i <= MAX_LVL && p in nodes && nodes[p].levels >= i && nodes[p].next[i] != 0
    ensures nodes[p].next[i] in nodes && Ahead(nodes, nodes[p].next[i]) < Ahead(nodes, p)
  {
    hide Less;
    NextIsNode(nodes, i, p);
    var t := nodes[p].next[i];
    LessIrreflexive(nodes[t].key);
    assert t in Ahead(nodes, p) && t !in Ahead(nodes, t);
    forall b | b in Ahead(nodes, t) ensures b in Ahead(nodes, p) {
      if p != 0 { LessTransitive(nodes[p].key, nodes[t].key, nodes[b].key); }
    }
  }

  /** The successor of the predecessor is the node of `k`, if there is one. */
  lemma SuccessorDecides(nodes: Nodes, k: Key, p: nat)
    requires Linked(nodes) && Predecessor(nodes, k, 0, p)
    ensures var t := nodes[p].next[0];
            (t != 0 && t in nodes && nodes[t].key == k) || (forall a :: a in nodes && a != 0 ==> nodes[a].key != k)
  {
    hide Less;
    var t := nodes[p].next[0];
    NextIsNode(nodes, 0, p);
    assert LevelLinked(nodes, 0);
    assert Follows(nodes, 0, p, t);
    forall a | a in nodes && a != 0 && nodes[a].key == k ensures t == a {
      assert On(nodes, 0, a) && Before(nodes, p, a);
      assert t != 0 && !Less(nodes[a].key, nodes[t].key);
      assert !Less(nodes[t].key, k);
      LessTotal(nodes[t].key, nodes[a].key);
    }
  }

  // ---------- walking a list ----------

  /** The nodes met by following the pointers of level `i` from `a` to the end. */
  ghost function Walk(nodes: Nodes, i: nat, a: nat): seq<nat>
    requires Linked(nodes) && i <= MAX_LVL && a in nodes && nodes[a].levels >= i
    decreases Ahead(nodes, a)
  {
    var t := nodes[a].next[i];
    if t == 0 then []
    else
      NextIsNode(nodes, i, a);
      AheadShrinks(nodes, i, a);
      [t] + Walk(nodes, i, t)
  }

  /** A walk meets exactly the entries of its level that come after its start. */
  lemma {:induction false} WalkMeets(nodes: Nodes, i: nat, a: nat, b: nat)
    requires Linked(nodes) && i <= MAX_LVL && a in nodes && nodes[a].levels >= i
    ensures b in Walk(nodes, i, a) <==> On(nodes, i, b) && Before(nodes, a, b)
    decreases Ahead(nodes, a)
  {
    hide Less;
    var t := nodes[a].next[i];
    assert LevelLinked(nodes, i);
    assert Follows(nodes, i, a, t);
    if t != 0 {
      NextIsNode(nodes, i, a);
      AheadShrinks(nodes, i, a);
      WalkMeets(nodes, i, t, b);
      WalkHead(nodes, i, a, b);
    }
  }

  /** Among the entries after `a`, those that are not its successor come after the successor. */
  lemma WalkHead(nodes: Nodes, i: nat, a: nat, b: nat)
    requires Linked(nodes) && i <= MAX_LVL && a in nodes && nodes[a].levels >= i && nodes[a].next[i] != 0
    ensures var t := nodes[a].next[i];
            On(nodes, i, t) && (On(nodes, i, b) ==> (Before(nodes, a, b) <==> b == t || Before(nodes, t, b)))
  {
    hide Less;
    var t := nodes[a].next[i];
    assert LevelLinked(nodes, i);
    assert Follows(nodes, i, a, t);
    if On(nodes, i, b) && b != t {
      LessTotal(nodes[b].key, nodes[t].key);
      if a != 0 && Before(nodes, t, b) { LessTransitive(nodes[a].key, nodes[t].key, nodes[b].key); }
    }
  }

  /** Along a walk the keys strictly increase. */
  lemma {:induction false} WalkSorted(nodes: Nodes, i: nat, a: nat, x: nat, y: nat)
    requires Linked(nodes) && i <= MAX_LVL && a in nodes && nodes[a].levels >= i
    requires x < y < |Walk(nodes, i, a)|
    ensures Walk(nodes, i, a)[x] in nodes && Walk(nodes, i, a)[y] in nodes
    ensures Less(nodes[Walk(nodes, i, a)[x]].key, nodes[Walk(nodes, i, a)[y]].key)
    decreases Ahead(nodes, a)
  {
    hide Less;
    var t := nodes[a].next[i];
    NextIsNode(nodes, i, a);
    AheadShrinks(nodes, i, a);
    var rest := Walk(nodes, i, t);
    assert Walk(nodes, i, a) == [t] + rest;
    if x == 0 {
      assert rest[y - 1] in rest;
      WalkMeets(nodes, i, t, rest[y - 1]);
    } else {
      WalkSorted(nodes, i, t, x - 1, y - 1);
    }
  }

  /** Each level's list is a sublist of the list below it. */
  lemma LevelsNest(nodes: Nodes, i: nat, b: nat)
    requires Linked(nodes) && i < MAX_LVL && b in Walk(nodes, i + 1, 0)
    ensures b in Walk(nodes, i, 0)
  {
    WalkMeets(nodes, i + 1, 0, b);
    WalkMeets(nodes, i, 0, b);
  }

  // ---------- iteration ----------

  function WriteOf(n: Node, values: seq<Str>): Write {
    Write(n.key, EntryOf(n, values))
  }

  /** What an iterator standing at `t` still has to yield. */
  ghost function Listed(nodes: Nodes, values: seq<Str>, t: nat): (ws: seq<Write>)
    requires Linked(nodes) && t in nodes
    ensures |ws| == (if t == 0 then 0 else 1 + |Walk(nodes, 0, t)|)
    ensures t != 0 ==> ws[0] == WriteOf(nodes[t], values)
    ensures t != 0 ==> forall x :: 0 <= x < |Walk(nodes, 0, t)| ==>
              Walk(nodes, 0, t)[x] in nodes && ws[x + 1] == WriteOf(nodes[Walk(nodes, 0, t)[x]], values)
    decreases Ahead(nodes, t)
  {
    if t == 0 then []
    else
      var n := nodes[t].next[0];
      NextIsNode(nodes, 0, t);
      if n == 0 then [WriteOf(nodes[t], values)]
      else
        AheadShrinks(nodes, 0, t);
        [WriteOf(nodes[t], values)] + Listed(nodes, values, n)
  }

  /** Everything an iterator yields. */
  ghost function Contents(nodes: Nodes, values: seq<Str>): seq<Write>
    requires Linked(nodes)
  {
    NextIsNode(nodes, 0, 0);
    Listed(nodes, values, nodes[0].next[0])
  }

  /** An iterator walks the list of level 0. */
  lemma ContentsFollowWalk(nodes: Nodes, values: seq<Str>)
    requires Linked(nodes)
    ensures |Contents(nodes, values)| == |Walk(nodes, 0, 0)|
    ensures forall x :: 0 <= x < |Walk(nodes, 0, 0)| ==>
              Walk(nodes, 0, 0)[x] in nodes && Contents(nodes, values)[x] == WriteOf(nodes[Walk(nodes, 0, 0)[x]], values)
  {
    NextIsNode(nodes, 0, 0);
    var t := nodes[0].next[0];
    if t != 0 {
      AheadShrinks(nodes, 0, 0);
      FollowRest(nodes, values, t, Listed(nodes, values, t), Walk(nodes, 0, t));
    }
  }

  lemma FollowRest(nodes: Nodes, values: seq<Str>, t: nat, ws: seq<Write>, rest: seq<nat>)
    requires t in nodes && |ws| == 1 + |rest| && ws[0] == WriteOf(nodes[t], values)
    requires forall x :: 0 <= x < |rest| ==> rest[x] in nodes && ws[x + 1] == WriteOf(nodes[rest[x]], values)
    ensures forall x :: 0 <= x < |[t] + rest| ==>
              ([t] + rest)[x] in nodes && ws[x] == WriteOf(nodes[([t] + rest)[x]], values)
  {
    forall x | 0 <= x < |[t] + rest| ensures ([t] + rest)[x] in nodes && ws[x] == WriteOf(nodes[([t] + rest)[x]], values) {
      if x > 0 { assert ([t] + rest)[x] == rest[x - 1]; }
    }
  }

  // ---------- insertion of a new node ----------

  /** The node of a fresh entry before it is linked in. */
  function Fresh(levels: nat, tombstone: byte, k: Key, valIndex: nat): Node {
    Node(levels, tombstone, k, valIndex, seq(levels + 1, _ => 0))
  }

  /** Successor of `a` on level `j` once `s` has been linked in on the levels below `n`. */
  function NextAfter(nodes: Nodes, preds: seq<nat>, s: nat, n: nat, a: nat, j: nat): nat
    requires s in nodes && a in nodes && j < |nodes[a].next| && n <= |preds|
  {
    if j >= n then nodes[a].next[j]
    else if a == s then (if preds[j] in nodes && j < |nodes[preds[j]].next| then nodes[preds[j]].next[j] else 0)
    else if a == preds[j] then s
    else nodes[a].next[j]
  }

  function Relinked(nodes: Nodes, preds: seq<nat>, s: nat, n: nat): Nodes
    requires s in nodes && n <= |preds|
  {
    map a | a in nodes ::
      nodes[a].(next := seq(|nodes[a].next|, j requires 0 <= j < |nodes[a].next| => NextAfter(nodes, preds, s, n, a, j)))
  }

  /** setNext(s, i, getNext(p, i)) followed by setNext(p, i, s). */
  function LinkAt(nodes: Nodes, p: nat, s: nat, i: nat): Nodes
    requires p in nodes && s in nodes && i < |nodes[p].next| && i < |nodes[s].next| && p != s
  {
    var t := nodes[p].next[i];
    nodes[s := nodes[s].(next := nodes[s].next[i := t])][p := nodes[p].(next := nodes[p].next[i := s])]
  }

  lemma LinkAtRelinks(nodes: Nodes, preds: seq<nat>, s: nat, i: nat)
    requires s in nodes && i < |preds| && i < |nodes[s].next|
    requires preds[i] in nodes && preds[i] != s && i < |nodes[preds[i]].next|
    ensures var b := Relinked(nodes, preds, s, i);
            && preds[i] in b && s in b && |b[preds[i]].next| == |nodes[preds[i]].next| && |b[s].next| == |nodes[s].next|
            && LinkAt(b, preds[i], s, i) == Relinked(nodes, preds, s, i + 1)
  {
    var b, c := Relinked(nodes, preds, s, i), Relinked(nodes, preds, s, i + 1);
    var d := LinkAt(b, preds[i], s, i);
    forall a | a in nodes ensures d[a] == c[a] {
      assert d[a].next == c[a].next;
    }
    assert d.Keys == c.Keys;
  }

  lemma RelinkedNone(nodes: Nodes, preds: seq<nat>, s: nat)
    requires s in nodes
    ensures Relinked(nodes, preds, s, 0) == nodes
  {
    var b := Relinked(nodes, preds, s, 0);
    forall a | a in nodes ensures b[a] == nodes[a] { assert b[a].next == nodes[a].next; }
    assert b.Keys == nodes.Keys;
  }

  /** What the insertion of a fresh key starts from. */
  ghost predicate ReadyToInsert(nodes: Nodes, k: Key, preds: seq<nat>, s: nat, node: Node) {
    && Linked(nodes) && s != 0 && s !in nodes && |preds| == MAX_LVL + 1
    && node.key == k && node.levels <= MAX_LVL && |node.next| == node.levels + 1
    && (forall a :: a in nodes && a != 0 ==> nodes[a].key != k)
    && (forall i :: 0 <= i <= MAX_LVL ==> Predecessor(nodes, k, i, preds[i]))
  }

  function Inserted(nodes: Nodes, preds: seq<nat>, s: nat, node: Node): Nodes
    requires |preds| == MAX_LVL + 1 && node.levels <= MAX_LVL
  {
    Relinked(nodes[s := node], preds, s, node.levels + 1)
  }

  lemma InsertedShape(nodes: Nodes, k: Key, preds: seq<nat>, s: nat, node: Node)
    requires ReadyToInsert(nodes, k, preds, s, node)
    ensures var m := Inserted(nodes, preds, s, node);
            && Shaped(m) && DistinctKeys(m) && m.Keys == nodes.Keys + {s}
            && m[s].(next := []) == node.(next := [])
            && forall a :: a in nodes ==> m[a].(next := []) == nodes[a].(next := [])
  {
    hide Less;
    assert Predecessor(nodes, k, 0, preds[0]);
  }

  /** On a level the new node does not reach nothing changes. */
  lemma LevelAbove(nodes: Nodes, k: Key, preds: seq<nat>, s: nat, node: Node, i: nat)
    requires ReadyToInsert(nodes, k, preds, s, node) && node.levels < i <= MAX_LVL
    ensures Shaped(Inserted(nodes, preds, s, node)) && LevelLinked(Inserted(nodes, preds, s, node), i)
  {
    hide Less;
    InsertedShape(nodes, k, preds, s, node);
    var m := Inserted(nodes, preds, s, node);
    assert LevelLinked(nodes, i);
    assert forall b :: On(m, i, b) <==> On(nodes, i, b);
    forall a | a in m && m[a].levels >= i ensures Follows(m, i, a, m[a].next[i]) {
      assert Follows(nodes, i, a, nodes[a].next[i]);
    }
  }

  /** A node other than the predecessor keeps its successor, and the new node is not in between. */
  lemma OthersSkipNew(nodes: Nodes, k: Key, i: nat, p: nat, a: nat)
    requires Linked(nodes) && i <= MAX_LVL && Predecessor(nodes, k, i, p)
    requires a in nodes && nodes[a].levels >= i && a != p && BeforeKey(nodes, a, k)
    ensures var t := nodes[a].next[i]; t != 0 && t in nodes && !Less(k, nodes[t].key)
  {
    hide Less;
    var t := nodes[a].next[i];
    assert LevelLinked(nodes, i);
    assert Follows(nodes, i, a, t);
    LastBefore(nodes, k, i, p, a);
    assert On(nodes, i, p);
    if Less(k, nodes[t].key) { LessTransitive(nodes[p].key, k, nodes[t].key); }
  }

  /** The predecessor comes after every other node whose key is less than `k`. */
  lemma LastBefore(nodes: Nodes, k: Key, i: nat, p: nat, a: nat)
    requires DistinctKeys(nodes) && Predecessor(nodes, k, i, p)
    requires a in nodes && nodes[a].levels >= i && a != p && BeforeKey(nodes, a, k)
    ensures p != 0 && Before(nodes, a, p)
  {
    hide Less;
    if a != 0 {
      assert On(nodes, i, a);
      if p != 0 { LessTotal(nodes[a].key, nodes[p].key); }
    }
  }

  /** Where the pointers of level `i` lead after the insertion. */
  lemma InsertedNext(nodes: Nodes, k: Key, preds: seq<nat>, s: nat, node: Node, a: nat, i: nat)
    requires ReadyToInsert(nodes, k, preds, s, node) && i <= node.levels
    requires a in nodes && nodes[a].levels >= i && a != preds[i]
    ensures var m := Inserted(nodes, preds, s, node); a in m && i < |m[a].next| && m[a].next[i] == nodes[a].next[i]
  {
    hide Less, LevelLinked, Predecessor;
  }

  lemma LevelOfOthers(nodes: Nodes, k: Key, preds: seq<nat>, s: nat, node: Node, i: nat, a: nat)
    requires ReadyToInsert(nodes, k, preds, s, node) && i <= node.levels
    requires a in nodes && nodes[a].levels >= i && a != preds[i]
    ensures var m := Inserted(nodes, preds, s, node);
            Shaped(m) && a in m && m[a].levels >= i && Follows(m, i, a, m[a].next[i])
  {
    hide Less, Inserted;
    InsertedShape(nodes, k, preds, s, node);
    InsertedNext(nodes, k, preds, s, node, a, i);
    var m, t := Inserted(nodes, preds, s, node), nodes[a].next[i];
    assert LevelLinked(nodes, i);
    assert Follows(nodes, i, a, t);
    assert Predecessor(nodes, k, i, preds[i]);
    if BeforeKey(nodes, a, k) { OthersSkipNew(nodes, k, i, preds[i], a); }
    OthersFollow(nodes, m, k, s, node, i, a, t);
  }

  /** A node that does not have the new key between itself and its successor keeps that successor. */
  lemma OthersFollow(nodes: Nodes, m: Nodes, k: Key, s: nat, node: Node, i: nat, a: nat, t: nat)
    requires s !in nodes && s != 0 && m.Keys == nodes.Keys + {s} && m[s].(next := []) == node.(next := []) && node.key == k
    requires forall b :: b in nodes ==> m[b].(next := []) == nodes[b].(next := [])
    requires a in nodes && Follows(nodes, i, a, t) && (t == 0 || t in nodes)
    requires BeforeKey(nodes, a, k) ==> t != 0 && !Less(k, nodes[t].key)
    ensures Follows(m, i, a, t)
  {
    hide Less;
    assert m[s].key == k && m[a].key == nodes[a].key;
    forall b | On(m, i, b) && b != s ensures On(nodes, i, b) && m[b].key == nodes[b].key {
      assert m[b].(next := []) == nodes[b].(next := []);
    }
    if t != 0 { assert m[t].(next := []) == nodes[t].(next := []); }
  }

  lemma LevelOfPredecessor(nodes: Nodes, k: Key, preds: seq<nat>, s: nat, node: Node, i: nat)
    requires ReadyToInsert(nodes, k, preds, s, node) && i <= node.levels
    ensures var m := Inserted(nodes, preds, s, node);
            Shaped(m) && preds[i] in m && m[preds[i]].levels >= i && Follows(m, i, preds[i], m[preds[i]].next[i])
  {
    hide Less;
    InsertedShape(nodes, k, preds, s, node);
    var m, p := Inserted(nodes, preds, s, node), preds[i];
    assert Predecessor(nodes, k, i, p);
    assert m[p].next[i] == s;
    LessIrreflexive(k);
    forall b | On(m, i, b) && Before(m, p, b) ensures !Less(m[b].key, k) {
      if b != s { assert On(nodes, i, b) && Before(nodes, p, b); }
    }
  }

  lemma LevelOfNew(nodes: Nodes, k: Key, preds: seq<nat>, s: nat, node: Node, i: nat)
    requires ReadyToInsert(nodes, k, preds, s, node) && i <= node.levels
    ensures var m := Inserted(nodes, preds, s, node);
            Shaped(m) && s in m && m[s].levels >= i && Follows(m, i, s, m[s].next[i])
  {
    hide Less;
    InsertedShape(nodes, k, preds, s, node);
    var m, p := Inserted(nodes, preds, s, node), preds[i];
    assert Predecessor(nodes, k, i, p);
    var t := nodes[p].next[i];
    assert LevelLinked(nodes, i);
    assert Follows(nodes, i, p, t);
    assert m[s].next[i] == t;
    if t != 0 { LessTotal(nodes[t].key, k); }
    forall b | On(m, i, b) && Before(m, s, b) ensures On(nodes, i, b) && Before(nodes, p, b) {
      LessIrreflexive(k);
      if p != 0 { LessTransitive(nodes[p].key, k, nodes[b].key); }
    }
  }

  /** Insertion with any choice of height keeps every level a sorted list of the level's nodes. */
  lemma InsertedLinked(nodes: Nodes, k: Key, preds: seq<nat>, s: nat, node: Node)
    requires ReadyToInsert(nodes, k, preds, s, node)
    ensures Linked(Inserted(nodes, preds, s, node))
  {
    hide Less, Follows, Predecessor;
    InsertedShape(nodes, k, preds, s, node);
    var m := Inserted(nodes, preds, s, node);
    forall i | 0 <= i <= MAX_LVL ensures LevelLinked(m, i) {
      if i > node.levels {
        LevelAbove(nodes, k, preds, s, node, i);
      } else {
        forall a | a in m && m[a].levels >= i ensures Follows(m, i, a, m[a].next[i]) {
          if a == s { LevelOfNew(nodes, k, preds, s, node, i); }
          else if a == preds[i] { LevelOfPredecessor(nodes, k, preds, s, node, i); }
          else { LevelOfOthers(nodes, k, preds, s, node, i, a); }
        }
      }
    }
  }

  // ---------- update of an existing node ----------

  lemma UpdateKeepsLevel(nodes: Nodes, a: nat, n: Node, i: nat)
    requires Linked(nodes) && a in nodes && i <= MAX_LVL
    requires n.levels == nodes[a].levels && n.key == nodes[a].key && n.next == nodes[a].next
    ensures Shaped(nodes[a := n]) && LevelLinked(nodes[a := n], i)
  {
    hide Less;
    var m := nodes[a := n];
    assert LevelLinked(nodes, i);
    assert forall b :: On(m, i, b) <==> On(nodes, i, b);
    forall x | x in m && m[x].levels >= i ensures Follows(m, i, x, m[x].next[i]) {
      assert Follows(nodes, i, x, nodes[x].next[i]);
    }
  }

  /** Changing what a node holds, but not its key or its pointers, keeps the lists. */
  lemma UpdateKeepsLinked(nodes: Nodes, a: nat, n: Node)
    requires Linked(nodes) && a in nodes
    requires n.levels == nodes[a].levels && n.key == nodes[a].key && n.next == nodes[a].next
    ensures Linked(nodes[a := n])
  {
    hide Less, Follows;
    var m := nodes[a := n];
    UpdateKeepsLevel(nodes, a, n, 0);
    forall i | 0 <= i <= MAX_LVL ensures LevelLinked(m, i) { UpdateKeepsLevel(nodes, a, n, i); }
  }

  // ---------- what the list holds ----------

  /** The value table and the node after a value has been stored for a node. */
  function StoredIndex(n: Node, values: seq<Str>): nat {
    if n.valIndex < |values| then n.valIndex else |values|
  }

  function StoredValues(n: Node, values: seq<Str>, v: Str): seq<Str> {
    if n.valIndex < |values| then values[n.valIndex := v] else values + [v]
  }

  /** Storing a value for one node changes the entry of no other. */
  lemma StoreIsPrivate(nodes: Nodes, values: seq<Str>, invalid: nat, a: nat, v: Str, b: nat)
    requires SlotsOk(nodes, values, invalid) && a in nodes && b in nodes && a != b
    ensures EntryOf(nodes[b], StoredValues(nodes[a], values, v)) == EntryOf(nodes[b], values)
  {
    assert SlotOk(nodes[a], values, invalid) && SlotOk(nodes[b], values, invalid);
  }

  function Updated(n: Node, values: seq<Str>, tombstone: byte): Node {
    n.(tombstone := tombstone, valIndex := if tombstone == 0 then StoredIndex(n, values) else n.valIndex)
  }

  function UpdatedValues(n: Node, values: seq<Str>, tombstone: byte, v: Str): seq<Str> {
    if tombstone == 0 then StoredValues(n, values, v) else values
  }

  lemma UpdateKeepsSlots(nodes: Nodes, values: seq<Str>, invalid: nat, a: nat, tombstone: byte, v: Str)
    requires SlotsOk(nodes, values, invalid) && a in nodes && tombstone <= 1 && |values| < invalid
    ensures SlotsOk(nodes[a := Updated(nodes[a], values, tombstone)], UpdatedValues(nodes[a], values, tombstone, v), invalid)
  {
    var m, w := nodes[a := Updated(nodes[a], values, tombstone)], UpdatedValues(nodes[a], values, tombstone, v);
    assert SlotOk(nodes[a], values, invalid);
    forall b | b in m ensures SlotOk(m[b], w, invalid) { assert SlotOk(nodes[b], values, invalid); }
    forall x, y | x in m && y in m && x != y && m[x].valIndex != invalid ensures m[x].valIndex != m[y].valIndex {
      assert SlotOk(nodes[x], values, invalid) && SlotOk(nodes[y], values, invalid);
    }
  }

  /** The table after an update: the head stands for no key. */
  function UpdatedTable(t: Table, a: nat, n: Node, tombstone: byte, v: Str): Table {
    if a == 0 then t else Put(t, Write(n.key, if tombstone == 0 then Live(v) else Tombstone))
  }

  lemma UpdatedEntry(nodes: Nodes, values: seq<Str>, invalid: nat, t: Table, a: nat, tombstone: byte, v: Str, b: nat)
    requires SlotsOk(nodes, values, invalid) && Holds(nodes, values, t) && DistinctKeys(nodes) && a in nodes && tombstone <= 1
    requires b in nodes && b != 0
    ensures var m := nodes[a := Updated(nodes[a], values, tombstone)];
            var t' := UpdatedTable(t, a, nodes[a], tombstone, v);
            m[b].key in t' && t'[m[b].key] == EntryOf(m[b], UpdatedValues(nodes[a], values, tombstone, v))
  {
    assert SlotOk(nodes[a], values, invalid);
    if b != a { StoreIsPrivate(nodes, values, invalid, a, v, b); }
  }

  /** Updating the node of a key changes exactly that key; updating the head changes nothing. */
  lemma UpdateHolds(nodes: Nodes, values: seq<Str>, invalid: nat, t: Table, a: nat, tombstone: byte, v: Str)
    requires SlotsOk(nodes, values, invalid) && Holds(nodes, values, t) && DistinctKeys(nodes) && a in nodes && tombstone <= 1
    ensures Holds(nodes[a := Updated(nodes[a], values, tombstone)], UpdatedValues(nodes[a], values, tombstone, v),
              UpdatedTable(t, a, nodes[a], tombstone, v))
  {
    hide SlotsOk, DistinctKeys, UpdatedValues;
    var m, t' := nodes[a := Updated(nodes[a], values, tombstone)], UpdatedTable(t, a, nodes[a], tombstone, v);
    forall b | b in m && b != 0
      ensures m[b].key in t' && t'[m[b].key] == EntryOf(m[b], UpdatedValues(nodes[a], values, tombstone, v))
    {
      UpdatedEntry(nodes, values, invalid, t, a, tombstone, v, b);
    }
    forall k | k in t' ensures exists b :: b in m && b != 0 && m[b].key == k {
      if a != 0 && k == nodes[a].key {
        assert m[a].key == k;
      } else {
        var b :| b in nodes && b != 0 && nodes[b].key == k;
        assert m[b].key == k;
      }
    }
  }

  /** A fresh node holds its entry; the nodes already there keep theirs. */
  lemma InsertHolds(nodes: Nodes, values: seq<Str>, more: seq<Str>, t: Table, s: nat, node: Node, m: Nodes, e: Entry)
    requires Holds(nodes, values, t) && s != 0 && s !in nodes && m.Keys == nodes.Keys + {s}
    requires m[s].key == node.key && m[s].tombstone == node.tombstone && m[s].valIndex == node.valIndex
    requires forall a :: a in nodes ==> m[a].(next := []) == nodes[a].(next := [])
    requires forall a :: a in nodes && a != 0 ==> nodes[a].key != node.key
    requires EntryOf(node, more) == e && forall a :: a in nodes ==> EntryOf(nodes[a], more) == EntryOf(nodes[a], values)
    ensures Holds(m, more, Put(t, Write(node.key, e)))
  {
    var t' := Put(t, Write(node.key, e));
    forall b | b in m && b != 0 ensures m[b].key in t' && t'[m[b].key] == EntryOf(m[b], more) {
      if b != s {
        assert m[b].(next := []) == nodes[b].(next := []);
        assert m[b].key == nodes[b].key && EntryOf(m[b], more) == EntryOf(nodes[b], more);
      }
    }
    forall k | k in t' ensures exists b :: b in m && b != 0 && m[b].key == k {
      if k == node.key { assert m[s].key == k; }
      else {
        var b :| b in nodes && b != 0 && nodes[b].key == k;
        assert m[b].(next := []) == nodes[b].(next := []);
        assert m[b].key == k;
      }
    }
  }
}
