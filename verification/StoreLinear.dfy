/** Linearizability of whole runs: one total order of all calls of `put` and `get` that respects real time and in which
    every answer is the one of a sequential map. */
module StoreLinear {
  import opened Bytes
  import opened Entries
  import opened StoreModel
  import opened StoreInvariant
  import opened StoreMemory
  import opened StoreSafety
  import opened StoreTheorems
  import opened StoreAnswers
  import opened Threads

  /** A call of `put`, named by the number its write got, or of `get`. */
  datatype Call = PutCall(number: nat) | GetCall(r: nat)

  predicate Begun(s: State, a: Call) {
    match a
    case PutCall(n) => 1 <= n <= |s.p.writes|
    case GetCall(r) => r in s.readers
  }

  predicate Ended(s: State, a: Call) {
    match a
    case PutCall(n) => 1 <= n <= s.p.delivered
    case GetCall(r) => r in s.readers && s.readers[r].Done?
  }

  /** At no instant has `b` ended while `a` has not begun: `a` may come before `b`. */
  ghost predicate MayPrecede(states: seq<State>, a: Call, b: Call) {
    forall t :: 0 <= t < |states| && Ended(states[t], b) ==> Begun(states[t], a)
  }

  /** All calls are different, and none comes before one that was over before it began. */
  ghost predicate RespectsTime(states: seq<State>, order: seq<Call>) {
    forall i, j :: 0 <= i < j < |order| ==> order[i] != order[j] && MayPrecede(states, order[i], order[j])
  }

  /** What the calls of `put` among `calls` put, in their order. */
  function PutBy<T>(xs: seq<T>, calls: seq<Call>): seq<T> {
    if calls == [] then []
    else
      var before, a := PutBy(xs, calls[..|calls| - 1]), calls[|calls| - 1];
      if a.PutCall? && 1 <= a.number <= |xs| then before + [xs[a.number - 1]] else before
  }

  // ---------- what a step keeps ----------

  /** Writes are only appended, a call begins after every write of that moment, and an answer is final. */
  ghost predicate Keeps(s: State, t: State, r: nat) {
    && s.p.writes <= t.p.writes && s.p.history <= t.p.history && s.p.inserted <= t.p.inserted
    && (r in s.readers ==> r in t.readers && t.readers[r].key == s.readers[r].key && t.readers[r].target == s.readers[r].target)
    && (r in s.readers && s.readers[r].Done? ==> t.readers[r] == s.readers[r])
    && (r !in s.readers && r in t.readers ==> t.readers[r].Awaiting? && t.readers[r].target == |s.p.writes|)
  }

  lemma StepKeeps(s: State, step: Step, r: nat)
    requires WellFormed(s) && Enabled(s, step)
    ensures Keeps(s, Apply(s, step), r)
  {
    match step {
      case Client(x) => ClientStepKeeps(s, x, r);
      case Writer(_) =>
      case Flusher(_) =>
      case Compactor(_, _) =>
    }
  }

  lemma ClientStepKeeps(s: State, step: ClientStep, r: nat)
    requires WellFormed(s) && ClientEnabled(s, step)
    ensures Keeps(s, ClientApply(s, step), r)
  {
  }

  /** Between two states of a run. */
  ghost predicate Later(s: State, t: State, r: nat) {
    && s.p.writes <= t.p.writes && s.p.history <= t.p.history && s.p.inserted <= t.p.inserted
    && (r in s.readers ==> r in t.readers && t.readers[r].key == s.readers[r].key && t.readers[r].target == s.readers[r].target)
    && (r in s.readers && s.readers[r].Done? ==> t.readers[r] == s.readers[r])
    && (r !in s.readers && r in t.readers ==> |s.p.writes| <= t.readers[r].target)
  }

  lemma {:induction false} RunKeeps(states: seq<State>, steps: seq<Step>, r: nat, i: nat, j: nat)
    requires IsRun(states, steps) && i <= j < |states|
    ensures Later(states[i], states[j], r)
    decreases j
  {
    hide Enabled, Apply;
    if i < j {
      RunKeeps(states, steps, r, i, j - 1);
      assert Next(states[j - 1], steps[j - 1], states[j]);
      StepKeeps(states[j - 1], steps[j - 1], r);
    }
  }

  // ---------- where a get belongs ----------

  /** The place of a finished call of `get`: behind the first `n` writes. */
  ghost predicate Belongs(states: seq<State>, r: nat, n: nat)
    requires states != []
  {
    var last := states[|states| - 1];
    && r in last.readers && last.readers[r].Done? && n <= |last.p.history|
    && Finds(last.readers[r].found, VersionAfter(last.p.history, n, last.readers[r].key))
    && (forall t :: 0 <= t < |states| && Ended(states[t], GetCall(r)) ==> n <= states[t].p.inserted)
    && (forall t :: 0 <= t < |states| && !Begun(states[t], GetCall(r)) ==> |states[t].p.writes| <= n)
  }

  lemma {:induction false} FirstDone(states: seq<State>, steps: seq<Step>, r: nat, j: nat) returns (i: nat)
    requires IsRun(states, steps) && j < |states| && r in states[j].readers && states[j].readers[r].Done?
    ensures i <= j && r in states[i].readers && states[i].readers[r].Done?
    ensures forall t :: 0 <= t < i ==> !Ended(states[t], GetCall(r))
  {
    if t :| 0 <= t < j && Ended(states[t], GetCall(r)) { i := FirstDone(states, steps, r, t); } else { i := j; }
  }

  lemma GetBelongs(states: seq<State>, steps: seq<Step>, r: nat) returns (n: nat)
    requires IsRun(states, steps) && r in states[|steps|].readers && states[|steps|].readers[r].Done?
    ensures Belongs(states, r, n)
  {
    hide Inv, IsRun, SourcesInv, VersionAfter, Finds;
    RunEnds(states, steps);
    var j := FirstDone(states, steps, r, |steps|);
    RunInv(states, steps, j);
    RunSources(states, steps, j);
    n := DoneFinds(states[j], r);
    RunKeeps(states, steps, r, j, |steps|);
    VersionPrefix(states[j].p.history, states[|steps|].p.history, n, states[j].readers[r].key);
    forall t | 0 <= t < |states| && Ended(states[t], GetCall(r)) ensures n <= states[t].p.inserted {
      RunKeeps(states, steps, r, j, t);
    }
    forall t | 0 <= t < |states| && !Begun(states[t], GetCall(r)) ensures |states[t].p.writes| <= n {
      if t >= j { RunKeeps(states, steps, r, j, t); }
      RunKeeps(states, steps, r, t, j);
    }
  }

  /** A place for every finished call of `get`. */
  ghost predicate Places(states: seq<State>, place: map<nat, nat>)
    requires states != []
  {
    && (forall r :: r in place <==> Ended(states[|states| - 1], GetCall(r)))
    && forall r :: r in place ==> Belongs(states, r, place[r])
  }

  lemma SomePlaces(states: seq<State>, steps: seq<Step>) returns (place: map<nat, nat>)
    requires IsRun(states, steps)
    ensures Places(states, place)
  {
    hide Belongs;
    RunEnds(states, steps);
    var last := states[|steps|];
    forall r | Ended(last, GetCall(r)) ensures exists n :: Belongs(states, r, n) { var n := GetBelongs(states, steps, r); }
    place := map r | r in last.readers && Ended(last, GetCall(r)) :: var n :| Belongs(states, r, n); n;
  }

  // ---------- the order ----------

  /** The finished calls of `get` placed behind `n` writes, in the order in which they began during the first `m` steps. */
  function Gets(steps: seq<Step>, place: map<nat, nat>, n: nat, m: nat): seq<Call>
    requires m <= |steps|
  {
    if m == 0 then []
    else
      var before, step := Gets(steps, place, n, m - 1), steps[m - 1];
      if step.Client? && step.client.BeginGet? && step.client.r in place && place[step.client.r] == n
      then before + [GetCall(step.client.r)] else before
  }

  /** The calls placed behind at most `n` writes. */
  function Order(steps: seq<Step>, place: map<nat, nat>, n: nat): seq<Call> {
    if n == 0 then Gets(steps, place, 0, |steps|)
    else Order(steps, place, n - 1) + ([PutCall(n)] + Gets(steps, place, n, |steps|))
  }

  lemma {:induction false} GetsAre(steps: seq<Step>, place: map<nat, nat>, n: nat, m: nat)
    requires m <= |steps|
    ensures forall a :: a in Gets(steps, place, n, m) ==> a.GetCall? && a.r in place && place[a.r] == n
  {
    if m > 0 { GetsAre(steps, place, n, m - 1); }
  }

  lemma {:induction false} OrderIs(steps: seq<Step>, place: map<nat, nat>, n: nat)
    ensures forall a :: a in Order(steps, place, n) ==>
              if a.PutCall? then 1 <= a.number <= n else a.r in place && place[a.r] <= n
  {
    GetsAre(steps, place, n, |steps|);
    if n > 0 { OrderIs(steps, place, n - 1); }
  }

  // ---------- it respects real time ----------

  lemma Joined(states: seq<State>, a: seq<Call>, b: seq<Call>)
    requires RespectsTime(states, a) && RespectsTime(states, b)
    requires forall x, y :: x in a && y in b ==> x != y && MayPrecede(states, x, y)
    ensures RespectsTime(states, a + b)
  {
    hide MayPrecede;
    var c := a + b;
    forall i, j | 0 <= i < j < |c| ensures c[i] != c[j] && MayPrecede(states, c[i], c[j]) {
      if j < |a| { assert c[i] == a[i] && c[j] == a[j]; }
      else if i >= |a| { assert c[i] == b[i - |a|] && c[j] == b[j - |a|]; }
      else { assert a[i] in a && b[j - |a|] in b && c[i] == a[i] && c[j] == b[j - |a|]; }
    }
  }

  /** Calls of `get` that began in this order. */
  lemma EarlierBegin(states: seq<State>, steps: seq<Step>, m: nat, a: nat, b: nat)
    requires IsRun(states, steps) && m < |steps| && a in states[m].readers && b !in states[m].readers
    ensures a != b && MayPrecede(states, GetCall(a), GetCall(b))
  {
    hide Enabled, Apply;
    forall t | 0 <= t < |states| && Ended(states[t], GetCall(b)) ensures Begun(states[t], GetCall(a)) {
      if t <= m { RunKeeps(states, steps, b, t, m); } else { RunKeeps(states, steps, a, m, t); }
    }
  }

  lemma BeginsNow(s: State, r: nat, k: Key, t: State)
    requires Next(s, Client(BeginGet(r, k)), t)
    ensures r !in s.readers && r in t.readers
  {
  }

  lemma {:induction false} GetsInTime(states: seq<State>, steps: seq<Step>, place: map<nat, nat>, n: nat, m: nat)
    requires IsRun(states, steps) && m <= |steps|
    ensures RespectsTime(states, Gets(steps, place, n, m))
    ensures forall a :: a in Gets(steps, place, n, m) ==> a.GetCall? && Begun(states[m], a)
  {
    hide Enabled, Apply, MayPrecede;
    if m > 0 {
      GetsInTime(states, steps, place, n, m - 1);
      var before, step := Gets(steps, place, n, m - 1), steps[m - 1];
      forall a | a in before ensures a.GetCall? && Begun(states[m], a) {
        assert Begun(states[m - 1], a);
        RunKeeps(states, steps, a.r, m - 1, m);
      }
      if step.Client? && step.client.BeginGet? {
        var b := GetCall(step.client.r);
        assert Next(states[m - 1], step, states[m]);
        BeginsNow(states[m - 1], step.client.r, step.client.key, states[m]);
        forall x, y | x in before && y in [b] ensures x != y && MayPrecede(states, x, y) {
          EarlierBegin(states, steps, m - 1, x.r, b.r);
        }
        Joined(states, before, [b]);
      }
    }
  }

  lemma DeliveredBound(states: seq<State>, steps: seq<Step>, t: nat)
    requires IsRun(states, steps) && t < |states|
    ensures states[t].p.inserted <= states[t].p.delivered <= |states[t].p.writes|
  {
    RunInv(states, steps, t);
  }

  /** Places tell which of two calls may come first. */
  lemma PlacedInTime(states: seq<State>, steps: seq<Step>, place: map<nat, nat>, a: Call, b: Call)
    requires IsRun(states, steps) && Places(states, place)
    requires a.PutCall? ==> a.number >= 1
    requires b.PutCall? ==> b.number >= 1
    requires a.GetCall? ==> a.r in place
    requires b.GetCall? ==> b.r in place
    requires var m, n := if a.PutCall? then a.number else place[a.r], if b.PutCall? then b.number else place[b.r];
             m < n || (m == n && a.PutCall? && b.GetCall?)
    ensures a != b && MayPrecede(states, a, b)
  {
    hide IsRun;
    RunEnds(states, steps);
    assert a.GetCall? ==> Belongs(states, a.r, place[a.r]);
    assert b.GetCall? ==> Belongs(states, b.r, place[b.r]);
    forall t | 0 <= t < |states| && Ended(states[t], b) ensures Begun(states[t], a) {
      DeliveredBound(states, steps, t);
    }
  }

  lemma {:induction false} OrderInTime(states: seq<State>, steps: seq<Step>, place: map<nat, nat>, n: nat)
    requires IsRun(states, steps) && Places(states, place)
    ensures RespectsTime(states, Order(steps, place, n))
  {
    hide IsRun, Places, MayPrecede, RespectsTime;
    GetsInTime(states, steps, place, n, |steps|);
    GetsAre(steps, place, n, |steps|);
    if n > 0 {
      OrderInTime(states, steps, place, n - 1);
      OrderIs(steps, place, n - 1);
      var gets := Gets(steps, place, n, |steps|);
      forall x, y | x in [PutCall(n)] && y in gets ensures x != y && MayPrecede(states, x, y) {
        PlacedInTime(states, steps, place, x, y);
      }
      OneCall(states, PutCall(n));
      Joined(states, [PutCall(n)], gets);
      forall x, y | x in Order(steps, place, n - 1) && y in [PutCall(n)] + gets ensures x != y && MayPrecede(states, x, y) {
        PlacedInTime(states, steps, place, x, y);
      }
      Joined(states, Order(steps, place, n - 1), [PutCall(n)] + gets);
    }
  }

  lemma OneCall(states: seq<State>, a: Call)
    ensures RespectsTime(states, [a])
  {
  }

  // ---------- every call is in it ----------

  lemma {:induction false} GetsGrow(steps: seq<Step>, place: map<nat, nat>, n: nat, m: nat, end: nat, a: Call)
    requires m <= end <= |steps| && a in Gets(steps, place, n, m)
    ensures a in Gets(steps, place, n, end)
    decreases end
  {
    if m < end { GetsGrow(steps, place, n, m, end - 1, a); }
  }

  lemma {:induction false} BeganAt(states: seq<State>, steps: seq<Step>, r: nat, t: nat) returns (m: nat)
    requires IsRun(states, steps) && t < |states| && r in states[t].readers
    ensures m < t && steps[m].Client? && steps[m].client.BeginGet? && steps[m].client.r == r
  {
    hide Enabled, Apply;
    if t == 0 {
      assert false;
    } else if r in states[t - 1].readers {
      m := BeganAt(states, steps, r, t - 1);
    } else {
      m := t - 1;
      assert Next(states[m], steps[m], states[t]);
      OnlyBeginAdds(states[m], steps[m], r);
    }
  }

  lemma OnlyBeginAdds(s: State, step: Step, r: nat)
    requires WellFormed(s) && Enabled(s, step) && r !in s.readers && r in Apply(s, step).readers
    ensures step.Client? && step.client.BeginGet? && step.client.r == r
  {
  }

  lemma {:induction false} OrderGrows(steps: seq<Step>, place: map<nat, nat>, n: nat, m: nat, a: Call)
    requires m <= n && ((a == PutCall(m) && m > 0) || a in Gets(steps, place, m, |steps|))
    ensures a in Order(steps, place, n)
  {
    if m < n { OrderGrows(steps, place, n - 1, m, a); }
  }

  lemma GetIsListed(states: seq<State>, steps: seq<Step>, place: map<nat, nat>, r: nat, n: nat)
    requires IsRun(states, steps) && Places(states, place) && r in place && place[r] <= n
    ensures GetCall(r) in Order(steps, place, n)
  {
    hide Belongs, Enabled, Apply;
    var m := BeganAt(states, steps, r, |steps|);
    assert GetCall(r) in Gets(steps, place, place[r], m + 1);
    GetsGrow(steps, place, place[r], m + 1, |steps|, GetCall(r));
    OrderGrows(steps, place, n, place[r], GetCall(r));
  }

  // ---------- every answer is the sequential one ----------

  lemma {:induction false} PutBySplit<T>(xs: seq<T>, a: seq<Call>, b: seq<Call>)
    ensures PutBy(xs, a + b) == PutBy(xs, a) + PutBy(xs, b)
  {
    if b == [] {
      assert a + b == a;
    } else {
      var c := b[..|b| - 1];
      assert (a + b)[..|a + b| - 1] == a + c && (a + b)[|a + b| - 1] == b[|b| - 1];
      PutBySplit(xs, a, c);
    }
  }

  lemma {:induction false} GetsPutNothing<T>(xs: seq<T>, calls: seq<Call>)
    requires forall a :: a in calls ==> a.GetCall?
    ensures PutBy(xs, calls) == []
  {
    if calls != [] {
      var a := calls[|calls| - 1];
      assert a in calls;
      GetsPutNothing(xs, calls[..|calls| - 1]);
    }
  }

  function Upto<T>(xs: seq<T>, n: nat): seq<T> {
    if n <= |xs| then xs[..n] else xs
  }

  lemma OnePut<T>(xs: seq<T>, n: nat)
    ensures Upto(xs, n) + PutBy(xs, [PutCall(n + 1)]) == Upto(xs, n + 1)
  {
    assert [PutCall(n + 1)][..0] == [];
  }

  /** One more put, and calls of `get` behind it. */
  lemma PutNext<T>(xs: seq<T>, before: seq<Call>, n: nat, gets: seq<Call>)
    requires PutBy(xs, before) == Upto(xs, n) && forall a :: a in gets ==> a.GetCall?
    ensures PutBy(xs, before + ([PutCall(n + 1)] + gets)) == Upto(xs, n + 1)
  {
    hide PutBy;
    GetsPutNothing(xs, gets);
    PutBySplit(xs, [PutCall(n + 1)], gets);
    PutBySplit(xs, before, [PutCall(n + 1)] + gets);
    OnePut(xs, n);
  }

  lemma {:induction false} PutByOrder<T>(xs: seq<T>, steps: seq<Step>, place: map<nat, nat>, n: nat)
    ensures PutBy(xs, Order(steps, place, n)) == Upto(xs, n)
  {
    hide PutBy, Gets;
    var gets := Gets(steps, place, n, |steps|);
    GetsAre(steps, place, n, |steps|);
    if n == 0 {
      GetsPutNothing(xs, gets);
    } else {
      PutByOrder(xs, steps, place, n - 1);
      PutNext(xs, Order(steps, place, n - 1), n - 1, gets);
    }
  }

  /** Before a call of `get` come exactly the puts up to its place. */
  lemma {:induction false} PutBefore<T>(xs: seq<T>, steps: seq<Step>, place: map<nat, nat>, n: nat, j: nat)
    requires j < |Order(steps, place, n)|
    requires Order(steps, place, n)[j].GetCall?
    ensures Order(steps, place, n)[j].r in place
    ensures PutBy(xs, Order(steps, place, n)[..j]) == Upto(xs, place[Order(steps, place, n)[j].r])
  {
    hide PutBy, Gets, Upto;
    var all, gets := Order(steps, place, n), Gets(steps, place, n, |steps|);
    GetsAre(steps, place, n, |steps|);
    if n == 0 {
      assert all[j] in gets && forall a :: a in all[..j] ==> a in gets;
      GetsPutNothing(xs, all[..j]);
      NothingPut(xs);
    } else {
      var before := Order(steps, place, n - 1);
      if j < |before| {
        assert all[..j] == before[..j] && all[j] == before[j];
        PutBefore(xs, steps, place, n - 1, j);
      } else {
        BehindPut(before, n, gets, j);
        PutByOrder(xs, steps, place, n - 1);
        PutNext(xs, before, n - 1, gets[..j - |before| - 1]);
      }
    }
  }

  lemma NothingPut<T>(xs: seq<T>)
    ensures Upto(xs, 0) == []
  {
  }

  lemma BehindPut(before: seq<Call>, n: nat, gets: seq<Call>, j: nat)
    requires var all := before + ([PutCall(n)] + gets); |before| <= j < |all| && all[j].GetCall?
    ensures var all, k := before + ([PutCall(n)] + gets), j - |before| - 1;
            && 0 <= k < |gets| && all[j] == gets[k] && gets[k] in gets
            && all[..j] == before + ([PutCall(n)] + gets[..k])
            && forall a :: a in gets[..k] ==> a in gets
  {
  }

  /** At its place in the order a call of `get` answers as a map does to which the puts before it were applied, one after
      the other, except that for a deleted key it may find nothing instead of the tombstone: for every key if lost writes of
      the empty key count as no puts, and for a key that is not empty in any case. */
  ghost predicate AnswersInOrder(last: State, order: seq<Call>) {
    forall j :: 0 <= j < |order| && order[j].GetCall? ==> order[j].r in last.readers && AnswersAt(last, last.readers[order[j].r], order[..j])
  }

  ghost predicate AnswersAt(last: State, g: Reader, before: seq<Call>) {
    && g.Done?
    && Finds(g.found, Lookup(Outcome(PutBy(last.p.history, before)), g.key))
    && (g.key != [] ==> Finds(g.found, Lookup(Replay(PutBy(last.p.writes, before)), g.key)))
  }

  lemma PlaceAnswers(states: seq<State>, steps: seq<Step>, place: map<nat, nat>, n: nat, j: nat)
    requires IsRun(states, steps) && Places(states, place)
    requires j < |Order(steps, place, n)|
    requires Order(steps, place, n)[j].GetCall?
    ensures var order, last := Order(steps, place, n), states[|steps|];
            order[j].r in last.readers && AnswersAt(last, last.readers[order[j].r], order[..j])
  {
    hide Inv, Outcome, Replay, PutBy, Order, Next;
    var order, last := Order(steps, place, n), states[|steps|];
    var r := order[j].r;
    PutBefore(last.p.history, steps, place, n, j);
    PutBefore(last.p.writes, steps, place, n, j);
    RunInv(states, steps, |steps|);
    HistoryHolds(last);
    assert Belongs(states, r, place[r]);
    if last.readers[r].key != [] { VersionOfWrites(last.p, place[r], last.readers[r].key); }
  }

  /** Every run is linearizable. There is one order of all calls of `put` that have got a number and all calls of `get`
      that are finished, each of them once, in which no call comes before one that was over before it began, and in which
      every answer is that of a sequential map: the one left by the puts that come before. */
  lemma RunIsLinearizable(states: seq<State>, steps: seq<Step>) returns (order: seq<Call>)
    requires IsRun(states, steps)
    ensures RespectsTime(states, order)
    ensures forall n :: PutCall(n) in order <==> Begun(states[|steps|], PutCall(n))
    ensures forall r :: GetCall(r) in order <==> Ended(states[|steps|], GetCall(r))
    ensures AnswersInOrder(states[|steps|], order)
  {
    hide Inv, RespectsTime, AnswersAt, Belongs, Next;
    RunEnds(states, steps);
    var last := states[|steps|];
    var place := SomePlaces(states, steps);
    var n := |last.p.writes|;
    order := Order(steps, place, n);
    OrderInTime(states, steps, place, n);
    OrderIs(steps, place, n);
    forall k | 1 <= k <= n ensures PutCall(k) in order { OrderGrows(steps, place, n, k, PutCall(k)); }
    forall r | r in place ensures GetCall(r) in order {
      PlaceBound(states, steps, place, r);
      GetIsListed(states, steps, place, r, n);
    }
    forall j | 0 <= j < |order| && order[j].GetCall?
      ensures order[j].r in last.readers && AnswersAt(last, last.readers[order[j].r], order[..j])
    {
      PlaceAnswers(states, steps, place, n, j);
    }
  }

  lemma PlaceBound(states: seq<State>, steps: seq<Step>, place: map<nat, nat>, r: nat)
    requires IsRun(states, steps) && Places(states, place) && r in place
    ensures place[r] <= |states[|steps|].p.writes|
  {
    hide Inv, Next;
    RunInv(states, steps, |steps|);
    HistoryHolds(states[|steps|]);
    assert Belongs(states, r, place[r]);
  }
}
