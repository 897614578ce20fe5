/** The queue in the place of the protocol's numbering: the store together with the ring buffer through which
    its writes pass. Each step of the ring buffer is a step of the protocol or invisible to it. */
module StoreQueue {
  import opened Bytes
  import opened Entries
  import opened StoreModel
  import opened StoreInvariant
  import opened StoreTheorems
  import opened Threads
  import RingSpec

  const RING_BUFFER_SIZE: nat := 20000

  datatype Joint = Joint(s: State, r: RingSpec.Ring<Write>)

  datatype JointStep = InRing(ring: RingSpec.Step<Write>) | InStore(store: Step)

  /** The protocol's pipeline is what the ring buffer holds: the numbered writes, those stored so far, and those
      handed over to the writer, which is inside `consume` only between its batches. */
  ghost predicate Coupled(j: Joint) {
    && WellFormed(j.s) && RingSpec.Sound(j.r) && j.r.size == RING_BUFFER_SIZE
    && j.s.p.writes == RingSpec.Items(j.r.produced + j.r.pending)
    && j.s.p.delivered == |j.r.produced|
    && j.s.p.taken + j.r.taken == j.r.consumed
    && (j.r.pc != RingSpec.Outside ==> j.s.w == Consuming)
  }

  /** The steps of the protocol that stand for steps of the queue. */
  predicate OfQueue(step: Step) {
    || (step.Client? && (step.client.Reserve? || step.client.Deliver?))
    || (step.Writer? && step.writer.Consume?)
  }

  /** What a step of the ring buffer is to the protocol: a write is numbered, stored, or a batch is handed over. */
  function Visibly(r: RingSpec.Ring<Write>, step: RingSpec.Step<Write>): Option<Step> {
    match step
    case TakeNumber(w) => Some(Client(Reserve(w)))
    case Put => Some(Client(Deliver))
    case Release => Some(Writer(Consume(r.taken)))
    case _ => None
  }

  ghost predicate JointEnabled(j: Joint, step: JointStep)
    requires WellFormed(j.s)
  {
    match step
    case InRing(x) => RingSpec.Enabled(j.r, x) && (x.AcquireFull? ==> j.s.w == Consuming)
    case InStore(x) => Enabled(j.s, x) && !OfQueue(x)
  }

  /** The step of the protocol that a joint step is, if it is one. */
  function StoreStep(j: Joint, step: JointStep): Option<Step> {
    match step
    case InRing(x) => Visibly(j.r, x)
    case InStore(x) => Some(x)
  }

  /** A step of the ring buffer happens there, and in the protocol as what it stands for. */
  ghost predicate JointNext(j: Joint, step: JointStep, k: Joint) {
    && WellFormed(j.s) && JointEnabled(j, step)
    && k.r == (if step.InRing? then RingSpec.Apply(j.r, step.ring) else j.r)
    && match StoreStep(j, step)
       case None => k.s == j.s
       case Some(x) => Enabled(j.s, x) ==> k.s == Apply(j.s, x)
  }

  function JointInit(): Joint {
    Joint(Init, RingSpec.InitRing(RING_BUFFER_SIZE))
  }

  // ---------- every step of the queue is one of the protocol ----------

  lemma CoupledInit()
    ensures Coupled(JointInit())
  {
    RingSpec.InitIsSound<Write>(RING_BUFFER_SIZE);
  }

  /** The protocol never refuses what the queue does: numbers are given one after the other, in the order in
      which the items are stored and taken, and no batch exceeds what a batch may hold. */
  lemma QueueStepIsEnabled(j: Joint, step: RingSpec.Step<Write>)
    requires Coupled(j) && JointEnabled(j, InRing(step))
    ensures Visibly(j.r, step).Some? ==> Enabled(j.s, Visibly(j.r, step).value)
  {
    hide RingSpec.Numbered;
    match step {
      case TakeNumber(_) => assert j.r.produced + j.r.pending == j.r.produced;
      case Release => assert RingSpec.MaxElems(RING_BUFFER_SIZE) == MAX_BATCH;
      case _ =>
    }
  }

  lemma ItemsSnoc(jobs: seq<RingSpec.Job<Write>>, more: RingSpec.Job<Write>)
    ensures RingSpec.Items(jobs + [more]) == RingSpec.Items(jobs) + [more.item]
  {
  }

  lemma QueueStepKeepsCoupled(j: Joint, step: RingSpec.Step<Write>, k: Joint)
    requires Coupled(j) && JointNext(j, InRing(step), k)
    ensures Coupled(k)
  {
    hide RingSpec.Sound, RingSpec.Items;
    QueueStepIsEnabled(j, step);
    RingSpec.StepKeepsSound(j.r, step);
    RingSpec.Bounds(j.r);
    match step {
      case TakeNumber(w) =>
        ItemsSnoc(j.r.produced, RingSpec.Job(j.r.next, w));
        assert j.r.produced + j.r.pending == j.r.produced;
      case Put => assert k.r.produced + k.r.pending == j.r.produced + j.r.pending;
      case _ =>
    }
  }

  lemma StoreStepLeavesQueue(s: State, step: Step)
    requires WellFormed(s) && Enabled(s, step) && !OfQueue(step)
    ensures var t := Apply(s, step);
            && t.p.writes == s.p.writes && t.p.delivered == s.p.delivered && t.p.taken == s.p.taken
            && (s.w == Consuming ==> t.w == Consuming)
  {
  }

  lemma JointStepKeepsCoupled(j: Joint, step: JointStep, k: Joint)
    requires Coupled(j) && JointNext(j, step, k)
    ensures Coupled(k)
    ensures match StoreStep(j, step) case None => k.s == j.s case Some(x) => Next(j.s, x, k.s)
  {
    hide RingSpec.Sound, RingSpec.Items, RingSpec.Apply, RingSpec.Enabled, Apply, Enabled;
    match step {
      case InRing(x) =>
        QueueStepIsEnabled(j, x);
        QueueStepKeepsCoupled(j, x, k);
      case InStore(x) => StoreStepLeavesQueue(j.s, x);
    }
  }

  // ---------- runs of both together ----------

  ghost predicate IsJointRun(js: seq<Joint>, steps: seq<JointStep>) {
    && |js| == |steps| + 1
    && js[0] == JointInit()
    && forall n {:trigger steps[n]} :: 0 <= n < |steps| ==> JointNext(js[n], steps[n], js[n + 1])
  }

  lemma JointRunPrefix(js: seq<Joint>, steps: seq<JointStep>)
    requires IsJointRun(js, steps) && steps != []
    ensures var n := |steps| - 1; IsJointRun(js[..|steps|], steps[..n]) && JointNext(js[n], steps[n], js[|steps|])
  {
    hide JointNext;
    var n := |steps| - 1;
    assert JointNext(js[n], steps[n], js[n + 1]);
    var ps := steps[..n];
    forall m {:trigger ps[m]} | 0 <= m < n ensures JointNext(js[..|steps|][m], ps[m], js[..|steps|][m + 1]) {
      assert JointNext(js[m], steps[m], js[m + 1]);
    }
  }

  /** `at` says which state of the protocol's run each state of the joint run is; it passes over none. */
  ghost predicate Follows(js: seq<Joint>, steps: seq<JointStep>, states: seq<State>, ss: seq<Step>, at: seq<nat>) {
    && |js| == |steps| + 1 == |at| && |states| == |ss| + 1
    && at[0] == 0 && at[|steps|] == |ss|
    && (forall n :: 0 <= n < |at| ==> at[n] <= |ss| && states[at[n]] == js[n].s)
    && (forall n :: 0 <= n < |steps| ==> Advances(js[n], steps[n], at[n], at[n + 1], ss))
  }

  ghost predicate Advances(j: Joint, step: JointStep, here: nat, there: nat, ss: seq<Step>) {
    match StoreStep(j, step)
    case None => there == here
    case Some(x) => there == here + 1 && here < |ss| && ss[here] == x
  }

  /** Every run of the store with its queue is a run of the protocol, step by step. */
  lemma {:induction false} JointRunIsRun(js: seq<Joint>, steps: seq<JointStep>)
      returns (states: seq<State>, ss: seq<Step>, at: seq<nat>)
    requires IsJointRun(js, steps)
    ensures IsRun(states, ss) && Follows(js, steps, states, ss, at) && Coupled(js[|steps|])
    decreases |steps|
  {
    hide Coupled, JointNext, Next, StoreStep;
    if steps == [] {
      states, ss, at := [Init], [], [0];
      CoupledInit();
    } else {
      var n := |steps| - 1;
      JointRunPrefix(js, steps);
      states, ss, at := JointRunIsRun(js[..|steps|], steps[..n]);
      JointStepKeepsCoupled(js[n], steps[n], js[|steps|]);
      match StoreStep(js[n], steps[n]) {
        case None =>
          FollowsIdle(js, steps, states, ss, at);
          at := at + [|ss|];
        case Some(x) =>
          RunGrows(states, ss, x, js[|steps|].s);
          FollowsStep(js, steps, states, ss, at, x);
          states, ss, at := states + [js[|steps|].s], ss + [x], at + [|ss| + 1];
      }
    }
  }

  lemma RunGrows(states: seq<State>, ss: seq<Step>, x: Step, t: State)
    requires IsRun(states, ss) && Next(states[|ss|], x, t)
    ensures IsRun(states + [t], ss + [x])
  {
    hide Next;
    var bs, xs := states + [t], ss + [x];
    forall n {:trigger xs[n]} | 0 <= n < |xs| ensures Next(bs[n], xs[n], bs[n + 1]) {
      if n < |ss| { assert Next(states[n], ss[n], states[n + 1]); }
    }
  }

  lemma FollowsIdle(js: seq<Joint>, steps: seq<JointStep>, states: seq<State>, ss: seq<Step>, at: seq<nat>)
    requires steps != [] && |js| == |steps| + 1
    requires Follows(js[..|steps|], steps[..|steps| - 1], states, ss, at)
    requires StoreStep(js[|steps| - 1], steps[|steps| - 1]).None? && js[|steps|].s == js[|steps| - 1].s
    ensures Follows(js, steps, states, ss, at + [|ss|])
  {
    hide StoreStep;
    var bs, ps, more := js[..|steps|], steps[..|steps| - 1], at + [|ss|];
    assert states[at[|ps|]] == bs[|ps|].s;
    forall n | 0 <= n < |steps| ensures Advances(js[n], steps[n], more[n], more[n + 1], ss) {
      if n < |ps| { assert Advances(bs[n], ps[n], at[n], at[n + 1], ss); }
    }
    forall n | 0 <= n < |more| ensures more[n] <= |ss| && states[more[n]] == js[n].s {
      if n < |at| { assert at[n] <= |ss| && states[at[n]] == bs[n].s; }
    }
  }

  lemma FollowsStep(js: seq<Joint>, steps: seq<JointStep>, states: seq<State>, ss: seq<Step>, at: seq<nat>, x: Step)
    requires steps != [] && |js| == |steps| + 1
    requires Follows(js[..|steps|], steps[..|steps| - 1], states, ss, at)
    requires StoreStep(js[|steps| - 1], steps[|steps| - 1]) == Some(x)
    ensures Follows(js, steps, states + [js[|steps|].s], ss + [x], at + [|ss| + 1])
  {
    hide StoreStep;
    var bs, ps, more := js[..|steps|], steps[..|steps| - 1], at + [|ss| + 1];
    forall n | 0 <= n < |steps| ensures Advances(js[n], steps[n], more[n], more[n + 1], ss + [x]) {
      if n < |ps| { assert Advances(bs[n], ps[n], at[n], at[n + 1], ss); }
    }
    forall n | 0 <= n < |more| ensures more[n] <= |ss| + 1 && (states + [js[|steps|].s])[more[n]] == js[n].s {
      if n < |at| { assert at[n] <= |ss| && states[at[n]] == bs[n].s; }
    }
  }

  // ---------- numbers ----------

  /** The write with number `n` + 1 in the protocol is the item that carries this number in the queue. */
  lemma WritesCarryNumbers(j: Joint, n: nat)
    requires Coupled(j) && n < |j.s.p.writes|
    ensures |j.r.produced + j.r.pending| == |j.s.p.writes|
    ensures (j.r.produced + j.r.pending)[n] == RingSpec.Job((n + 1) % LIMIT64, j.s.p.writes[n])
  {
  }

  /** What `get` waits for is the highest number announced. */
  lemma TargetIsHighest(j: Joint)
    requires Coupled(j)
    ensures j.r.highest == |j.s.p.writes| % LIMIT64
  {
  }

  /** The writer inserts the jobs of its batch one after the other, each with the next number. */
  lemma JobInHand(j: Joint)
    requires Coupled(j) && Inv(j.s) && (j.s.w == NextJob || j.s.w == Inserting) && j.s.p.inserted < j.s.p.taken
    ensures j.s.p.inserted < j.r.consumed <= |j.r.produced| && j.s.p.inserted < |j.s.p.writes|
    ensures j.r.produced[j.s.p.inserted] == RingSpec.Job((j.s.p.inserted + 1) % LIMIT64, j.s.p.writes[j.s.p.inserted])
  {
    hide RingSpec.Sound, RingSpec.Items, Inv;
    RingSpec.Bounds(j.r);
    PipelineHolds(j.s);
    WritesCarryNumbers(j, j.s.p.inserted);
    StoredFirst(j.r, j.s.p.inserted);
  }

  lemma StoredFirst(r: RingSpec.Ring<Write>, n: nat)
    requires n < |r.produced|
    ensures (r.produced + r.pending)[n] == r.produced[n]
  {
  }

  lemma NothingClaimed(r: RingSpec.Ring<Write>)
    requires RingSpec.Sound(r)
    ensures r.pc == RingSpec.Outside ==> r.taken == 0
  {
  }

  lemma PipelineHolds(s: State)
    requires Inv(s)
    ensures PipelineInv(s.p, s.w)
  {
  }

  /** What the writer acknowledges is the number that the last job of its batch carries, and that number is the
      count of all jobs taken. */
  lemma CompleteStoresLastNumber(j: Joint)
    requires Coupled(j) && Inv(j.s) && Enabled(j.s, Writer(Complete))
    ensures 0 < j.s.p.taken <= |j.r.produced| && j.r.taken == 0 && j.r.consumed == j.s.p.taken
    ensures j.r.produced[j.s.p.taken - 1].number == Apply(j.s, Writer(Complete)).p.completed % LIMIT64
  {
    hide RingSpec.Items, RingSpec.Sound, Inv;
    PipelineHolds(j.s);
    RingSpec.Bounds(j.r);
    NothingClaimed(j.r);
    WritesCarryNumbers(j, j.s.p.taken - 1);
    StoredFirst(j.r, j.s.p.taken - 1);
  }

  // ---------- read your writes, end to end ----------

  /** The joint run passes through every state of the protocol's run. */
  lemma {:induction false} Reaches(js: seq<Joint>, steps: seq<JointStep>, states: seq<State>, ss: seq<Step>, at: seq<nat>, i: nat, m: nat)
      returns (n: nat)
    requires Follows(js, steps, states, ss, at) && i <= |steps| && at[i] <= m <= |ss|
    ensures i <= n <= |steps| && at[n] == m
    decreases |steps| - i
  {
    hide StoreStep;
    if at[i] == m || i == |steps| {
      n := i;
    } else {
      assert Advances(js[i], steps[i], at[i], at[i + 1], ss);
      n := Reaches(js, steps, states, ss, at, i + 1, m);
    }
  }

  lemma BeginAdvances(js: seq<Joint>, steps: seq<JointStep>, states: seq<State>, ss: seq<Step>, at: seq<nat>, i: nat, x: Step)
    requires Follows(js, steps, states, ss, at) && i < |steps| && steps[i] == InStore(x)
    ensures at[i] < |ss| && ss[at[i]] == x && at[i + 1] == at[i] + 1 && states[at[i]] == js[i].s && states[|ss|] == js[|steps|].s
  {
    assert Advances(js[i], steps[i], at[i], at[i + 1], ss);
  }

  /** In every run of the store with its queue: a call of `get` that begins when the number `n` + 1 has been given out
      answers with the version of the key at some instant of the call, and at that instant the write that
      carries this number, and every write with a smaller one, has been inserted. */
  lemma ReadYourWrites(js: seq<Joint>, steps: seq<JointStep>, i: nat, r: nat, k: Key, n: nat)
    requires IsJointRun(js, steps) && i < |steps| && steps[i] == InStore(Client(BeginGet(r, k)))
    requires r in js[|steps|].s.readers && js[|steps|].s.readers[r].Done?
    requires n < |js[i].r.produced + js[i].r.pending|
    ensures (js[i].r.produced + js[i].r.pending)[n].number == (n + 1) % LIMIT64
    ensures exists m :: i < m <= |steps| && AnswersCall(js[m].s, k, js[|steps|].s.readers[r].found, n + 1)
  {
    hide Coupled, JointNext, IsRun, AnswersCall, Follows, WasWritten;
    JointRunCoupled(js, steps, i);
    NumberedSoFar(js[i], n);
    var states, ss, at := JointRunIsRun(js, steps);
    BeginAdvances(js, steps, states, ss, at, i, Client(BeginGet(r, k)));
    RunLength(states, ss);
    FollowsLengths(js, steps, states, ss, at);
    AnswerOfGet(states, ss, at[i], r, k, js[i].s);
    var e, target := js[|steps|].s.readers[r].found, |js[i].s.p.writes|;
    var m :| at[i] < m < |states| && AnswersCall(states[m], k, e, target);
    var q := Reaches(js, steps, states, ss, at, i + 1, m);
    StateOf(js, steps, states, ss, at, q);
    AnswersEarlier(js[q].s, k, e, target, n + 1);
  }

  lemma RunLength(states: seq<State>, ss: seq<Step>)
    requires IsRun(states, ss)
    ensures |states| == |ss| + 1
  {
  }

  lemma FollowsLengths(js: seq<Joint>, steps: seq<JointStep>, states: seq<State>, ss: seq<Step>, at: seq<nat>)
    requires Follows(js, steps, states, ss, at)
    ensures |js| == |steps| + 1 == |at| && |states| == |ss| + 1
  {
  }

  lemma StateOf(js: seq<Joint>, steps: seq<JointStep>, states: seq<State>, ss: seq<Step>, at: seq<nat>, q: nat)
    requires Follows(js, steps, states, ss, at) && q <= |steps|
    ensures at[q] < |states| && states[at[q]] == js[q].s
  {
  }

  lemma AnswersEarlier(s: State, k: Key, e: Option<Entry>, target: nat, earlier: nat)
    requires AnswersCall(s, k, e, target) && earlier <= target
    ensures AnswersCall(s, k, e, earlier)
  {
  }

  lemma NumberedSoFar(j: Joint, n: nat)
    requires Coupled(j) && n < |j.r.produced + j.r.pending|
    ensures n < |j.s.p.writes| && (j.r.produced + j.r.pending)[n].number == (n + 1) % LIMIT64
  {
    WritesCarryNumbers(j, n);
  }

  lemma {:induction false} JointRunCoupled(js: seq<Joint>, steps: seq<JointStep>, n: nat)
    requires IsJointRun(js, steps) && n <= |steps|
    ensures Coupled(js[n])
  {
    hide Coupled, JointNext;
    if n == 0 {
      CoupledInit();
    } else {
      JointRunCoupled(js, steps, n - 1);
      assert JointNext(js[n - 1], steps[n - 1], js[n]);
      JointStepKeepsCoupled(js[n - 1], steps[n - 1], js[n]);
    }
  }
}
