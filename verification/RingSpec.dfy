/** The bounded queue between clients and the writer as a state machine: any number of producers, one
    consumer, two counting semaphores. Each step is one atomic section of one thread. */
module RingSpec {
  import opened Bytes

  /** An item of the queue with the number it was given. */
  datatype Job<T> = Job(number: u64, item: T)

  /** Where the consumer stands: outside `consume`, holding a `full_slots` token, about to try for another, or
      about to return its slots. */
  datatype ConsumerPc = Outside | Holding | Trying | Leaving

  /** `produced` and `consumed` are history: everything ever put, in order, and how much of it was taken.
      `tickets` counts the producers between their acquire and their release; `pending` is the job of the one
      that holds the mutex with its number taken. */
  datatype Ring<T> = Ring(
    size: nat,
    emptySlots: nat,
    fullSlots: nat,
    next: u64,
    highest: u64,
    produced: seq<Job<T>>,
    tickets: nat,
    pending: seq<Job<T>>,
    consumed: nat,
    taken: nat,
    pc: ConsumerPc)

  datatype Step<T> =
    | AcquireEmpty | TakeNumber(item: T) | Put
    | AcquireFull | Take | TryMore | Release

  function InitRing<T>(size: nat): Ring<T> {
    Ring(size, size, 0, 1, 0, [], 0, [], 0, 0, Outside)
  }

  /** The most a batch may hold when the consumer tries for another item. */
  function MaxElems(size: nat): nat { size / 2 }

  predicate Enabled<T>(r: Ring<T>, step: Step<T>) {
    match step
    case AcquireEmpty => r.emptySlots > 0
    case TakeNumber(_) => r.tickets > 0 && r.pending == []
    case Put => r.pending != [] && r.tickets > 0
    case AcquireFull => r.pc == Outside && r.fullSlots > 0
    case Take => r.pc == Holding
    case TryMore => r.pc == Trying
    case Release => r.pc == Leaving
  }

  function Apply<T>(r: Ring<T>, step: Step<T>): Ring<T>
    requires Enabled(r, step)
  {
    match step
    case AcquireEmpty => r.(emptySlots := r.emptySlots - 1, tickets := r.tickets + 1)
    case TakeNumber(item) => r.(next := (r.next + 1) % LIMIT64, highest := r.next, pending := [Job(r.next, item)])
    case Put =>
      r.(produced := r.produced + r.pending, pending := [], fullSlots := r.fullSlots + 1, tickets := r.tickets - 1)
    case AcquireFull => r.(fullSlots := r.fullSlots - 1, pc := Holding)
    case Take => r.(consumed := r.consumed + 1, taken := r.taken + 1, pc := Trying)
    case TryMore =>
      if r.taken < MaxElems(r.size) && r.fullSlots > 0 then r.(fullSlots := r.fullSlots - 1, pc := Holding)
      else r.(pc := Leaving)
    case Release => r.(emptySlots := r.emptySlots + r.taken, taken := 0, pc := Outside)
  }

  /** The steps one after the other, those that are not enabled being refused. */
  function ApplyAll<T>(r: Ring<T>, steps: seq<Step<T>>): Ring<T> {
    if steps == [] then r
    else
      var before := ApplyAll(r, steps[..|steps| - 1]);
      if Enabled(before, steps[|steps| - 1]) then Apply(before, steps[|steps| - 1]) else before
  }

  lemma ApplyAllSnoc<T>(r: Ring<T>, steps: seq<Step<T>>, step: Step<T>)
    ensures ApplyAll(r, steps + [step])
         == if Enabled(ApplyAll(r, steps), step) then Apply(ApplyAll(r, steps), step) else ApplyAll(r, steps)
  {
    assert (steps + [step])[..|steps|] == steps;
  }

  lemma {:induction false} ApplyAllConcat<T>(r: Ring<T>, a: seq<Step<T>>, b: seq<Step<T>>)
    ensures ApplyAll(r, a + b) == ApplyAll(ApplyAll(r, a), b)
  {
    hide Apply, Enabled;
    if b == [] {
      assert a + b == a;
    } else {
      ApplyAllConcat(r, a, b[..|b| - 1]);
      assert (a + b)[..|a + b| - 1] == a + b[..|b| - 1];
    }
  }

  predicate Ordered<T>(r: Ring<T>) {
    r.taken <= r.consumed <= |r.produced|
  }

  /** What the consumer has handed over, and the batch in the making. */
  function Delivered<T>(r: Ring<T>): seq<Job<T>>
    requires Ordered(r)
  {
    r.produced[..r.consumed - r.taken]
  }

  function Batch<T>(r: Ring<T>): seq<Job<T>>
    requires Ordered(r)
  {
    r.produced[r.consumed - r.taken..r.consumed]
  }

  // ---------- what every interleaving keeps ----------

  /** Every slot is free, stored, on its way in, or on its way out. */
  ghost predicate Counted<T>(r: Ring<T>) {
    && r.emptySlots + r.fullSlots + r.tickets + r.taken + (if r.pc == Holding then 1 else 0) == r.size
    && |r.produced| == r.consumed + r.fullSlots + (if r.pc == Holding then 1 else 0)
    && |r.pending| <= 1 && (r.pending != [] ==> r.tickets > 0)
    && r.taken <= r.consumed
    && (r.pc == Outside ==> r.taken == 0) && (r.pc == Trying || r.pc == Leaving ==> r.taken > 0)
    && r.taken + (if r.pc == Holding then 1 else 0) <= (if MaxElems(r.size) > 1 then MaxElems(r.size) else 1)
  }

  /** The n-th item carries number n, counted from 1 on 64 bits. */
  ghost predicate Numbered<T>(jobs: seq<Job<T>>) {
    forall n :: 0 <= n < |jobs| ==> jobs[n].number == (n + 1) % LIMIT64
  }

  ghost predicate Sound<T>(r: Ring<T>) {
    && Counted(r) && Numbered(r.produced + r.pending)
    && r.highest == (|r.produced| + |r.pending|) % LIMIT64
    && r.next == (|r.produced| + |r.pending| + 1) % LIMIT64
  }

  lemma InitIsSound<T>(size: nat)
    ensures Sound(InitRing<T>(size))
  {
  }

  lemma NextNumber(n: nat)
    ensures (n % LIMIT64 + 1) % LIMIT64 == (n + 1) % LIMIT64
  {
  }

  lemma StepKeepsSound<T>(r: Ring<T>, step: Step<T>)
    requires Sound(r) && Enabled(r, step)
    ensures Sound(Apply(r, step)) && Grows(r, Apply(r, step))
  {
    var t := Apply(r, step);
    match step {
      case TakeNumber(_) =>
        NextNumber(|r.produced| + 1);
        NumberedMore(r.produced, t.pending[0]);
      case Put => assert t.produced + t.pending == r.produced + r.pending;
      case _ => assert t.produced == r.produced && t.pending == r.pending;
    }
  }

  lemma NumberedMore<T>(jobs: seq<Job<T>>, j: Job<T>)
    requires Numbered(jobs + []) && j.number == (|jobs| + 1) % LIMIT64
    ensures Numbered(jobs + [j])
  {
    assert jobs + [] == jobs;
  }

  /** Nothing put or taken is ever taken back, and the number of slots stays. */
  ghost predicate Grows<T>(r: Ring<T>, t: Ring<T>) {
    r.size == t.size && r.produced <= t.produced && r.consumed <= t.consumed && r.consumed - r.taken <= t.consumed - t.taken
  }

  /** For every interleaving of producers and consumer: all slots are accounted for, and every item carries
      its place in the queue. */
  lemma {:induction false} RunIsSound<T>(r: Ring<T>, steps: seq<Step<T>>)
    requires Sound(r)
    ensures Sound(ApplyAll(r, steps)) && Grows(r, ApplyAll(r, steps))
  {
    hide Sound, Apply, Enabled;
    if steps != [] {
      var n := |steps| - 1;
      RunIsSound(r, steps[..n]);
      var before := ApplyAll(r, steps[..n]);
      if Enabled(before, steps[n]) { StepKeepsSound(before, steps[n]); }
    } else {
      assert Grows(r, r) by { Bounds(r); }
    }
  }

  lemma Bounds<T>(r: Ring<T>)
    requires Sound(r)
    ensures Ordered(r)
  {
  }

  /** What was delivered is numbered 1, 2, 3 and so on, without gap or repetition, and it is followed by the
      batch in the making and by what is still stored. */
  lemma DeliveredInSequence<T>(size: nat, steps: seq<Step<T>>)
    ensures var r := ApplyAll(InitRing<T>(size), steps);
            && Ordered(r)
            && r.produced == Delivered(r) + Batch(r) + r.produced[r.consumed..]
            && |r.produced| - r.consumed <= size
            && forall n :: 0 <= n < |Delivered(r)| ==> Delivered(r)[n].number == (n + 1) % LIMIT64
  {
    InitIsSound<T>(size);
    RunIsSound(InitRing<T>(size), steps);
    var r := ApplyAll(InitRing<T>(size), steps);
    hide ApplyAll;
    Bounds(r);
    forall n | 0 <= n < |Delivered(r)| ensures Delivered(r)[n].number == (n + 1) % LIMIT64 {
      assert (r.produced + r.pending)[n] == Delivered(r)[n];
    }
  }

  /** The items are what the producers handed in, in the order in which they took the mutex. */
  function Handed<T>(r: Ring<T>, steps: seq<Step<T>>): seq<T> {
    if steps == [] then []
    else
      var n := |steps| - 1;
      var before := ApplyAll(r, steps[..n]);
      Handed(r, steps[..n])
      + (if steps[n].TakeNumber? && Enabled(before, steps[n]) then [steps[n].item] else [])
  }

  function Items<T>(jobs: seq<Job<T>>): (s: seq<T>)
    ensures |s| == |jobs| && forall n :: 0 <= n < |jobs| ==> s[n] == jobs[n].item
  {
    seq(|jobs|, n requires 0 <= n < |jobs| => jobs[n].item)
  }

  /** No item is lost, repeated or reordered on its way from the producers into the queue. */
  lemma {:induction false} QueueHoldsHanded<T>(size: nat, steps: seq<Step<T>>)
    ensures var r := ApplyAll(InitRing<T>(size), steps);
            Items(r.produced + r.pending) == Handed(InitRing<T>(size), steps)
  {
    hide Sound;
    var init := InitRing<T>(size);
    if steps != [] {
      var n := |steps| - 1;
      QueueHoldsHanded(size, steps[..n]);
      var before := ApplyAll(init, steps[..n]);
      var after := ApplyAll(init, steps);
      match steps[n] {
        case TakeNumber(item) =>
          if Enabled(before, steps[n]) {
            assert after.produced + after.pending == before.produced + before.pending + [Job(before.next, item)];
          }
        case Put => assert after.produced + after.pending == before.produced + before.pending;
        case _ => assert after.produced + after.pending == before.produced + before.pending;
      }
    }
  }

  /** Only the end of a batch delivers anything, and it delivers the batch. */
  lemma StepDelivers<T>(r: Ring<T>, step: Step<T>)
    requires Sound(r) && Enabled(r, step)
    ensures Ordered(r) && Ordered(Apply(r, step))
    ensures Delivered(Apply(r, step)) == Delivered(r) + (if step == Release then Batch(r) else [])
  {
    hide Sound;
    StepKeepsSound(r, step);
    Bounds(r);
    Bounds(Apply(r, step));
  }

  /** The last job of a batch carries the number of jobs taken so far. */
  lemma LastNumber<T>(r: Ring<T>)
    requires Sound(r) && r.taken > 0
    ensures Ordered(r) && |Batch(r)| == r.taken && Batch(r)[r.taken - 1].number == r.consumed % LIMIT64
  {
    Bounds(r);
    assert Batch(r)[r.taken - 1] == (r.produced + r.pending)[r.consumed - 1];
  }

  // ---------- producers alone ----------

  predicate IsProducer<T>(step: Step<T>) {
    step.AcquireEmpty? || step.TakeNumber? || step.Put?
  }

  function ProducerSteps<T>(steps: seq<Step<T>>): (s: seq<Step<T>>)
    ensures forall n :: 0 <= n < |s| ==> IsProducer(s[n])
  {
    if steps == [] then []
    else ProducerSteps(steps[..|steps| - 1]) + (if IsProducer(steps[|steps| - 1]) then [steps[|steps| - 1]] else [])
  }

  lemma {:induction false} ProducersLeaveConsumer<T>(r: Ring<T>, steps: seq<Step<T>>)
    requires forall n :: 0 <= n < |steps| ==> IsProducer(steps[n])
    ensures var t := ApplyAll(r, steps);
            t.consumed == r.consumed && t.taken == r.taken && t.pc == r.pc && t.size == r.size && r.produced <= t.produced
  {
    if steps != [] { ProducersLeaveConsumer(r, steps[..|steps| - 1]); }
  }
}
