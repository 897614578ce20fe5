/** The bounded queue as code: a circular buffer, two counting semaphores, a sequence counter. Every method up to
    `Release` is one atomic step of one thread and does what the step of the same name does to the state. */
module RingBuffers {
  import opened Bits
  import opened Bytes
  import opened RingSpec

  lemma SlotsDiffer(n: nat, m: nat, size: nat)
    requires n < m < n + size
    ensures n % size != m % size
  {
    var q, r := n / size, n % size;
    var d := m - n;
    DivMod(n, size);
    DivMod(m, size);
    if m % size == r {
      var e := m / size - q;
      Multiple(m / size, q, size);
      assert d == e * size;
      if e >= 1 { AtLeastOnce(e, size); } else { AtMost(e, size); }
    }
  }

  lemma Multiple(a: int, b: int, size: int)
    ensures (a - b) * size == a * size - b * size
  {
  }

  lemma AtMost(e: int, size: nat)
    requires e < 1
    ensures e * size <= 0
  {
  }

  lemma Advance(n: nat, size: nat)
    requires size > 0
    ensures (n + 1) % size == if n % size + 1 < size then n % size + 1 else 0
  {
    var q, r := n / size, n % size;
    DivMod(n, size);
    DivMod(n + 1, size);
    var e := (n + 1) / size - q;
    Multiple((n + 1) / size, q, size);
    assert e * size == r + 1 - (n + 1) % size;
    if e >= 2 { AtLeastOnce(e - 1, size); Multiple(e, 1, size); }
    if e < 0 { AtMost(e + 1, size); Multiple(e, -1, size); }
    if e == 1 { assert (n + 1) % size == r + 1 - size; }
  }

  lemma OneMoreTaken<T>(s: seq<T>, lo: nat, hi: nat)
    requires lo <= hi < |s|
    ensures s[lo..hi] + [s[hi]] == s[lo..hi + 1]
  {
  }

  /** The slots hold what is put and not yet taken. */
  ghost predicate Holds<T>(slots: seq<Job<T>>, produced: seq<Job<T>>, consumed: nat)
    requires |slots| > 0
  {
    forall n :: consumed <= n < |produced| ==> slots[n % |slots|] == produced[n]
  }

  /** A put into the next slot overwrites nothing unread. */
  lemma HoldsPut<T>(slots: seq<Job<T>>, produced: seq<Job<T>>, consumed: nat, job: Job<T>)
    requires |slots| > 0 && Holds(slots, produced, consumed) && |produced| < consumed + |slots|
    ensures |produced| % |slots| < |slots|
    ensures Holds(slots[|produced| % |slots| := job], produced + [job], consumed)
  {
    var size, p := |slots|, |produced| % |slots|;
    ModBelow(|produced|, size);
    var after := slots[p := job];
    forall n | consumed <= n < |produced| + 1 ensures after[n % |after|] == (produced + [job])[n] {
      if n < |produced| {
        ModBelow(n, size);
        SlotsDiffer(n, |produced|, size);
        assert slots[n % |slots|] == produced[n];
      }
    }
  }

  lemma HoldsTake<T>(slots: seq<Job<T>>, produced: seq<Job<T>>, consumed: nat)
    requires |slots| > 0 && Holds(slots, produced, consumed) && consumed < |produced|
    ensures slots[consumed % |slots|] == produced[consumed] && Holds(slots, produced, consumed + 1)
  {
  }

  /** While a ticket is out, the producer's slot holds nothing unread. */
  lemma PutBounds<T>(r: Ring<T>)
    requires Sound(r) && Enabled(r, Step.Put)
    ensures Ordered(r) && |r.produced| < r.consumed + r.size && r.pending == [r.pending[0]]
    ensures Ordered(Apply(r, Step.Put)) && Batch(Apply(r, Step.Put)) == Batch(r)
  {
    assert (r.produced + r.pending)[r.consumed - r.taken..r.consumed] == r.produced[r.consumed - r.taken..r.consumed];
  }

  lemma TakeBounds<T>(r: Ring<T>)
    requires Sound(r) && r.pc == Holding
    ensures Ordered(r) && r.consumed < |r.produced|
    ensures Ordered(Apply(r, Step.Take)) && Batch(Apply(r, Step.Take)) == Batch(r) + [r.produced[r.consumed]]
  {
    OneMoreTaken(r.produced, r.consumed - r.taken, r.consumed);
  }

  lemma NextIsPlace<T>(r: Ring<T>)
    requires Sound(r) && r.pending == []
    ensures r.next == (|r.produced| + 1) % LIMIT64
  {
  }

  lemma HandOver<T>(r: Ring<T>)
    requires Sound(r) && r.pc == Leaving
    ensures Ordered(r) && r.produced[..r.consumed] == Delivered(r) + Batch(r)
  {
  }

  lemma SingleStep<T>(r: Ring<T>, step: Step<T>)
    ensures ApplyAll(r, [step]) == if Enabled(r, step) then Apply(r, step) else r
  {
    assert [] + [step] == [step];
    ApplyAllSnoc(r, [], step);
  }

  lemma OutsideBounds<T>(r: Ring<T>)
    requires Sound(r) && r.pc == Outside
    ensures r.taken == 0 && r.consumed <= |r.produced| && |r.produced| == r.consumed + r.fullSlots
  {
  }

  lemma DeliveredMore<T>(r: Ring<T>, t: Ring<T>, batch: seq<Job<T>>)
    requires r.taken == t.taken == 0 && r.produced <= t.produced && r.consumed <= |r.produced|
    requires r.consumed <= t.consumed <= |t.produced| && batch == t.produced[r.consumed..t.consumed]
    ensures Ordered(r) && Ordered(t)
    ensures Delivered(t) == Delivered(r) + batch
  {
  }

  lemma LeavingBounds<T>(r: Ring<T>)
    requires Sound(r) && r.pc == Leaving
    ensures Ordered(r) && 0 < r.taken <= (if MaxElems(r.size) > 1 then MaxElems(r.size) else 1)
  {
  }

  class RingBuffer<T(0)> {
    const buffer: array<Job<T>>
    var inPos: nat
    var outPos: nat
    var emptySlots: nat
    var fullSlots: nat
    var sequenceNumber: u64
    var highestReceived: u64

    /** The consumer's batch. */
    var container: seq<Job<T>>
    var taken: nat

    /** Where the threads stand. */
    var tickets: nat
    var pending: seq<Job<T>>
    var pc: ConsumerPc

    /** Everything ever put, in order; how much of it the consumer has taken. */
    ghost var produced: seq<Job<T>>
    ghost var consumed: nat

    ghost function View(): Ring<T>
      reads this
    {
      Ring(buffer.Length, emptySlots, fullSlots, sequenceNumber, highestReceived, produced, tickets, pending, consumed, taken, pc)
    }

    /** The buffer holds what is stored, from the consumer's position to the producers'. */
    ghost predicate Stored()
      reads this, buffer
    {
      && buffer.Length > 0
      && inPos == |produced| % buffer.Length && outPos == consumed % buffer.Length
      && Holds(buffer[..], produced, consumed)
    }

    ghost predicate Valid()
      reads this, buffer
    {
      Sound(View()) && Stored() && container == Batch(View())
    }

    constructor (size: nat)
      requires size > 0
      ensures Valid() && fresh(buffer) && View() == InitRing<T>(size)
    {
      buffer := new Job<T>[size];
      inPos, outPos, emptySlots, fullSlots, sequenceNumber, highestReceived := 0, 0, size, 0, 1, 0;
      container, taken, tickets, pending, pc, produced, consumed := [], 0, 0, [], Outside, [], 0;
    }

    // ---------- a producer ----------

    /** `empty_slots.acquire()`: refused while no slot is free. */
    method AcquireEmpty() returns (ok: bool)
      requires Valid()
      modifies this`emptySlots, this`tickets
      ensures Valid() && ok == Enabled(old(View()), Step.AcquireEmpty)
      ensures View() == if ok then Apply(old(View()), Step.AcquireEmpty) else old(View())
    {
      ok := emptySlots > 0;
      if ok {
        StepKeepsSound(View(), Step.AcquireEmpty);
        emptySlots, tickets := emptySlots - 1, tickets + 1;
      }
    }

    /** With the mutex: the job about to be put gets its number, and the number is announced. */
    method TakeNumber(item: T) returns (number: u64)
      requires Valid() && Enabled(View(), Step.TakeNumber(item))
      modifies this`sequenceNumber, this`highestReceived, this`pending
      ensures Valid() && View() == Apply(old(View()), Step.TakeNumber(item))
      ensures number == highestReceived == (|produced| + 1) % LIMIT64 && pending == [Job(number, item)]
    {
      hide Sound, Holds;
      NextIsPlace(View());
      StepKeepsSound(View(), Step.TakeNumber(item));
      number := sequenceNumber;
      sequenceNumber := (sequenceNumber + 1) % LIMIT64;
      highestReceived := number;
      pending := [Job(number, item)];
    }

    /** Still with the mutex: the job goes into a slot that holds nothing unread. */
    method Put()
      requires Valid() && Enabled(View(), Step.Put)
      modifies this`inPos, this`fullSlots, this`tickets, this`pending, this`produced, buffer
      ensures Valid() && View() == Apply(old(View()), Step.Put)
    {
      hide Sound, Holds, Batch;
      var job := pending[0];
      PutBounds(View());
      StepKeepsSound(View(), Step.Put);
      HoldsPut(buffer[..], produced, consumed, job);
      Advance(|produced|, buffer.Length);
      ghost var after := buffer[..][inPos := job];
      buffer[inPos] := job;
      assert buffer[..] == after;
      inPos := if inPos + 1 < buffer.Length then inPos + 1 else 0;
      fullSlots := fullSlots + 1;
      produced := produced + pending;
      tickets, pending := tickets - 1, [];
    }

    // ---------- the consumer ----------

    /** `full_slots.acquire()` at the start of a batch: refused while nothing is stored. */
    method AcquireFull() returns (ok: bool)
      requires Valid() && pc == Outside
      modifies this`fullSlots, this`pc
      ensures Valid() && ok == Enabled(old(View()), Step.AcquireFull)
      ensures View() == if ok then Apply(old(View()), Step.AcquireFull) else old(View())
      ensures pc == if ok then Holding else Outside
    {
      ok := fullSlots > 0;
      if ok {
        StepKeepsSound(View(), Step.AcquireFull);
        fullSlots, pc := fullSlots - 1, Holding;
      }
    }

    /** Moves the oldest unread job into the batch. */
    method Take()
      requires Valid() && pc == Holding
      modifies this`container, this`outPos, this`taken, this`pc, this`consumed
      ensures Valid() && View() == Apply(old(View()), Step.Take)
      ensures container == old(container) + [produced[old(consumed)]]
      ensures pc == Trying && taken == old(taken) + 1 && consumed == old(consumed) + 1
    {
      hide Sound, Holds, Batch;
      TakeBounds(View());
      StepKeepsSound(View(), Step.Take);
      HoldsTake(buffer[..], produced, consumed);
      Advance(consumed, buffer.Length);
      container := container + [buffer[outPos]];
      outPos := if outPos + 1 < buffer.Length then outPos + 1 else 0;
      taken := taken + 1;
      pc, consumed := Trying, consumed + 1;
    }

    /** `taken < max_elems && full_slots.try_acquire()`. */
    method TryMore() returns (more: bool)
      requires Valid() && pc == Trying
      modifies this`fullSlots, this`pc
      ensures Valid() && View() == Apply(old(View()), Step.TryMore)
      ensures pc == if more then Holding else Leaving
      ensures more <==> taken < MaxElems(buffer.Length) && old(fullSlots) > 0
      ensures fullSlots == old(fullSlots) - if more then 1 else 0
    {
      StepKeepsSound(View(), Step.TryMore);
      more := taken < buffer.Length / 2 && fullSlots > 0;
      if more { fullSlots, pc := fullSlots - 1, Holding; } else { pc := Leaving; }
    }

    /** `empty_slots.release(taken)`; the batch is handed over. */
    method Release() returns (batch: seq<Job<T>>)
      requires Valid() && pc == Leaving
      modifies this`emptySlots, this`taken, this`container, this`pc
      ensures Valid() && View() == Apply(old(View()), Step.Release)
      ensures batch == old(container) && Delivered(View()) == Delivered(old(View())) + batch
      ensures pc == Outside && taken == 0 && |batch| == old(taken) && fullSlots == old(fullSlots)
    {
      hide Sound, Holds;
      StepKeepsSound(View(), Step.Release);
      HandOver(View());
      batch := container;
      emptySlots, taken, container := emptySlots + taken, 0, [];
      pc := Outside;
    }

    // ---------- interleavings ----------

    /** One step of any thread, if it is enabled; the batch a consumer hands over, if it does. */
    method Perform(step: Step<T>) returns (batch: seq<Job<T>>)
      requires Valid()
      modifies this, buffer
      ensures Valid() && View() == ApplyAll(old(View()), [step])
      ensures Ordered(old(View())) && Ordered(View())
      ensures Delivered(View()) == Delivered(old(View())) + batch
    {
      hide Sound, Stored;
      batch := [];
      SingleStep(View(), step);
      Bounds(View());
      if Enabled(View(), step) { StepDelivers(View(), step); }
      match step {
        case AcquireEmpty => var _ := AcquireEmpty();
        case TakeNumber(item) => if tickets > 0 && pending == [] { var _ := TakeNumber(item); }
        case Put => if pending != [] && tickets > 0 { Put(); }
        case AcquireFull => if pc == Outside { var _ := AcquireFull(); }
        case Take => if pc == Holding { Take(); }
        case TryMore => if pc == Trying { var _ := TryMore(); }
        case Release => if pc == Leaving { batch := Release(); }
      }
    }

    /** Every interleaving: the state is that of the steps taken one after the other, and what the consumer
        has got is what the state says was delivered. */
    method Run(schedule: seq<Step<T>>) returns (delivered: seq<Job<T>>)
      requires Valid() && Ordered(View()) && Delivered(View()) == []
      modifies this, buffer
      ensures Ordered(View())
      ensures Valid() && View() == ApplyAll(old(View()), schedule) && delivered == Delivered(View())
    {
      hide Valid, Apply, Enabled, Delivered;
      delivered := [];
      var i := 0;
      while i < |schedule|
        invariant i <= |schedule| && Valid() && Ordered(View())
        invariant View() == ApplyAll(old(View()), schedule[..i]) && delivered == Delivered(View())
      {
        ApplyAllConcat(old(View()), schedule[..i], [schedule[i]]);
        assert schedule[..i] + [schedule[i]] == schedule[..i + 1];
        var batch := Perform(schedule[i]);
        delivered := delivered + batch;
        i := i + 1;
      }
      assert schedule[..i] == schedule;
    }

    /** Any producers taking any of their steps, as far as these are enabled. */
    method ProducersRun(steps: seq<Step<T>>) returns (ghost ran: seq<Step<T>>)
      requires Valid()
      modifies this, buffer
      ensures Valid() && ran == ProducerSteps(steps) && View() == ApplyAll(old(View()), ran)
      ensures consumed == old(consumed) && taken == old(taken) && pc == old(pc) && old(produced) <= produced
    {
      hide Valid, Apply, Enabled, Delivered;
      var producing := ProducerSteps(steps);
      ran := producing;
      var i := 0;
      while i < |producing|
        invariant i <= |producing| && Valid() && View() == ApplyAll(old(View()), producing[..i])
      {
        ApplyAllConcat(old(View()), producing[..i], [producing[i]]);
        assert producing[..i] + [producing[i]] == producing[..i + 1];
        var _ := Perform(producing[i]);
        i := i + 1;
      }
      assert producing[..i] == producing;
      ProducersLeaveConsumer(old(View()), producing);
    }

    /** `consume`, with producers running between its steps: the batch is the next stretch of the queue, and
        empty only if nothing was stored; its last job carries the number of all jobs taken so far. */
    method Consume(others: nat -> seq<Step<T>>) returns (batch: seq<Job<T>>, ghost ran: seq<Step<T>>)
      requires Valid() && pc == Outside
      modifies this, buffer
      ensures Valid() && pc == Outside && View() == ApplyAll(old(View()), ran)
      ensures Ordered(View()) && Ordered(old(View())) && Delivered(View()) == Delivered(old(View())) + batch
      ensures |batch| <= (if MaxElems(buffer.Length) > 1 then MaxElems(buffer.Length) else 1)
      ensures batch == [] ==> |produced| == consumed
      ensures |batch| < MaxElems(buffer.Length) ==> fullSlots == 0
      ensures batch != [] ==> batch[|batch| - 1].number == consumed % LIMIT64
    {
      hide Sound, Stored, Apply, Delivered, Batch, Ordered;
      OutsideBounds(View());
      var more;
      more, ran := BeginBatch(others(0));
      if !more {
        DeliveredMore(old(View()), View(), []);
        return [], ran;
      }
      ghost var rest;
      batch, rest := TakeBatch(others);
      ApplyAllConcat(old(View()), ran, rest);
      ran := ran + rest;
      DeliveredMore(old(View()), View(), batch);
    }

    /** The start of `consume`. */
    method BeginBatch(others: seq<Step<T>>) returns (ok: bool, ghost ran: seq<Step<T>>)
      requires Valid() && pc == Outside
      modifies this, buffer
      ensures Valid() && pc == (if ok then Holding else Outside) && View() == ApplyAll(old(View()), ran)
      ensures taken == old(taken) && consumed == old(consumed) && old(produced) <= produced
      ensures !ok ==> |produced| == consumed && fullSlots == 0
    {
      hide Sound, Stored, Apply;
      ran := ProducersRun(others);
      OutsideBounds(View());
      ApplyAllSnoc(old(View()), ran, Step.AcquireFull);
      ok := AcquireFull();
      if ok { ran := ran + [Step.AcquireFull]; }
    }

    /** The loop of `consume` and its end. */
    method TakeBatch(others: nat -> seq<Step<T>>) returns (batch: seq<Job<T>>, ghost ran: seq<Step<T>>)
      requires Valid() && pc == Holding && taken == 0
      modifies this, buffer
      ensures Valid() && pc == Outside && View() == ApplyAll(old(View()), ran)
      ensures consumed <= |produced| && old(produced) <= produced && taken == 0 && old(consumed) < consumed
      ensures |batch| < MaxElems(buffer.Length) ==> fullSlots == 0
      ensures batch == produced[old(consumed)..consumed] && batch[|batch| - 1].number == consumed % LIMIT64
      ensures |batch| <= (if MaxElems(buffer.Length) > 1 then MaxElems(buffer.Length) else 1)
    {
      hide Sound, Stored, Apply;
      ran := [];
      var more, n := true, 1;
      while more
        invariant Valid() && pc == (if more then Holding else Leaving)
        invariant View() == ApplyAll(old(View()), ran)
        invariant consumed - taken == old(consumed) && old(produced) <= produced
        invariant more ==> taken <= MaxElems(buffer.Length)
        invariant !more ==> taken >= MaxElems(buffer.Length) || fullSlots == 0
        decreases if more then MaxElems(buffer.Length) + 1 - taken else 0
      {
        ghost var section;
        more, section := TakeOne(others(n));
        ApplyAllConcat(old(View()), ran, section);
        ran := ran + section;
        n := n + 1;
      }
      LeavingBounds(View());
      LastNumber(View());
      ApplyAllSnoc(old(View()), ran, Step.Release);
      batch := Release();
      ran := ran + [Step.Release];
    }

    /** One turn of the loop. */
    method TakeOne(others: seq<Step<T>>) returns (more: bool, ghost ran: seq<Step<T>>)
      requires Valid() && pc == Holding
      modifies this, buffer
      ensures Valid() && pc == (if more then Holding else Leaving) && View() == ApplyAll(old(View()), ran)
      ensures taken == old(taken) + 1 && consumed == old(consumed) + 1 && old(produced) <= produced
      ensures more ==> taken < MaxElems(buffer.Length)
      ensures !more ==> taken >= MaxElems(buffer.Length) || fullSlots == 0
    {
      hide Sound, Stored, Apply;
      SingleStep(View(), Step.Take);
      Take();
      ghost var between := ProducersRun(others);
      ran := [Step.Take] + between;
      ApplyAllConcat(old(View()), [Step.Take], between);
      ApplyAllSnoc(old(View()), ran, Step.TryMore);
      more := TryMore();
      ran := ran + [Step.TryMore];
    }
  }
}
