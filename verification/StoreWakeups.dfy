/** No compaction wakeup is lost, and the tables count the flushes in base 4. */
module StoreWakeups {
  import opened StoreModel
  import opened Tiling
  import opened StoreInvariant

  // ---------- wakeups ----------

  /** The parts of the state wakeups depend on. */
  ghost predicate Scheduling(s: State) {
    WellFormed(s) && CompactorInv(s.levels, s.c, s.maxLevel) && WakeInv(s.levels, s.start, s.c, s.f)
  }

  lemma FlusherKeepsWakeups(s: State, step: FlusherStep)
    requires Scheduling(s) && FlusherEnabled(s, step)
    ensures var t := FlusherApply(s, step); WakeInv(t.levels, t.start, t.c, t.f)
  {
    var t := FlusherApply(s, step);
    forall i | 0 <= i < NUM_COMPACTORS ensures WakeOk(t.levels, t.start, t.c, t.f, i) {
      assert WakeOk(s.levels, s.start, s.c, s.f, i);
    }
    forall l | 3 <= l < MAX_LEVEL ensures CascadeOk(t.levels, t.c[2], l) {
      assert CascadeOk(s.levels, s.c[2], l);
    }
  }

  lemma OwnWakeup(s: State, i: nat, step: CompactorStep)
    requires Scheduling(s) && CompactorEnabled(s, i, step)
    ensures var t := CompactorApply(s, i, step); WakeOk(t.levels, t.start, t.c, t.f, i)
  {
    assert WakeOk(s.levels, s.start, s.c, s.f, i);
    assert CompactorOk(s.levels, s.maxLevel, i, s.c[i]);
  }

  lemma NextWakeup(s: State, i: nat, step: CompactorStep)
    requires Scheduling(s) && CompactorEnabled(s, i, step) && i < 2
    ensures var t := CompactorApply(s, i, step); WakeOk(t.levels, t.start, t.c, t.f, i + 1)
  {
    assert WakeOk(s.levels, s.start, s.c, s.f, i + 1);
    assert CompactorOk(s.levels, s.maxLevel, i, s.c[i]);
  }

  lemma OtherWakeup(s: State, i: nat, step: CompactorStep, j: nat)
    requires Scheduling(s) && CompactorEnabled(s, i, step) && j < NUM_COMPACTORS && j != i && j != i + 1
    ensures var t := CompactorApply(s, i, step); WakeOk(t.levels, t.start, t.c, t.f, j)
  {
    assert WakeOk(s.levels, s.start, s.c, s.f, j);
    assert CompactorOk(s.levels, s.maxLevel, i, s.c[i]);
  }

  lemma CascadeKept(s: State, i: nat, step: CompactorStep, l: nat)
    requires Scheduling(s) && CompactorEnabled(s, i, step) && 3 <= l < MAX_LEVEL
    ensures var t := CompactorApply(s, i, step); CascadeOk(t.levels, t.c[2], l)
  {
    assert CascadeOk(s.levels, s.c[2], l);
    assert CompactorOk(s.levels, s.maxLevel, i, s.c[i]);
  }

  lemma CompactorKeepsWakeups(s: State, i: nat, step: CompactorStep)
    requires Scheduling(s) && CompactorEnabled(s, i, step)
    ensures var t := CompactorApply(s, i, step); WakeInv(t.levels, t.start, t.c, t.f)
  {
    var t := CompactorApply(s, i, step);
    forall j | 0 <= j < NUM_COMPACTORS ensures WakeOk(t.levels, t.start, t.c, t.f, j) {
      if j == i { OwnWakeup(s, i, step); }
      else if j == i + 1 { NextWakeup(s, i, step); }
      else { OtherWakeup(s, i, step, j); }
    }
    forall l | 3 <= l < MAX_LEVEL ensures CascadeOk(t.levels, t.c[2], l) { CascadeKept(s, i, step, l); }
  }

  // ---------- base-4 counter ----------

  lemma MergeKeepsWeight(live: seq<seq<Sst>>, l: nat, t: Sst)
    requires |live| == MAX_LEVEL + 1 && l < MAX_LEVEL && COMPACTION_TRIGGER <= |live[l]|
    ensures Weight(AfterMerge(live, l, t)) == Weight(live)
  {
    var b := AfterMerge(live, l, t);
    assert |b[l]| == |live[l]| - 4 && |b[l + 1]| == |live[l + 1]| + 1;
    assert forall q :: 0 <= q < |live| && q != l && q != l + 1 ==> b[q] == live[q];
  }

  lemma PublishRaisesWeight(live: seq<seq<Sst>>, t: Sst)
    requires |live| == MAX_LEVEL + 1
    ensures Weight(live[0 := live[0] + [t]]) == Weight(live) + 1
  {
  }

  /** Digit `l` of `n` in base 4. */
  function Digit(n: nat, l: nat): nat {
    if l == 0 then n % 4 else Digit(n / 4, l - 1)
  }

  function Quotient(n: nat, l: nat): nat {
    if l == 0 then n else Quotient(n / 4, l - 1)
  }

  /** A weighted count whose lower seven digits are below 4 is the base-4 representation. */
  lemma CountIsBase4(live: seq<seq<Sst>>, n: nat)
    requires |live| == MAX_LEVEL + 1 && Weight(live) == n
    requires forall l :: 0 <= l < MAX_LEVEL ==> |live[l]| < 4
    ensures forall l :: 0 <= l < MAX_LEVEL ==> |live[l]| == Digit(n, l)
    ensures |live[7]| == Quotient(n, 7)
  {
    var n7 := |live[7]|;
    var n6 := |live[6]| + 4 * n7;
    var n5 := |live[5]| + 4 * n6;
    var n4 := |live[4]| + 4 * n5;
    var n3 := |live[3]| + 4 * n4;
    var n2 := |live[2]| + 4 * n3;
    var n1 := |live[1]| + 4 * n2;
    assert n == |live[0]| + 4 * n1;
    DigitStep(|live[0]|, n1);
    DigitStep(|live[1]|, n2);
    DigitStep(|live[2]|, n3);
    DigitStep(|live[3]|, n4);
    DigitStep(|live[4]|, n5);
    DigitStep(|live[5]|, n6);
    DigitStep(|live[6]|, n7);
    var ds := [|live[0]|, |live[1]|, |live[2]|, |live[3]|, |live[4]|, |live[5]|, |live[6]|];
    Digits(ds, [n, n1, n2, n3, n4, n5, n6, n7], 0);
    forall l | 0 <= l < MAX_LEVEL ensures |live[l]| == Digit(n, l) {
      assert ds[l] == |live[l]| && Digit(n, l - 0) == ds[l];
    }
  }

  lemma DigitStep(d: nat, q: nat)
    requires d < 4
    ensures (d + 4 * q) % 4 == d && (d + 4 * q) / 4 == q
  {
  }

  /** `qs[j + 1]` is the quotient of `qs[j]` by 4 and `ds[j]` the remainder. */
  lemma {:induction false} Digits(ds: seq<nat>, qs: seq<nat>, j: nat)
    requires |qs| == |ds| + 1 && j <= |ds|
    requires forall i :: 0 <= i < |ds| ==> qs[i] % 4 == ds[i]
    requires forall i, k :: 0 <= i < |ds| && k == i + 1 ==> qs[i] / 4 == qs[k]
    ensures forall i :: j <= i < |ds| ==> Digit(qs[j], i - j) == ds[i]
    ensures Quotient(qs[j], |ds| - j) == qs[|ds|]
    decreases |ds| - j
  {
    if j < |ds| { Digits(ds, qs, j + 1); }
  }
}
