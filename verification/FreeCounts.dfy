/** Conservation of the free-block counts over any run of allocation calls. */
module FreeCounts {
  import opened Bits
  import opened BlockAllocator
  import opened BlockAllocatorLaws

  /** Number of clear bits. */
  function Zeros(bits: seq<bool>): nat {
    if bits == [] then 0 else (if bits[0] then 0 else 1) + Zeros(bits[1..])
  }

  datatype Call = Call(goal: nat, hasFree: bool, readable: bool)

  function Step(geo: Geometry, st: State, c: Call): (st': State)
    requires Consistent(geo, st)
    ensures Consistent(geo, st')
  {
    Next(geo, st, c.goal, c.hasFree, c.readable)
  }

  function Run(geo: Geometry, st: State, calls: seq<Call>): (st': State)
    requires Consistent(geo, st)
    ensures Consistent(geo, st')
    decreases |calls|
  {
    if calls == [] then st else Run(geo, Step(geo, st, calls[0]), calls[1..])
  }

  /** 1 when the call sets a bit of group g and then rejects the block. */
  function Leak(geo: Geometry, st: State, c: Call, g: nat): nat
    requires Consistent(geo, st)
  {
    var p := PlanOf(geo, st, c.goal, c.hasFree, c.readable);
    if p.group == g && 0 <= p.bit && p.outcome in {System, OutOfVolume} then 1 else 0
  }

  function Leaks(geo: Geometry, st: State, calls: seq<Call>, g: nat): nat
    requires Consistent(geo, st)
    decreases |calls|
  {
    if calls == [] then 0
    else Leak(geo, st, calls[0], g) + Leaks(geo, Step(geo, st, calls[0]), calls[1..], g)
  }

  /** How far a group's count exceeds its clear bits. */
  function Excess(st: State, g: nat): int
    requires g < |st.used| == |st.free|
  {
    st.free[g] - Zeros(st.used[g])
  }

  lemma {:induction false} ZerosMark(bits: seq<bool>, i: nat)
    requires i < |bits| && !bits[i]
    ensures Zeros(bits[i := true]) == Zeros(bits) - 1
  {
    if i > 0 {
      assert bits[i := true][1..] == bits[1..][i - 1 := true];
      ZerosMark(bits[1..], i - 1);
    } else {
      assert bits[i := true][1..] == bits[1..];
    }
  }

  lemma {:induction false} SumUpdate(s: seq<nat>, i: nat, v: nat)
    requires i < |s|
    ensures Sum(s[i := v]) == Sum(s) - s[i] + v
  {
    if i > 0 {
      assert s[i := v][1..] == s[1..][i - 1 := v];
      SumUpdate(s[1..], i - 1, v);
    } else {
      assert s[i := v][1..] == s[1..];
    }
  }

  lemma {:induction false} ZerosExact(bits: seq<bool>)
    ensures Zeros(bits) == 0 <==> !HasZeroFrom(bits, 0)
  {
    if bits != [] {
      ZerosExact(bits[1..]);
      assert forall k :: 0 < k < |bits| ==> bits[k] == bits[1..][k - 1];
      if bits[0] && HasZeroFrom(bits, 0) {
        var k :| 0 <= k < |bits| && !bits[k];
        assert !bits[1..][k - 1];
      }
    }
  }

  /** One call of a run. */
  lemma StepKeepsCounts(geo: Geometry, st: State, c: Call, g: nat)
    requires Consistent(geo, st) && g < |geo.groups|
    ensures var st' := Step(geo, st, c);
            && st'.counter - Sum(st'.free) == st.counter - Sum(st.free)
            && Excess(st', g) == Excess(st, g) + Leak(geo, st, c, g)
  {
    hide Covers, Hi, Lo, Join, U16, U64, FirstZero, InSystemZone, Zeros, Sum;
    var p := PlanOf(geo, st, c.goal, c.hasFree, c.readable);
    if 0 <= p.bit {
      ZerosMark(st.used[p.group], p.bit);
    }
    if p.outcome == Taken {
      assert st.free[p.group] > 0;
      U16Fits(st.free[p.group] - p.num);
      SumUpdate(st.free, p.group, st.free[p.group] - p.num);
    }
  }

  /** Over every run, failures included, the global counter moves with the sum of the
      group counts, and a group's count exceeds its clear bits by one more for each
      rejected block, and by nothing else. */
  lemma {:induction false} RunKeepsCounts(geo: Geometry, st: State, calls: seq<Call>, g: nat)
    requires Consistent(geo, st) && g < |geo.groups|
    ensures var st' := Run(geo, st, calls);
            && st'.counter - Sum(st'.free) == st.counter - Sum(st.free)
            && Excess(st', g) == Excess(st, g) + Leaks(geo, st, calls, g)
    decreases |calls|
  {
    if calls != [] {
      StepKeepsCounts(geo, st, calls[0], g);
      RunKeepsCounts(geo, Step(geo, st, calls[0]), calls[1..], g);
    }
  }

  /** After a mount that counts the descriptors, and with descriptors equal to the clear
      bits, a call finds "no space" by count exactly when the goal's group is full and
      no block of the group has been rejected before. */
  lemma NoSpaceExact(geo: Geometry, st: State, calls: seq<Call>, goal: nat, readable: bool)
    requires Consistent(geo, st)
    requires forall g :: 0 <= g < |geo.groups| ==> Excess(st, g) == 0
    ensures var st' := Run(geo, st, calls);
            var p := PlanOf(geo, st', goal, true, readable);
            p.outcome == NoCount <==>
              (!HasZeroFrom(st'.used[p.group], 0) && Leaks(geo, st, calls, p.group) == 0)
  {
    var st' := Run(geo, st, calls);
    var p := PlanOf(geo, st', goal, true, readable);
    RunKeepsCounts(geo, st, calls, p.group);
    ZerosExact(st'.used[p.group]);
  }
}
