/** Block allocation: one bitmap and one free count a group, and a global counter. */
module BlockAllocator {
  import opened Answers
  import opened Bits

  /** The part of a group descriptor that says where the group keeps its metadata. */
  datatype Group = Group(blockBitmap: nat, inodeBitmap: nat, inodeTable: nat)

  /** This many groups are needed for the blocks, and enough. */
  predicate Covers(groups: nat, perGroup: nat, blocks: nat) {
    (groups - 1) * perGroup < blocks <= groups * perGroup
  }

  datatype Geometry = Geometry(
    firstData: nat, blocksCount: nat, perGroup: nat, itbPerGroup: nat, groups: seq<Group>)
  {
    /** The groups cover the volume, the last one perhaps in part. */
    predicate Valid() {
      && 0 < perGroup < TWO32 && firstData < blocksCount < TWO32
      && Covers(|groups|, perGroup, blocksCount - firstData)
    }

    function FirstBlock(group: nat): nat {
      Join(perGroup, group, firstData)
    }

    /** A goal outside the volume counts as its first block. */
    function Clamp(goal: nat): nat {
      if goal < firstData || blocksCount <= goal then firstData else goal
    }

    function GroupOf(block: nat): nat
      requires perGroup > 0 && firstData <= block
    {
      Hi(block - firstData, perGroup)
    }

    function BitOf(block: nat): nat
      requires perGroup > 0 && firstData <= block
    {
      Lo(block - firstData, perGroup)
    }
  }

  /** used[g][b]: bit b of group g's bitmap; free[g]: the count in its descriptor. */
  datatype State = State(used: seq<seq<bool>>, free: seq<nat>, counter: int)

  predicate ValidState(geo: Geometry, st: State) {
    && |st.used| == |geo.groups| == |st.free|
    && (forall g :: 0 <= g < |st.used| ==> |st.used[g]| == geo.perGroup)
    && (forall g :: 0 <= g < |st.free| ==> st.free[g] < 0x1_0000)
  }

  /** The least clear bit at or after `from`, or -1. */
  function FirstZero(bits: seq<bool>, from: nat): (r: int)
    requires from <= |bits|
    ensures r == -1 || from <= r < |bits|
    ensures r == -1 ==> forall k :: from <= k < |bits| ==> bits[k]
    ensures r >= 0 ==> !bits[r] && forall k :: from <= k < r ==> bits[k]
    decreases |bits| - from
  {
    if from == |bits| then -1
    else if bits[from] then FirstZero(bits, from + 1)
    else from
  }

  predicate HasZeroFrom(bits: seq<bool>, from: nat) {
    exists k :: from <= k < |bits| && !bits[k]
  }

  /** The source's range test; it also accepts the two blocks past the range. */
  predicate InRange(b: int, first: int, len: int) {
    first <= b <= first + len + 1
  }

  predicate InSystemZone(geo: Geometry, group: nat, block: nat, num: nat)
    requires group < |geo.groups|
  {
    var d := geo.groups[group];
    || InRange(d.blockBitmap, block, num)
    || InRange(d.inodeBitmap, block, num)
    || InRange(block, d.inodeTable, geo.itbPerGroup)
  }

  /** What the caller finds in the result and in its `count` and `err`. */
  datatype Result = Result(block: nat, count: nat, err: int)

  /** How a call went, once the group has been chosen. */
  datatype Outcome = Gate | NoCount | Unreadable | System | OutOfVolume | Taken

  /** Everything a call decides, in the order the source decides it. `hasFree` is the
      reserved-block gate, `readable` whether the bitmap could be read. */
  datatype Plan = Plan(group: nat, bit: int, num: nat, block: nat, outcome: Outcome)

  function PlanOf(geo: Geometry, st: State, goal: nat, hasFree: bool, readable: bool): (p: Plan)
    requires geo.Valid() && ValidState(geo, st)
    ensures p.group < |geo.groups| && p.bit < geo.perGroup && p.num <= 1
    ensures p.num == 1 <==> 0 <= p.bit
  {
    TargetInGroup(geo, goal);
    var at := geo.Clamp(goal);
    var group := geo.GroupOf(at);
    if !hasFree then Plan(group, -1, 0, 0, Gate)
    else if st.free[group] == 0 then Plan(group, -1, 0, 0, NoCount)
    else if !readable then Plan(group, -1, 0, 0, Unreadable)
    else
      var bit := FirstZero(st.used[group], geo.BitOf(at));
      var num := if bit < 0 then 0 else 1;
      var block := U64(bit + geo.FirstBlock(group));
      Plan(group, bit, num, block,
           if InSystemZone(geo, group, block, num) then System
           else if geo.blocksCount <= U64(block + num - 1) then OutOfVolume
           else Taken)
  }

  function MarkUsed(used: seq<seq<bool>>, group: nat, bit: int): seq<seq<bool>>
    requires group < |used| && bit < |used[group]|
  {
    if bit < 0 then used else used[group := used[group][bit := true]]
  }

  function After(geo: Geometry, st: State, p: Plan): State
    requires ValidState(geo, st) && p.group < |geo.groups| && p.bit < geo.perGroup
  {
    var used := MarkUsed(st.used, p.group, p.bit);
    if p.outcome == Taken
    then State(used, st.free[p.group := U16(st.free[p.group] - p.num)], st.counter - p.num)
    else st.(used := used)
  }

  /** `count0` and `err0` are what the caller's variables held before the call: the
      rejection for a block outside the volume leaves `err` as it was. */
  function Answer(p: Plan, count0: nat, err0: int): Result {
    match p.outcome
    case Gate => Result(0, count0, ENOSPC)
    case NoCount => Result(0, count0, ENOSPC)
    case Unreadable => Result(0, count0, EIO)
    case System => Result(0, count0, ENOSPC)
    case OutOfVolume => Result(0, count0, err0)
    case Taken => Result(p.block, if p.num < count0 then p.num else count0, OK)
  }

  lemma TargetInGroup(geo: Geometry, goal: nat)
    requires geo.Valid()
    ensures geo.GroupOf(geo.Clamp(goal)) < |geo.groups| && geo.BitOf(geo.Clamp(goal)) < geo.perGroup
    ensures Join(geo.perGroup, geo.GroupOf(geo.Clamp(goal)), geo.BitOf(geo.Clamp(goal)))
         == geo.Clamp(goal) - geo.firstData
  {
    hide Hi, Lo, Join;
    assert Covers(|geo.groups|, geo.perGroup, geo.blocksCount - geo.firstData);
    SplitDigits(geo.perGroup, geo.Clamp(goal) - geo.firstData, |geo.groups|);
  }

  class Allocator {
    const geo: Geometry
    const bitmaps: seq<array<bool>>
    var free: seq<nat>
    var counter: int

    ghost function Used(): seq<seq<bool>>
      reads bitmaps
    {
      seq(|bitmaps|, g requires 0 <= g < |bitmaps| reads bitmaps => bitmaps[g][..])
    }

    ghost function Now(): State
      reads this, bitmaps
    {
      State(Used(), free, counter)
    }

    ghost predicate Valid()
      reads this, bitmaps
    {
      && geo.Valid() && ValidState(geo, Now())
      && forall g, h :: 0 <= g < h < |bitmaps| ==> bitmaps[g] != bitmaps[h]
    }

    /** Mounting: the global counter starts as the sum of the group counts. */
    constructor (geo: Geometry, bitmaps: seq<array<bool>>, free: seq<nat>)
      requires geo.Valid() && |bitmaps| == |geo.groups| == |free|
      requires forall g :: 0 <= g < |bitmaps| ==> bitmaps[g].Length == geo.perGroup && free[g] < 0x1_0000
      requires forall g, h :: 0 <= g < h < |bitmaps| ==> bitmaps[g] != bitmaps[h]
      ensures Valid() && this.geo == geo && this.bitmaps == bitmaps && this.free == free
      ensures counter == Sum(free)
    {
      this.geo, this.bitmaps, this.free, this.counter := geo, bitmaps, free, 0;
      new;
      counter := CountFreeBlocks();
    }

    /** Sets bit `at` and tells whether it was set, in one step. */
    static method TestAndSet(bits: array<bool>, at: nat) returns (was: bool)
      requires at < bits.Length
      modifies bits
      ensures was == old(bits[at]) && bits[..] == old(bits[..])[at := true]
    {
      was := bits[at];
      bits[at] := true;
    }

    /** Takes the least clear bit at or after `goal`, or fails with -1. */
    static method TryToAllocate(bits: array<bool>, goal: nat) returns (bit: int, num: nat)
      requires goal < bits.Length
      modifies bits
      ensures bit == FirstZero(old(bits[..]), goal) && num == (if bit < 0 then 0 else 1)
      ensures bits[..] == if bit < 0 then old(bits[..]) else old(bits[..])[bit := true]
    {
      bit := goal;
      while true
        invariant goal <= bit < bits.Length && bits[..] == old(bits[..])
        invariant FirstZero(old(bits[..]), goal) == FirstZero(old(bits[..]), bit)
        decreases bits.Length - bit
      {
        var was := TestAndSet(bits, bit);
        if !was {
          return bit, 1;
        }
        assert bits[..] == old(bits[..]);
        bit := bit + 1;
        if bits.Length <= bit {
          return -1, 0;
        }
      }
    }

    /** Adds `count` to a group's 16-bit free count. */
    method AdjustGroupBlocks(group: nat, count: int)
      requires group < |free|
      modifies this`free
      ensures free == if count == 0 then old(free) else old(free)[group := U16(old(free)[group] + count)]
    {
      if count != 0 {
        free := free[group := U16(free[group] + count)];
      }
    }

    /** The scan of one group's bitmap, as it changes the bitmaps of all. */
    method Search(group: nat, target: nat) returns (bit: int, num: nat)
      requires Valid() && group < |bitmaps| && target < geo.perGroup
      modifies bitmaps
      ensures bit == FirstZero(old(Used())[group], target) && num == (if bit < 0 then 0 else 1)
      ensures Used() == MarkUsed(old(Used()), group, bit)
    {
      hide FirstZero, Covers;
      ghost var before := Used();
      assert bitmaps[group][..] == before[group] && |before[group]| == geo.perGroup by {
        assert Now().used[group] == before[group];
      }
      bit, num := TryToAllocate(bitmaps[group], target);
      assert forall g :: 0 <= g < |bitmaps| && g != group ==> bitmaps[g][..] == before[g];
    }

    /** One allocation call, with what the gate and the disk answer. */
    method NewBlocks(goal: nat, count0: nat, err0: int, hasFree: bool, readable: bool) returns (r: Result)
      requires Valid()
      modifies this, bitmaps
      ensures Valid()
      ensures Now() == After(geo, old(Now()), PlanOf(geo, old(Now()), goal, hasFree, readable))
      ensures r == Answer(PlanOf(geo, old(Now()), goal, hasFree, readable), count0, err0)
    {
      hide Hi, Lo, Join, U16, U64, FirstZero, InSystemZone, Covers;
      ghost var before := Now();
      TargetInGroup(geo, goal);
      if !hasFree {
        return Result(0, count0, ENOSPC);
      }
      var at := geo.Clamp(goal);
      var group := geo.GroupOf(at);
      if free[group] == 0 {
        return Result(0, count0, ENOSPC);
      }
      if !readable {
        return Result(0, count0, EIO);
      }
      var bit, num := Search(group, geo.BitOf(at));
      var block := U64(bit + geo.FirstBlock(group));
      if InSystemZone(geo, group, block, num) {
        return Result(0, count0, ENOSPC);
      }
      if geo.blocksCount <= U64(block + num - 1) {
        return Result(0, count0, err0);
      }
      U16Fits(free[group]);
      AdjustGroupBlocks(group, -num);
      counter := counter - num;
      r := Result(block, if num < count0 then num else count0, OK);
    }

    /** The sum of the group counts. */
    method CountFreeBlocks() returns (n: nat)
      ensures n == Sum(free)
    {
      n := 0;
      for i := 0 to |free|
        invariant n + Sum(free[i..]) == Sum(free)
      {
        n := n + free[i];
      }
    }
  }

  function Sum(s: seq<nat>): nat {
    if s == [] then 0 else s[0] + Sum(s[1..])
  }
}
