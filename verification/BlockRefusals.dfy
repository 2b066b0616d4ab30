/** Which blocks a call of the block allocator refuses as blocks of the system. */
module BlockRefusals {
  import opened Answers
  import opened Bits
  import opened BlockAllocator
  import opened BlockAllocatorLaws

  /** At most two blocks before a bitmap of the group, or one of the two blocks behind its
      inode table. */
  predicate InMargin(geo: Geometry, group: nat, block: nat)
    requires group < |geo.groups|
  {
    var d := geo.groups[group];
    || block < d.blockBitmap <= block + 2
    || block < d.inodeBitmap <= block + 2
    || d.inodeTable + geo.itbPerGroup <= block < d.inodeTable + geo.itbPerGroup + 2
  }

  /** The clear bit a search has found is refused as the system's exactly when its block is
      one of the system or in the margin. What is refused is "no space", stays marked, and is
      counted nowhere. */
  lemma RefusedExact(geo: Geometry, st: State, goal: nat, hasFree: bool, readable: bool, count0: nat, err0: int)
    requires Consistent(geo, st) && 0 <= PlanOf(geo, st, goal, hasFree, readable).bit
    ensures var p := PlanOf(geo, st, goal, hasFree, readable);
            && p.block == geo.FirstBlock(p.group) + p.bit
            && (p.outcome == System <==> !SystemFree(geo, p.group, p.block) || InMargin(geo, p.group, p.block))
            && (p.outcome == System ==>
                  && Answer(p, count0, err0) == Result(0, count0, ENOSPC) && !st.used[p.group][p.bit]
                  && Next(geo, st, goal, hasFree, readable)
                       == st.(used := st.used[p.group := st.used[p.group][p.bit := true]]))
  {
    hide Covers, Hi, Lo, Join, FirstZero, U16, U64;
    var p := PlanOf(geo, st, goal, hasFree, readable);
    PlainNumbers(geo, p.group, p.bit);
  }

  /** So a block that is none of its group's system is refused exactly when it lies in the
      margin: the range test is two blocks wider than the range. */
  lemma OverreachExact(geo: Geometry, st: State, goal: nat, hasFree: bool, readable: bool)
    requires Consistent(geo, st) && 0 <= PlanOf(geo, st, goal, hasFree, readable).bit
    ensures var p := PlanOf(geo, st, goal, hasFree, readable);
            (p.outcome == System && SystemFree(geo, p.group, p.block)) <==>
            (SystemFree(geo, p.group, p.block) && InMargin(geo, p.group, p.block))
  {
    RefusedExact(geo, st, goal, hasFree, readable, 0, 0);
  }

  /** One of the blocks b and b + 1 is a bitmap of the group, or b lies in its inode table or
      the two blocks behind it. */
  predicate BesideMeta(geo: Geometry, group: nat, b: nat)
    requires group < |geo.groups|
  {
    var d := geo.groups[group];
    || b <= d.blockBitmap <= b + 1
    || b <= d.inodeBitmap <= b + 1
    || d.inodeTable <= b < d.inodeTable + geo.itbPerGroup + 2
  }

  /** What a call answers that comes to a bitmap with no clear bit from the goal on: it looks
      at the block before the group, refuses it where it is beside metadata of the group, finds
      it outside the volume where there is none, and else reports it as taken. */
  lemma FullExact(geo: Geometry, st: State, goal: nat, hasFree: bool, readable: bool)
    requires Consistent(geo, st) && hasFree && readable
    requires var g := PlanOf(geo, st, goal, hasFree, readable).group;
             st.free[g] > 0 && !HasZeroFrom(st.used[g], Target(geo, goal))
    ensures var p := PlanOf(geo, st, goal, hasFree, readable);
            var first := geo.FirstBlock(p.group);
            && Next(geo, st, goal, hasFree, readable) == st
            && (p.outcome == Taken <==> first >= 2 && !BesideMeta(geo, p.group, first - 1))
            && (first >= 1 ==> (p.outcome == System <==> BesideMeta(geo, p.group, first - 1)))
            && (first == 1 ==> (p.outcome == OutOfVolume <==> !BesideMeta(geo, p.group, 0)))
            && (first == 0 ==> (p.outcome == OutOfVolume <==> !InSystemZone(geo, p.group, TWO64 - 1, 0)))
            && p.outcome in {System, OutOfVolume, Taken}
  {
    hide Covers, Hi, Lo, Join, FirstZero;
    var p := PlanOf(geo, st, goal, hasFree, readable);
    assert p.bit == -1 && p.num == 0;
    PhantomKeepsState(geo, st, p);
    GroupStarts(geo, p.group);
    BeforeFirst(geo.FirstBlock(p.group));
    BeforeSecond(geo.FirstBlock(p.group));
  }

  /** The number before a group that starts at `first`, in 64 bits. */
  lemma BeforeFirst(first: nat)
    requires first < TWO32
    ensures U64(-1 + first) == if first == 0 then TWO64 - 1 else first - 1
  {
    U64Fits(first - 1);
  }

  lemma BeforeSecond(first: nat)
    requires first < TWO32
    ensures U64(U64(-1 + first) + 0 - 1)
         == if first == 0 then TWO64 - 2 else if first == 1 then TWO64 - 1 else first - 2
  {
    hide U64;
    BeforeFirst(first);
    if first > 0 { BeforeFirst(first - 1); } else { U64Fits(TWO64 - 2); }
  }

  /** A group of eight blocks with bitmaps and inode table in blocks 0 to 2: block 3 is free
      and none of the system, yet it is refused and stays marked. */
  lemma OverreachExample(geo: Geometry, st: State, goal: nat)
    requires geo == Geometry(0, 8, 8, 1, [Group(0, 1, 2)]) && goal == 3
    requires st == State([[true, true, true, false, false, false, false, false]], [5], 5)
    ensures Consistent(geo, st) && Padded(geo, st) && SystemFree(geo, 0, goal) && !InUse(geo, st, goal)
    ensures Answer(PlanOf(geo, st, goal, true, true), 1, OK) == Result(0, 1, ENOSPC)
    ensures Next(geo, st, goal, true, true) == st.(used := [[true, true, true, true, false, false, false, false]])
  {
    hide FirstZero, Padded, Covers, Hi, Lo, Join, U64, Geometry.GroupOf, Geometry.BitOf, Geometry.FirstBlock;
    OverreachState(geo, st);
    OverreachNumbers(geo, goal);
    U64Fits(3);
    assert !st.used[0][goal];
    assert FirstZero(st.used[0], goal) == 3;
    assert st.used[0][goal := true] == [true, true, true, true, false, false, false, false];
  }

  lemma OverreachState(geo: Geometry, st: State)
    requires geo == Geometry(0, 8, 8, 1, [Group(0, 1, 2)])
    requires st == State([[true, true, true, false, false, false, false, false]], [5], 5)
    ensures Consistent(geo, st) && Padded(geo, st)
  {
  }

  lemma OverreachNumbers(geo: Geometry, goal: nat)
    requires geo == Geometry(0, 8, 8, 1, [Group(0, 1, 2)]) && goal == 3
    ensures geo.Clamp(goal) == 3 && geo.GroupOf(goal) == 0 && geo.BitOf(goal) == 3 && geo.FirstBlock(0) == 0
  {
  }
}
