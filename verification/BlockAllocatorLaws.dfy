/** What a call of the block allocator promises, and exactly when it keeps the promise. */
module BlockAllocatorLaws {
  import opened Answers
  import opened Bits
  import opened BlockAllocator

  predicate Tracked(geo: Geometry, block: nat) {
    geo.firstData <= block < geo.blocksCount
  }

  predicate Consistent(geo: Geometry, st: State) {
    geo.Valid() && ValidState(geo, st)
  }

  predicate InUse(geo: Geometry, st: State, block: nat)
    requires Consistent(geo, st) && Tracked(geo, block)
  {
    BlockPosition(geo, block);
    st.used[geo.GroupOf(block)][geo.BitOf(block)]
  }

  /** A block has exactly one place in the bitmaps. */
  lemma BlockPosition(geo: Geometry, block: nat)
    requires geo.Valid() && Tracked(geo, block)
    ensures geo.GroupOf(block) < |geo.groups| && geo.BitOf(block) < geo.perGroup
    ensures geo.FirstBlock(geo.GroupOf(block)) + geo.BitOf(block) == block
  {
    hide Hi, Lo;
    SplitDigits(geo.perGroup, block - geo.firstData, |geo.groups|);
  }

  /** Each place in the bitmaps is the place of one block. */
  lemma PositionBlock(geo: Geometry, group: nat, bit: nat)
    requires geo.Valid() && group < |geo.groups| && bit < geo.perGroup
    ensures var block := geo.FirstBlock(group) + bit;
            geo.firstData <= block && geo.GroupOf(block) == group && geo.BitOf(block) == bit
    ensures geo.FirstBlock(group) + bit < 2 * TWO32
  {
    hide Hi, Lo, Join;
    JoinDigits(geo.perGroup, group, bit, |geo.groups|);
    PerGroupBound(geo.perGroup, |geo.groups|, geo.blocksCount - geo.firstData);
    JoinShift(geo.perGroup, group, geo.firstData, bit);
  }

  lemma JoinShift(n: nat, h: nat, a: nat, b: nat)
    ensures Join(n, h, a) + b == Join(n, h, b) + a
    ensures h > 0 ==> Join(n, h, a) == Join(n, h - 1, a) + n
    ensures h == 0 ==> Join(n, h, a) == a
  {
  }

  /** Every group starts inside the volume. */
  lemma GroupStarts(geo: Geometry, group: nat)
    requires geo.Valid() && group < |geo.groups|
    ensures geo.FirstBlock(group) < geo.blocksCount
  {
    MulMono(group, |geo.groups| - 1, geo.perGroup);
  }

  /** No block number of the volume wraps in 64 bits. */
  lemma PlainNumbers(geo: Geometry, group: nat, bit: nat)
    requires geo.Valid() && group < |geo.groups| && bit < geo.perGroup
    ensures U64(bit + geo.FirstBlock(group)) == bit + geo.FirstBlock(group)
  {
    hide Hi, Lo, Join, U64;
    PositionBlock(geo, group, bit);
    U64Fits(bit + geo.FirstBlock(group));
  }

  lemma PerGroupBound(per: nat, groups: nat, blocks: nat)
    requires per > 0 && (groups - 1) * per < blocks
    ensures groups * per < blocks + per
  {
    assert (groups - 1) * per == groups * per - per;
  }

  /** The bits of the last group that stand for no block are set, as is the bit of
      block 0 where the volume has one. */
  predicate Padded(geo: Geometry, st: State)
    requires Consistent(geo, st)
  {
    && (forall g, b :: 0 <= g < |st.used| && 0 <= b < geo.perGroup && geo.blocksCount <= geo.FirstBlock(g) + b
          ==> st.used[g][b])
    && (Tracked(geo, 0) ==> InUse(geo, st, 0))
  }

  /** The bit the search starts from, in its group. */
  function Target(geo: Geometry, goal: nat): (b: nat)
    requires geo.Valid()
    ensures b < geo.perGroup
  {
    TargetInGroup(geo, goal);
    geo.BitOf(geo.Clamp(goal))
  }

  function Next(geo: Geometry, st: State, goal: nat, hasFree: bool, readable: bool): (st': State)
    requires Consistent(geo, st)
    ensures Consistent(geo, st')
  {
    After(geo, st, PlanOf(geo, st, goal, hasFree, readable))
  }

  /** No call takes the state out of order. */
  lemma NextConsistent(geo: Geometry, st: State, goal: nat, hasFree: bool, readable: bool)
    requires Consistent(geo, st) && Padded(geo, st)
    ensures var st' := Next(geo, st, goal, hasFree, readable);
            Consistent(geo, st') && Padded(geo, st')
  {
    hide Covers, Hi, Lo, Join, FirstZero, U16, U64;
    if Tracked(geo, 0) { BlockPosition(geo, 0); }
  }

  /** When the group has a clear bit at or after the goal, a successful call hands out
      a block of the volume that was free, is now in use, is no system block of its
      group, and touches no other block. */
  lemma TakenIsFresh(geo: Geometry, st: State, goal: nat, hasFree: bool, readable: bool)
    requires Consistent(geo, st) && Padded(geo, st)
    requires PlanOf(geo, st, goal, hasFree, readable).outcome == Taken
    requires HasZeroFrom(st.used[PlanOf(geo, st, goal, hasFree, readable).group], Target(geo, goal))
    ensures var p := PlanOf(geo, st, goal, hasFree, readable);
            var st' := Next(geo, st, goal, hasFree, readable);
            && p.block == geo.FirstBlock(p.group) + p.bit && p.num == 1
            && p.block > 0 && Tracked(geo, p.block) && Consistent(geo, st')
            && !InUse(geo, st, p.block)
            && (forall b :: Tracked(geo, b) ==> (InUse(geo, st', b) <==> InUse(geo, st, b) || b == p.block))
            && SystemFree(geo, p.group, p.block)
  {
    hide Covers, Hi, Lo, Join, FirstZero, U16, U64;
    var p := PlanOf(geo, st, goal, hasFree, readable);
    var st' := Next(geo, st, goal, hasFree, readable);
    NextConsistent(geo, st, goal, hasFree, readable);
    PositionBlock(geo, p.group, p.bit);
    PlainNumbers(geo, p.group, p.bit);
    U64Fits(p.block);
    forall b | Tracked(geo, b)
      ensures InUse(geo, st', b) <==> InUse(geo, st, b) || b == p.block
    {
      BlockPosition(geo, b);
    }
  }

  predicate SystemFree(geo: Geometry, group: nat, block: nat)
    requires group < |geo.groups|
  {
    var d := geo.groups[group];
    && block != d.blockBitmap && block != d.inodeBitmap
    && !(d.inodeTable <= block < d.inodeTable + geo.itbPerGroup)
  }

  /** When it has none, a call that reports success has taken nothing: it names the
      last block before the group, whoever owns it, and leaves every count alone. */
  lemma PhantomBlock(geo: Geometry, st: State, goal: nat, hasFree: bool, readable: bool)
    requires Consistent(geo, st)
    requires PlanOf(geo, st, goal, hasFree, readable).outcome == Taken
    requires !HasZeroFrom(st.used[PlanOf(geo, st, goal, hasFree, readable).group], Target(geo, goal))
    ensures var p := PlanOf(geo, st, goal, hasFree, readable);
            && Next(geo, st, goal, hasFree, readable) == st
            && p.block == geo.FirstBlock(p.group) - 1 && p.num == 0
            && (if p.group == 0 then p.block < geo.firstData
                else Tracked(geo, p.block) && geo.GroupOf(p.block) == p.group - 1)
  {
    hide Covers, Hi, Lo, Join, FirstZero, U64, InSystemZone;
    var p := PlanOf(geo, st, goal, hasFree, readable);
    assert p.bit == -1 && p.num == 0;
    PhantomKeepsState(geo, st, p);
    PositionBlock(geo, p.group, 0);
    PhantomNumber(geo.FirstBlock(p.group), geo.blocksCount);
    assert p.block == U64(-1 + geo.FirstBlock(p.group)) && U64(p.block + 0 - 1) < geo.blocksCount;
    JoinShift(geo.perGroup, p.group, geo.firstData, 0);
    if p.group > 0 {
      PositionBlock(geo, p.group - 1, geo.perGroup - 1);
      GroupStarts(geo, p.group);
    }
  }

  /** What 64-bit arithmetic makes of "no bit" in a group that starts at `first`. */
  lemma PhantomNumber(first: nat, blocks: nat)
    requires first < TWO64 && blocks < TWO32
    ensures U64(U64(-1 + first) + 0 - 1) < blocks ==> first >= 2 && U64(-1 + first) == first - 1
  {
    hide U64;
    U64Fits(first - 1);
    U64Fits(U64(first - 1) - 1);
  }

  lemma PhantomKeepsState(geo: Geometry, st: State, p: Plan)
    requires ValidState(geo, st) && p.group < |geo.groups| && p.bit == -1 && p.num == 0
    ensures After(geo, st, p) == st
  {
    U16Fits(st.free[p.group]);
    assert st.free[p.group := st.free[p.group]] == st.free;
  }

  /** A call that reports success has taken the block it names exactly when the goal's group
      has a clear bit at or after the goal, whatever `err` held before the call. */
  lemma SuccessExact(geo: Geometry, st: State, goal: nat, hasFree: bool, readable: bool, count0: nat, err0: int)
    requires Consistent(geo, st) && Padded(geo, st)
    requires Answer(PlanOf(geo, st, goal, hasFree, readable), count0, err0).err == OK
    ensures var p := PlanOf(geo, st, goal, hasFree, readable);
            var st', block := Next(geo, st, goal, hasFree, readable), Answer(p, count0, err0).block;
            && Consistent(geo, st')
            && (HasZeroFrom(st.used[p.group], Target(geo, goal)) <==>
                (Tracked(geo, block) && !InUse(geo, st, block) && InUse(geo, st', block)))
  {
    hide Covers, Hi, Lo, Join, FirstZero, U16, U64, InSystemZone;
    var p := PlanOf(geo, st, goal, hasFree, readable);
    NextConsistent(geo, st, goal, hasFree, readable);
    if p.outcome == OutOfVolume {
      OutOfVolumeIsFull(geo, st, goal, hasFree, readable);
    } else if HasZeroFrom(st.used[p.group], Target(geo, goal)) {
      TakenIsFresh(geo, st, goal, hasFree, readable);
    } else {
      PhantomBlock(geo, st, goal, hasFree, readable);
    }
  }

  /** Where the bits past the end are set, only a search that finds nothing ends outside the
      volume. */
  lemma OutOfVolumeIsFull(geo: Geometry, st: State, goal: nat, hasFree: bool, readable: bool)
    requires Consistent(geo, st) && Padded(geo, st)
    requires PlanOf(geo, st, goal, hasFree, readable).outcome == OutOfVolume
    ensures var p := PlanOf(geo, st, goal, hasFree, readable);
            !HasZeroFrom(st.used[p.group], Target(geo, goal)) && Next(geo, st, goal, hasFree, readable).used == st.used
  {
    hide Covers, Hi, Lo, Join, FirstZero, U16, U64, InSystemZone;
    var p := PlanOf(geo, st, goal, hasFree, readable);
    if 0 <= p.bit {
      PlainNumbers(geo, p.group, p.bit);
      U64Fits(p.block);
    }
  }

  /** The block taken is the first free one after the goal in the goal's group. */
  lemma FirstFreeAfter(geo: Geometry, st: State, prev: nat, hasFree: bool, readable: bool)
    requires Consistent(geo, st) && Padded(geo, st) && Tracked(geo, prev) && InUse(geo, st, prev)
    requires PlanOf(geo, st, prev, hasFree, readable).outcome == Taken
    requires HasZeroFrom(st.used[geo.GroupOf(prev)], geo.BitOf(prev))
    ensures var p := PlanOf(geo, st, prev, hasFree, readable);
            && prev < p.block && geo.GroupOf(p.block) == geo.GroupOf(prev)
            && forall b :: prev <= b < p.block && Tracked(geo, b) ==> InUse(geo, st, b)
  {
    hide Covers, Hi, Lo, Join;
    var p := PlanOf(geo, st, prev, hasFree, readable);
    BlockPosition(geo, prev);
    TakenIsFresh(geo, st, prev, hasFree, readable);
    PositionBlock(geo, p.group, p.bit);
    forall b | prev <= b < p.block && Tracked(geo, b)
      ensures InUse(geo, st, b)
    {
      PositionBlock(geo, p.group, b - geo.FirstBlock(p.group));
    }
  }

  /** Two groups of eight blocks: the goal is the last block of the second group, which
      is in use while block 8 before it is free. The call reports success with block 7,
      in use already. */
  lemma PhantomExample()
    ensures var geo := Geometry(0, 16, 8, 1, [Group(1, 2, 3), Group(9, 10, 11)]);
            var full := [true, true, true, true, true, true, true, true];
            var st := State([full, full[0 := false]], [0, 1], 1);
            && geo.Valid() && ValidState(geo, st)
            && Answer(PlanOf(geo, st, 15, true, true), 1, ENOSPC) == Result(7, 0, OK)
            && st.used[0][7] && Next(geo, st, 15, true, true) == st
  {
    var geo := Geometry(0, 16, 8, 1, [Group(1, 2, 3), Group(9, 10, 11)]);
    var full := [true, true, true, true, true, true, true, true];
    var st := State([full, full[0 := false]], [0, 1], 1);
    assert geo.Clamp(15) == 15 && geo.GroupOf(15) == 1 && geo.BitOf(15) == 7;
    assert FirstZero(st.used[1], 7) == -1;
    assert geo.FirstBlock(1) == 8;
  }

  function AllSet(n: nat): seq<bool> {
    seq(n, _ => true)
  }

  /** A volume of two groups that are full. The first group's count still says one: a call
      whose `err` was 0 before reports success with block 0, which is none of the volume. */
  lemma SilentExample(geo: Geometry, st: State, goal: nat)
    requires geo == Geometry(1, 17, 8, 1, [Group(2, 3, 4), Group(10, 11, 12)]) && goal == 1
    requires st == State([AllSet(8), AllSet(8)], [1, 0], 1)
    ensures Consistent(geo, st) && Padded(geo, st)
    ensures Answer(PlanOf(geo, st, goal, true, true), 1, OK) == Result(0, 1, OK)
    ensures !Tracked(geo, 0) && Next(geo, st, goal, true, true) == st
  {
    hide PlanOf, Padded, Covers, U16, U64, InUse;
    SilentState(geo, st);
    SilentPlan(geo, st, goal);
  }

  lemma SilentPlan(geo: Geometry, st: State, goal: nat)
    requires geo == Geometry(1, 17, 8, 1, [Group(2, 3, 4), Group(10, 11, 12)]) && goal == 1
    requires st == State([AllSet(8), AllSet(8)], [1, 0], 1) && Consistent(geo, st)
    ensures PlanOf(geo, st, goal, true, true) == Plan(0, -1, 0, 0, OutOfVolume)
  {
    hide FirstZero, Covers, Consistent, Lo, Hi, Join, U64, Geometry.GroupOf, Geometry.BitOf, Geometry.FirstBlock,
         InSystemZone;
    SilentNumbers(geo, goal);
    SilentZone(geo);
    var first := geo.FirstBlock(0) - 1;
    U64Fits(first);
    U64Fits(first - 1);
    assert FirstZero(st.used[0], 0) == -1;
  }

  lemma SilentState(geo: Geometry, st: State)
    requires geo == Geometry(1, 17, 8, 1, [Group(2, 3, 4), Group(10, 11, 12)])
    requires st == State([AllSet(8), AllSet(8)], [1, 0], 1)
    ensures Consistent(geo, st) && Padded(geo, st)
  {
  }

  lemma SilentNumbers(geo: Geometry, goal: nat)
    requires geo == Geometry(1, 17, 8, 1, [Group(2, 3, 4), Group(10, 11, 12)]) && goal == 1
    ensures geo.Clamp(goal) == 1 && geo.GroupOf(goal) == 0 && geo.BitOf(goal) == 0 && geo.FirstBlock(0) == 1
  {
  }

  lemma SilentZone(geo: Geometry)
    requires geo == Geometry(1, 17, 8, 1, [Group(2, 3, 4), Group(10, 11, 12)])
    ensures !InSystemZone(geo, 0, 0, 0)
  {
  }
}
