/** What a branch allocation will do, told from the bitmaps before it starts: which blocks it
    takes, and whether it succeeds. */
module BranchPlan {
  import opened Answers
  import opened Bits
  import opened BlockAllocator
  import opened BlockAllocatorLaws
  import opened BlockRefusals
  import opened BlockPath
  import opened FileTree
  import opened Branch
  import opened FileMapLaws

  /** The clear bit at or after `from` that has k clear bits before it, or -1. */
  function NthZero(bits: seq<bool>, from: nat, k: nat): (r: int)
    requires from <= |bits|
    ensures r == -1 || (from <= r < |bits| && !bits[r])
    decreases k
  {
    var b := FirstZero(bits, from);
    if b < 0 || k == 0 then b else NthZero(bits, b + 1, k - 1)
  }

  lemma {:induction false} NthSame(bits: seq<bool>, bits': seq<bool>, from: nat, k: nat)
    requires from <= |bits| == |bits'| && forall i :: from <= i < |bits| ==> bits[i] == bits'[i]
    ensures NthZero(bits, from, k) == NthZero(bits', from, k)
    decreases k
  {
    hide FirstZero;
    var b := FirstZero(bits, from);
    if b >= 0 && k > 0 { NthSame(bits, bits', b + 1, k - 1); }
  }

  /** Once the first is taken the others move up. */
  lemma NthAfterTake(bits: seq<bool>, from: nat, k: nat)
    requires from <= |bits| && FirstZero(bits, from) >= 0
    ensures NthZero(bits[FirstZero(bits, from) := true], from, k) == NthZero(bits, from, k + 1)
  {
    hide FirstZero;
    var b := FirstZero(bits, from);
    var bits' := bits[b := true];
    var c, d := FirstZero(bits', from), FirstZero(bits, b + 1);
    if c >= 0 { assert !bits'[c]; }
    if d >= 0 { assert !bits'[d]; }
    assert c == d;
    if c >= 0 && k > 0 { NthSame(bits, bits', c + 1, k - 1); }
  }

  /** The group a goal is in. */
  function GroupFor(geo: Geometry, goal: nat): (g: nat)
    requires geo.Valid()
    ensures g < |geo.groups|
  {
    TargetInGroup(geo, goal);
    geo.GroupOf(geo.Clamp(goal))
  }

  function BitFor(geo: Geometry, st: State, goal: nat, i: nat): (b: int)
    requires Consistent(geo, st)
    ensures b < geo.perGroup
  {
    NthZero(st.used[GroupFor(geo, goal)], Target(geo, goal), i)
  }

  /** The (i+1)-th free block at or after the goal in its group, or 0. */
  function NthBlock(geo: Geometry, st: State, goal: nat, i: nat): nat
    requires Consistent(geo, st)
  {
    var b := BitFor(geo, st, goal, i);
    if b < 0 then 0 else geo.FirstBlock(GroupFor(geo, goal)) + b
  }

  /** The call has a free block left, its group counts one, the bitmap can be read. */
  predicate Passes(geo: Geometry, st: State, goal: nat, e: Env, i: nat)
    requires Consistent(geo, st)
  {
    e.hasFree && i < st.free[GroupFor(geo, goal)] && e.readable
  }

  /** The guards of the call for the (i+1)-th block of a branch: it gets to the bitmap, a
      clear bit is left, and the range test lets its block through. */
  predicate Grantable(geo: Geometry, st: State, goal: nat, e: Env, i: nat)
    requires Consistent(geo, st)
  {
    var g, block := GroupFor(geo, goal), NthBlock(geo, st, goal, i);
    && Passes(geo, st, goal, e, i) && 0 <= BitFor(geo, st, goal, i)
    && SystemFree(geo, g, block) && !InMargin(geo, g, block)
  }

  /** One call takes a block exactly when its guards hold, and then the first free one. */
  lemma GrantExact(geo: Geometry, st: State, goal: nat, e: Env)
    requires Consistent(geo, st) && Padded(geo, st)
    ensures var p := PlanOf(geo, st, goal, e.hasFree, e.readable);
            && p.group == GroupFor(geo, goal)
            && (HasRoom(geo, st, goal, e) <==> !Passes(geo, st, goal, e, 0) || 0 <= BitFor(geo, st, goal, 0))
            && (HasRoom(geo, st, goal, e) && p.outcome == Taken <==> Grantable(geo, st, goal, e, 0))
            && (Grantable(geo, st, goal, e, 0) ==>
                  p.num == 1 && p.bit == BitFor(geo, st, goal, 0) && p.block == NthBlock(geo, st, goal, 0))
  {
    hide Covers, Hi, Lo, Join, FirstZero, U64, InSystemZone, SystemFree, InMargin;
    var p := PlanOf(geo, st, goal, e.hasFree, e.readable);
    if HasRoom(geo, st, goal, e) {
      NoOverrun(geo, st, goal, e);
    }
    if 0 <= p.bit {
      RefusedExact(geo, st, goal, e.hasFree, e.readable, 0, 0);
    }
  }

  /** The group is full from the goal on, and the call reports the block before the group. */
  predicate Phantoms(geo: Geometry, st: State, goal: nat, e: Env)
    requires Consistent(geo, st)
  {
    var g := GroupFor(geo, goal);
    && Passes(geo, st, goal, e, 0) && BitFor(geo, st, goal, 0) < 0
    && geo.FirstBlock(g) >= 2 && !BesideMeta(geo, g, geo.FirstBlock(g) - 1)
  }

  /** The group is full from the goal on, and the volume has no block before the group. */
  predicate Overshoots(geo: Geometry, st: State, goal: nat, e: Env)
    requires Consistent(geo, st)
  {
    var g := GroupFor(geo, goal);
    && Passes(geo, st, goal, e, 0) && BitFor(geo, st, goal, 0) < 0
    && (if geo.FirstBlock(g) == 0 then !InSystemZone(geo, g, TWO64 - 1, 0)
        else geo.FirstBlock(g) == 1 && !BesideMeta(geo, g, 0))
  }

  /** How a call goes, by guards that can be looked at before it. */
  lemma OutcomeExact(geo: Geometry, st: State, goal: nat, e: Env)
    requires Consistent(geo, st) && Padded(geo, st)
    ensures var outcome := PlanOf(geo, st, goal, e.hasFree, e.readable).outcome;
            && (outcome == Taken <==> Grantable(geo, st, goal, e, 0) || Phantoms(geo, st, goal, e))
            && (outcome == OutOfVolume <==> Overshoots(geo, st, goal, e))
            && (outcome in {Gate, NoCount} <==> !e.hasFree || st.free[GroupFor(geo, goal)] == 0)
            && (outcome == Unreadable <==>
                  e.hasFree && st.free[GroupFor(geo, goal)] > 0 && !e.readable)
    ensures Phantoms(geo, st, goal, e) || Overshoots(geo, st, goal, e) ==>
              Next(geo, st, goal, e.hasFree, e.readable) == st
  {
    hide Padded, Covers, Hi, Lo, Join, FirstZero, U64, InSystemZone, SystemFree, InMargin, BesideMeta, HasRoom, After;
    GrantExact(geo, st, goal, e);
    if Passes(geo, st, goal, e, 0) {
      if BitFor(geo, st, goal, 0) < 0 {
        FullExact(geo, st, goal, e.hasFree, e.readable);
      } else {
        NoOverrun(geo, st, goal, e);
      }
    }
  }

  // ----- the whole branch

  /** st' is st with the first k free blocks from the goal on taken. */
  ghost predicate Ahead(geo: Geometry, st: State, goal: nat, k: nat, st': State) {
    && Consistent(geo, st) && Consistent(geo, st') && Padded(geo, st')
    && var g := GroupFor(geo, goal);
       && k <= st.free[g] && st'.free[g] == st.free[g] - k
       && forall i: nat :: BitFor(geo, st', goal, i) == BitFor(geo, st, goal, k + i)
  }

  lemma AheadPlan(geo: Geometry, st: State, goal: nat, k: nat, st': State, e: Env)
    requires Ahead(geo, st, goal, k, st')
    ensures Grantable(geo, st', goal, e, 0) <==> Grantable(geo, st, goal, e, k)
    ensures Passes(geo, st', goal, e, 0) <==> Passes(geo, st, goal, e, k)
    ensures NthBlock(geo, st', goal, 0) == NthBlock(geo, st, goal, k)
    ensures BitFor(geo, st', goal, 0) == BitFor(geo, st, goal, k)
  {
    hide Consistent, Padded, SystemFree, InMargin, GroupFor, BitFor;
    assert BitFor(geo, st', goal, 0) == BitFor(geo, st, goal, k + 0);
  }

  lemma AheadNext(geo: Geometry, st: State, goal: nat, k: nat, st': State, e: Env)
    requires Ahead(geo, st, goal, k, st') && Grantable(geo, st', goal, e, 0)
    ensures Ahead(geo, st, goal, k + 1, Next(geo, st', goal, e.hasFree, e.readable))
  {
    hide Covers, Hi, Lo, Join, FirstZero, U64, U16, InSystemZone, SystemFree, InMargin, Padded, Target, GroupFor,
         PlanOf, NthZero;
    var g, st2 := GroupFor(geo, goal), Next(geo, st', goal, e.hasFree, e.readable);
    GrantExact(geo, st', goal, e);
    NextConsistent(geo, st', goal, e.hasFree, e.readable);
    U16Fits(st'.free[g] - 1);
    var bits, from := st'.used[g], Target(geo, goal);
    NthFirst(bits, from);
    forall i: nat ensures BitFor(geo, st2, goal, i) == BitFor(geo, st, goal, k + 1 + i) {
      NthAfterTake(bits, from, i);
      assert BitFor(geo, st', goal, i + 1) == BitFor(geo, st, goal, k + (i + 1));
    }
  }

  lemma NthFirst(bits: seq<bool>, from: nat)
    requires from <= |bits|
    ensures NthZero(bits, from, 0) == FirstZero(bits, from)
  {
  }

  /** The rounds before the k-th all take their blocks. */
  predicate BranchFits(geo: Geometry, st: State, goal: nat, env: nat -> Env, k: nat)
    requires Consistent(geo, st)
  {
    forall i: nat :: i < k ==> Grantable(geo, st, goal, env(i), i)
  }

  /** Every round that comes to the bitmap finds a clear bit. */
  predicate BranchRoom(geo: Geometry, st: State, goal: nat, env: nat -> Env, k: nat)
    requires Consistent(geo, st)
  {
    forall i: nat :: i < k && BranchFits(geo, st, goal, env, i) && Passes(geo, st, goal, env(i), i) ==>
      0 <= BitFor(geo, st, goal, i)
  }

  lemma FitsNext(geo: Geometry, st: State, goal: nat, env: nat -> Env, k: nat)
    requires Consistent(geo, st)
    ensures BranchFits(geo, st, goal, env, 0) && BranchRoom(geo, st, goal, env, 0)
    ensures BranchFits(geo, st, goal, env, k + 1) <==>
              BranchFits(geo, st, goal, env, k) && Grantable(geo, st, goal, env(k), k)
    ensures BranchRoom(geo, st, goal, env, k + 1) <==>
              BranchRoom(geo, st, goal, env, k)
              && (BranchFits(geo, st, goal, env, k) && Passes(geo, st, goal, env(k), k) ==>
                    0 <= BitFor(geo, st, goal, k))
  {
    hide Consistent, Grantable, Passes, BitFor;
  }

  /** The branch after k rounds is the one the bitmaps tell. */
  ghost predicate Told(job: Job, k: nat, g: Grown)
    requires Consistent(job.geo, job.st)
  {
    && Ahead(job.geo, job.st, job.goal, k, g.st) && |g.news| == k
    && forall i :: 0 <= i < k ==> g.news[i] == NthBlock(job.geo, job.st, job.goal, i)
  }

  /** A branch has room, and is made, exactly as the guards of its rounds say; then its blocks
      are the first free ones from the goal on, in that order. */
  lemma {:induction false} BranchExact(job: Job, upto: nat)
    requires job.Ready() && job.Reach(upto) && Padded(job.geo, job.st)
    ensures Roomy(job, upto) <==> BranchRoom(job.geo, job.st, job.goal, job.env, upto)
    ensures Roomy(job, upto) ==>
              (Build(job, upto).err == OK <==> BranchFits(job.geo, job.st, job.goal, job.env, upto))
    ensures BranchFits(job.geo, job.st, job.goal, job.env, upto) ==>
              Roomy(job, upto) && Told(job, upto, Build(job, upto))
    decreases upto
  {
    hide Consistent, Padded, Shaped, HasRoom, Grantable, Passes, NthBlock, BitFor, Ahead, BranchFits, BranchRoom, Told,
         Grant;
    var k, geo, goal := upto - 1, job.geo, job.goal;
    FitsNext(geo, job.st, goal, job.env, k);
    if upto == 1 {
      AheadStart(geo, job.st, goal);
      RoundExact(geo, job.st, goal, 0, job.st, job.env(0), job.count, job.err);
      if Grantable(geo, job.st, goal, job.env(0), 0) { ToldFirst(job); }
    } else {
      BranchExact(job, k);
      var g := Build(job, k);
      if BranchFits(geo, job.st, goal, job.env, k) {
        ToldAhead(job, k, g);
        RoundExact(geo, job.st, goal, k, g.st, job.env(k), g.count, g.err);
        if Grantable(geo, job.st, goal, job.env(k), k) { ToldNext(job, k); }
      }
    }
  }

  lemma ToldAhead(job: Job, k: nat, g: Grown)
    requires Consistent(job.geo, job.st) && Told(job, k, g)
    ensures Ahead(job.geo, job.st, job.goal, k, g.st)
  {
  }

  lemma ToldFirst(job: Job)
    requires job.Ready()
    requires var (st', a) := Grant(job.geo, job.st, job.goal, job.env(0), job.count, job.err);
             Ahead(job.geo, job.st, job.goal, 1, st') && a.block == NthBlock(job.geo, job.st, job.goal, 0)
    ensures Told(job, 1, Build(job, 1))
  {
    hide Consistent, Shaped, Ahead, NthBlock, Grant;
  }

  lemma ToldNext(job: Job, k: nat)
    requires job.Ready() && 1 <= k && job.Reach(k + 1) && Build(job, k).err == OK && Told(job, k, Build(job, k))
    requires var g := Build(job, k);
             var (st', a) := Grant(job.geo, g.st, job.goal, job.env(k), g.count, g.err);
             Ahead(job.geo, job.st, job.goal, k + 1, st') && a.err == OK
             && a.block == NthBlock(job.geo, job.st, job.goal, k)
    ensures Told(job, k + 1, Build(job, k + 1))
  {
    hide Consistent, Shaped, Ahead, NthBlock, Grant;
  }

  lemma AheadStart(geo: Geometry, st: State, goal: nat)
    requires Consistent(geo, st) && Padded(geo, st)
    ensures Ahead(geo, st, goal, 0, st)
  {
    hide BitFor, GroupFor, Padded;
  }

  lemma RoundExact(geo: Geometry, st: State, goal: nat, k: nat, st': State, e: Env, count: nat, err: int)
    requires Ahead(geo, st, goal, k, st') && Consistent(geo, st) && Consistent(geo, st')
    ensures HasRoom(geo, st', goal, e) <==> !Passes(geo, st, goal, e, k) || 0 <= BitFor(geo, st, goal, k)
    ensures HasRoom(geo, st', goal, e) ==>
              (Grant(geo, st', goal, e, count, err).1.err == OK <==> Grantable(geo, st, goal, e, k))
    ensures Grantable(geo, st, goal, e, k) ==>
              && Passes(geo, st, goal, e, k) && 0 <= BitFor(geo, st, goal, k)
              && Ahead(geo, st, goal, k + 1, Grant(geo, st', goal, e, count, err).0)
              && Grant(geo, st', goal, e, count, err).1.block == NthBlock(geo, st, goal, k)
  {
    hide PlanOf, HasRoom, NthBlock, BitFor, GroupFor, Passes, After, Ahead;
    AheadPadded(geo, st, goal, k, st');
    AheadPlan(geo, st, goal, k, st', e);
    GrantExact(geo, st', goal, e);
    if HasRoom(geo, st', goal, e) {
      NoOverrun(geo, st', goal, e);
    }
    if Grantable(geo, st, goal, e, k) {
      AheadNext(geo, st, goal, k, st', e);
    }
  }

  lemma AheadPadded(geo: Geometry, st: State, goal: nat, k: nat, st': State)
    requires Ahead(geo, st, goal, k, st')
    ensures Padded(geo, st')
  {
  }

  // ----- the creation

  /** Every round of the creation takes its block. */
  predicate Makes(geo: Geometry, n: nat, st: State, tr: Tree, r: Request)
    requires Creatable(geo, n, st, tr, r)
  {
    BranchFits(geo, st, GoalFor(geo, tr, r), r.env, Rounds(Missing(tr, r)))
  }

  /** The block that becomes the last array, or the data block where no array is missing: the
      m-th free one at or after the goal, for m rounds. */
  function LastBlock(geo: Geometry, n: nat, st: State, tr: Tree, r: Request): nat
    requires Creatable(geo, n, st, tr, r)
  {
    NthBlock(geo, st, GoalFor(geo, tr, r), Rounds(Missing(tr, r)) - 1)
  }

  /** Room and success of a creation, and the blocks it takes, are told from the bitmaps. */
  lemma MakesExact(v: Volume, r: Request)
    requires Sound(v) && Creatable(v.geo, v.n, v.st, v.tr, r)
    ensures var goal, m := GoalFor(v.geo, v.tr, r), Rounds(Missing(v.tr, r));
            var g := Create(v.geo, v.n, v.st, v.tr, r);
            && (RoomFor(v.geo, v.n, v.st, v.tr, r) <==> BranchRoom(v.geo, v.st, goal, r.env, m))
            && (RoomFor(v.geo, v.n, v.st, v.tr, r) && g.err == OK <==> Makes(v.geo, v.n, v.st, v.tr, r))
            && (Makes(v.geo, v.n, v.st, v.tr, r) ==>
                  && |g.news| == m && LastNew(g) == LastBlock(v.geo, v.n, v.st, v.tr, r)
                  && forall i :: 0 <= i < m ==> g.news[i] == NthBlock(v.geo, v.st, goal, i))
  {
    hide Consistent, Padded, Linked, IsMeta, Shaped, ValidPath, InUse, Cleared, Roomy, Goal, Lookup, HoleAt, SlotAt,
         Build, BranchFits, BranchRoom, NthBlock, Ahead, Splice;
    BranchExact(JobFor(v.geo, v.n, v.st, v.tr, r), Rounds(Missing(v.tr, r)));
  }

  /** The creation of a leaf reports success exactly when its guards let it take a block, or its
      group is full from the goal on and it looks at a block before the group: one the range
      test lets through, or, with `err` 0 before, one outside the volume. Then nobody has taken
      a block. The other answers are "no space", an I/O error, and `err` as it was. */
  lemma LeafExact(geo: Geometry, n: nat, st: State, tr: Tree, r: Request)
    requires Creatable(geo, n, st, tr, r) && Padded(geo, st) && Missing(tr, r) == 0
    ensures var goal, e, g := GoalFor(geo, tr, r), r.env(0), Create(geo, n, st, tr, r);
            && (g.err == OK <==> Grantable(geo, st, goal, e, 0) || Phantoms(geo, st, goal, e)
                                 || (Overshoots(geo, st, goal, e) && r.err == OK))
            && (Grantable(geo, st, goal, e, 0) ==>
                  g.news == [NthBlock(geo, st, goal, 0)] && Fresh(geo, st, g.st, g.news[0]))
            && (g.err == OK && !Grantable(geo, st, goal, e, 0) ==> g.st == st)
            && (Overshoots(geo, st, goal, e) ==> g.err == r.err)
            && (g.err != OK && !Overshoots(geo, st, goal, e) ==>
                  g.err == if e.hasFree && st.free[GroupFor(geo, goal)] > 0 && !e.readable then EIO else ENOSPC)
  {
    hide Consistent, Padded, Shaped, ValidPath, Lookup, Hole, GoalFor, After, Grantable, Phantoms, Overshoots, NthBlock,
         PlanOf, Splice, HasRoom, GroupFor, InUse;
    var goal, e := GoalFor(geo, tr, r), r.env(0);
    var job := JobFor(geo, n, st, tr, r);
    assert Build(job, 1) == Begin(geo, st, tr, goal, e, r.count, r.err);
    OutcomeExact(geo, st, goal, e);
    GrantExact(geo, st, goal, e);
    if Grantable(geo, st, goal, e, 0) {
      GrantRoom(geo, st, goal, e, r.count, r.err);
    }
  }
}
