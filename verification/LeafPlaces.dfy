/** Where the block of a creation comes from, by number: the place the search starts at and the
    block it ends with; and what the creation reports. */
module LeafPlaces {
  import opened Answers
  import opened Bits
  import opened BlockPath
  import opened BlockAllocator
  import opened BlockAllocatorLaws
  import opened BlockRefusals
  import opened FileTree
  import opened Branch
  import opened FileMapLaws
  import opened BranchPlan

  /** The group a block lies in. */
  function GroupAt(geo: Geometry, block: nat): int
    requires geo.Valid()
  {
    (block - geo.firstData) / geo.perGroup
  }

  /** `block` is the first free one at or after `start`, and in the group of `start`. */
  ghost predicate FirstFree(geo: Geometry, st: State, start: nat, block: nat)
    requires Consistent(geo, st)
  {
    && start <= block && Tracked(geo, start) && Tracked(geo, block) && GroupAt(geo, block) == GroupAt(geo, start)
    && !InUse(geo, st, block) && forall b :: start <= b < block ==> Tracked(geo, b) && InUse(geo, st, b)
  }

  /** A goal outside the volume counts as its first block. */
  function Place(geo: Geometry, goal: nat): nat {
    if geo.firstData <= goal < geo.blocksCount then goal else geo.firstData
  }

  lemma PlaceExact(geo: Geometry, goal: nat)
    requires geo.Valid()
    ensures Tracked(geo, Place(geo, goal)) && GroupAt(geo, Place(geo, goal)) == GroupFor(geo, goal)
    ensures geo.firstData + GroupFor(geo, goal) * geo.perGroup + Target(geo, goal) == Place(geo, goal)
    ensures geo.FirstBlock(GroupFor(geo, goal)) == geo.firstData + GroupFor(geo, goal) * geo.perGroup
  {
    TargetInGroup(geo, goal);
  }

  lemma GroupOfBlock(geo: Geometry, g: nat, bit: nat)
    requires geo.Valid() && bit < geo.perGroup
    ensures GroupAt(geo, geo.firstData + g * geo.perGroup + bit) == g
  {
    DivModUnique(g * geo.perGroup + bit, geo.perGroup, g, bit);
  }

  /** A call that takes a block takes the first free one from its goal on. */
  lemma GrantPlace(geo: Geometry, st: State, goal: nat, e: Env)
    requires Consistent(geo, st) && Padded(geo, st) && Grantable(geo, st, goal, e, 0)
    ensures FirstFree(geo, st, Place(geo, goal), NthBlock(geo, st, goal, 0))
  {
    hide Covers, Hi, Lo, Join, Padded, InMargin, SystemFree, GroupAt, FirstZero, PlanOf;
    GrantExact(geo, st, goal, e);
    PlaceExact(geo, goal);
    var p, start := PlanOf(geo, st, goal, e.hasFree, e.readable), Place(geo, goal);
    var g, from := GroupFor(geo, goal), Target(geo, goal);
    NthFirst(st.used[g], from);
    ZeroFound(st.used[g], from, p.bit);
    TakenIsFresh(geo, st, goal, e.hasFree, e.readable);
    GroupOfBlock(geo, g, p.bit);
    forall b | start <= b < p.block ensures Tracked(geo, b) && InUse(geo, st, b) {
      PositionBlock(geo, g, b - geo.FirstBlock(g));
    }
  }

  lemma ZeroFound(bits: seq<bool>, from: nat, b: int)
    requires from <= |bits| && b == FirstZero(bits, from) && b >= 0
    ensures HasZeroFrom(bits, from) && from <= b && forall k :: from <= k < b ==> bits[k]
  {
  }

  /** As many sixteenths of a group into it as the caller's number says. */
  function Coloured(geo: Geometry, group: nat, pid: nat): nat
    requires geo.Valid()
  {
    MulMono(0, group, geo.perGroup);
    MulMono(0, pid % 16, geo.perGroup / 16);
    geo.firstData + group * geo.perGroup + pid % 16 * (geo.perGroup / 16)
  }

  /** Where the search of a leaf creation starts: at the nearest block mapped before the hole in
      its array; where there is none, at the array's own block; and for a hole in the inode, in
      the inode's group, as many sixteenths of a group in as the caller's number says, in 32 bits
      and as a goal outside the volume where it is one. */
  ghost predicate StartsFrom(v: Volume, r: Request, start: nat)
    requires v.geo.Valid() && r.path != [] && Lookup(v.tr, r.ino, r.path) == 0 && Exists(v.tr, Hole(v.tr, r))
  {
    var t := Hole(v.tr, r);
    var slots := ArrayOf(v.tr, t);
    || (exists j :: 0 <= j < t.at && slots[j] == start != 0 && forall i :: j < i < t.at ==> slots[i] == 0)
    || ((forall i :: 0 <= i < t.at ==> slots[i] == 0)
        && match t
           case InBlock(b, _) => start == b
           case InInode(_, _) =>
             && r.group < |v.geo.groups|
             && start == Place(v.geo, Coloured(v.geo, r.group, r.pid) % 0x1_0000_0000))
  }

  lemma NearIs(slots: seq<nat>, k: nat, j: nat)
    requires j < k <= |slots| && slots[j] != 0 && forall i :: j < i < k ==> slots[i] == 0
    ensures Near(slots, k) == slots[j]
  {
    hide Near;
  }

  lemma NearNone(slots: seq<nat>, k: nat)
    requires k <= |slots| && forall i :: 0 <= i < k ==> slots[i] == 0
    ensures Near(slots, k) == 0
  {
    hide Near;
  }

  lemma GoalExact(v: Volume, r: Request, start: nat)
    requires Consistent(v.geo, v.st) && r.path != [] && Lookup(v.tr, r.ino, r.path) == 0 && Exists(v.tr, Hole(v.tr, r))
    requires StartsFrom(v, r, start) && v.geo.firstData <= start < v.geo.blocksCount
    ensures Place(v.geo, GoalFor(v.geo, v.tr, r)) == start
  {
    hide Near, Lookup, Hole, Exists, ArrayOf, Covers;
    var t := Hole(v.tr, r);
    var slots := ArrayOf(v.tr, t);
    ArrayReaches(v.tr, t);
    if j :| 0 <= j < t.at && slots[j] == start != 0 && forall i :: j < i < t.at ==> slots[i] == 0 {
      NearIs(slots, t.at, j);
    } else {
      NearNone(slots, t.at);
    }
  }

  lemma ArrayReaches(tr: Tree, s: Slot)
    requires Exists(tr, s)
    ensures s.at < |ArrayOf(tr, s)|
  {
  }

  /** A mapped block before the hole, or the array itself, lies in the volume and is in use. */
  lemma StartInFile(v: Volume, r: Request, start: nat)
    requires Sound(v) && Creatable(v.geo, v.n, v.st, v.tr, r) && Missing(v.tr, r) == 0 && StartsFrom(v, r, start)
    ensures Tracked(v.geo, start)
  {
    hide Padded, Linked, IsMeta, Shaped, InUse, Cleared, Lookup, HoleAt, SlotAt;
    SoundCreatable(v, r);
    var t := Hole(v.tr, r);
    if t.InInode? && r.group < |v.geo.groups| {
      PlaceExact(v.geo, Coloured(v.geo, r.group, r.pid) % 0x1_0000_0000);
    }
    if j :| 0 <= j < t.at && ArrayOf(v.tr, t)[j] == start != 0
            && forall i :: j < i < t.at ==> ArrayOf(v.tr, t)[i] == 0 {
      InArrayLinked(v, t, j);
    }
  }

  lemma InArrayLinked(v: Volume, t: Slot, k: nat)
    requires Sound(v) && LevelOf(v.n, v.tr, v.lv, t) == 0 && Exists(v.tr, t) && k < t.at
    requires ArrayOf(v.tr, t)[k] != 0
    ensures ArrayOf(v.tr, t)[k] in v.lv
  {
    hide Bitmapped, Cleared, Shaped;
    var s := if t.InInode? then InInode(t.ino, k) else InBlock(t.block, k);
    assert Read(v.tr, s) == ArrayOf(v.tr, t)[k];
  }

  /** A leaf creation that takes a block takes the first free one from that place on. */
  lemma LeafTakes(v: Volume, r: Request, start: nat)
    requires Sound(v) && Creatable(v.geo, v.n, v.st, v.tr, r) && Missing(v.tr, r) == 0 && StartsFrom(v, r, start)
    requires var g := Create(v.geo, v.n, v.st, v.tr, r); g.err == OK && g.st != v.st
    ensures |Create(v.geo, v.n, v.st, v.tr, r).news| == 1
    ensures FirstFree(v.geo, v.st, start, Create(v.geo, v.n, v.st, v.tr, r).news[0])
  {
    hide Sound, Consistent, Padded, Linked, IsMeta, Shaped, InUse, Cleared, Lookup, HoleAt, SlotAt, Create, Hole,
         GoalFor, StartsFrom, Grantable, Phantoms, Overshoots, NthBlock, FirstFree, Missing, Fresh;
    SoundStart(v, r, start);
    GoalExact(v, r, start);
    LeafExact(v.geo, v.n, v.st, v.tr, r);
    GrantPlace(v.geo, v.st, GoalFor(v.geo, v.tr, r), r.env(0));
  }

  lemma SoundStart(v: Volume, r: Request, start: nat)
    requires Sound(v) && Creatable(v.geo, v.n, v.st, v.tr, r) && Missing(v.tr, r) == 0 && StartsFrom(v, r, start)
    ensures Consistent(v.geo, v.st) && Padded(v.geo, v.st) && start < v.geo.blocksCount && Place(v.geo, start) == start
  {
    hide Consistent, Padded, Linked, IsMeta, Shaped, InUse, Cleared, Lookup, HoleAt, SlotAt, Missing;
    StartInFile(v, r, start);
  }

  // ----- what a call leaves behind

  /** The bitmaps differ in one bit, which has been set. */
  ghost predicate BitSet(geo: Geometry, st: State, st': State, g: nat, b: nat)
    requires Consistent(geo, st) && Consistent(geo, st')
  {
    && g < |geo.groups| && b < geo.perGroup && !st.used[g][b]
    && forall h: nat, k: nat :: h < |geo.groups| && k < geo.perGroup ==>
         (st'.used[h][k] <==> st.used[h][k] || (h == g && k == b))
  }

  /** A call that takes a block sets its bit and lowers the count of its group and the volume's
      by one; one that is refused after its search has found a bit sets that bit and changes no
      count; any other changes nothing. */
  lemma NextWhole(geo: Geometry, st: State, goal: nat, e: Env)
    requires Consistent(geo, st) && Padded(geo, st)
    ensures var g, bit := GroupFor(geo, goal), BitFor(geo, st, goal, 0);
            var st' := Next(geo, st, goal, e.hasFree, e.readable);
            && (Passes(geo, st, goal, e, 0) && bit >= 0 ==> BitSet(geo, st, st', g, bit))
            && (Grantable(geo, st, goal, e, 0) ==>
                  && st'.free[g] == st.free[g] - 1 && st'.counter == st.counter - 1
                  && forall h: nat :: h < |geo.groups| && h != g ==> st'.free[h] == st.free[h])
            && (!Grantable(geo, st, goal, e, 0) ==> st'.free == st.free && st'.counter == st.counter)
            && (!(Passes(geo, st, goal, e, 0) && bit >= 0) ==> st' == st)
  {
    hide Covers, Hi, Lo, Join, FirstZero, InSystemZone, SystemFree, InMargin, Padded, U16, U64;
    GrantExact(geo, st, goal, e);
    OutcomeExact(geo, st, goal, e);
    NthFirst(st.used[GroupFor(geo, goal)], Target(geo, goal));
    if Passes(geo, st, goal, e, 0) {
      U16Fits(st.free[GroupFor(geo, goal)] - 1);
      U16Fits(st.free[GroupFor(geo, goal)]);
    }
  }

  /** A later round that fails leaves the blocks and arrays of the rounds before it as they are:
      nothing is given back. */
  lemma RoundFails(job: Job, k: nat)
    requires job.Ready() && 1 <= k && job.Reach(k + 1) && Build(job, k).err == OK && Build(job, k + 1).err != OK
    ensures var g, e := Build(job, k), job.env(k);
            var st' := Next(job.geo, g.st, job.goal, e.hasFree, e.readable);
            Build(job, k + 1) == Grown(st', g.tr, g.news, g.count, g.num, ENOMEM)
  {
    hide Consistent, Shaped, PlanOf, After;
  }

  // ----- what a creation reports

  /** A creation that makes its branch reports one block for each round, if its caller's count
      was at least 1; a leaf creation in a full group reports none, or the caller's count. */
  lemma CountExact(v: Volume, r: Request)
    requires Sound(v) && Creatable(v.geo, v.n, v.st, v.tr, r)
    ensures var g, m := Create(v.geo, v.n, v.st, v.tr, r), Missing(v.tr, r);
            var goal, first := GoalFor(v.geo, v.tr, r), if r.count == 0 then 0 else 1;
            && (Makes(v.geo, v.n, v.st, v.tr, r) ==> g.err == OK && g.num == first + if m <= 1 then 0 else m - 1)
            && (m == 0 && Phantoms(v.geo, v.st, goal, r.env(0)) ==> g.err == OK && g.num == 0)
            && (m == 0 && Overshoots(v.geo, v.st, goal, r.env(0)) && r.err == OK ==> g.err == OK && g.num == r.count)
  {
    hide Sound, Consistent, Padded, Shaped, ValidPath, Lookup, Hole, HoleAt, SlotAt, GoalFor, Splice, Build, Begin,
         Grantable, Phantoms, Overshoots, BranchFits, BranchRoom, RoomFor, Missing;
    SoundPlain(v);
    var job, m := JobFor(v.geo, v.n, v.st, v.tr, r), Rounds(Missing(v.tr, r));
    MakesExact(v, r);
    FirstRound(job);
    BeginNum(v.geo, v.st, v.tr, job.goal, r.env(0), r.count, r.err);
    if Makes(v.geo, v.n, v.st, v.tr, r) {
      FitsFirst(v.geo, v.st, job.goal, r.env, m);
      BuildNum(job, m);
    }
  }

  lemma SoundPlain(v: Volume)
    requires Sound(v)
    ensures Consistent(v.geo, v.st) && Padded(v.geo, v.st)
  {
  }

  lemma FitsFirst(geo: Geometry, st: State, goal: nat, env: nat -> Env, m: nat)
    requires Consistent(geo, st) && BranchFits(geo, st, goal, env, m) && m > 0
    ensures Grantable(geo, st, goal, env(0), 0)
  {
    hide Grantable, Consistent;
  }

  lemma BeginNum(geo: Geometry, st: State, tr: Tree, goal: nat, e: Env, count: nat, err: int)
    requires Consistent(geo, st) && Padded(geo, st)
    ensures var g := Begin(geo, st, tr, goal, e, count, err);
            && (Grantable(geo, st, goal, e, 0) ==> g.err == OK && g.num == if count == 0 then 0 else 1)
            && (Phantoms(geo, st, goal, e) ==> g.err == OK && g.num == 0)
            && (Overshoots(geo, st, goal, e) ==> g.err == err && g.num == count)
  {
    hide Consistent, Padded, PlanOf, After, SystemFree, InSystemZone, FirstZero, Hi, Lo, Join;
    GrantExact(geo, st, goal, e);
    OutcomeExact(geo, st, goal, e);
    if Phantoms(geo, st, goal, e) || Overshoots(geo, st, goal, e) { PlanNum(geo, st, goal, e); }
  }

  lemma PlanNum(geo: Geometry, st: State, goal: nat, e: Env)
    requires Consistent(geo, st) && BitFor(geo, st, goal, 0) < 0
    ensures PlanOf(geo, st, goal, e.hasFree, e.readable).num == 0
  {
    hide FirstZero, Hi, Lo, Join, InSystemZone;
    NthFirst(st.used[GroupFor(geo, goal)], Target(geo, goal));
  }

  /** Every round after the first counts one more block; one that fails ends in "no memory". */
  lemma {:induction false} BuildNum(job: Job, upto: nat)
    requires job.Ready() && job.Reach(upto)
    ensures Build(job, upto).err == OK ==>
              Build(job, 1).err == OK && Build(job, upto).num == Build(job, 1).num + (upto - 1)
    ensures Build(job, upto).err != OK ==>
              Build(job, upto).err == if Build(job, 1).err != OK then Build(job, 1).err else ENOMEM
    decreases upto
  {
    hide Consistent, Shaped, Begin, Grant;
    if upto > 1 { BuildNum(job, upto - 1); }
  }
}
