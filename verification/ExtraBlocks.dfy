/** The part of the splice that stores further blocks: when it runs, what it writes, and a
    volume on which it maps a file to metadata. */
module ExtraBlocks {
  import opened Answers
  import opened Bits
  import opened BlockPath
  import opened BlockAllocator
  import opened BlockAllocatorLaws
  import opened FileTree
  import opened Branch
  import opened FileMapLaws

  /** s is one of the blks slots from t on in the array of t. */
  predicate InRow(tr: Tree, t: Slot, s: Slot, blks: nat) {
    Exists(tr, s) && t.at <= s.at < t.at + blks && s == Shift(t, s.at - t.at)
  }

  lemma SpliceReads(tr: Tree, t: Slot, blks: nat)
    requires Exists(tr, t) && 1 < blks
    ensures forall s :: Read(Splice(tr, t, 0, 0, blks), s)
                     == if InRow(tr, t, s, blks) then 1 + (s.at - t.at) else Read(tr, s)
  {
  }

  lemma OverrunIdle(geo: Geometry, st: State, goal: nat, e: Env)
    requires Consistent(geo, st) && Padded(geo, st)
    requires PlanOf(geo, st, goal, e.hasFree, e.readable).outcome == OutOfVolume
    ensures Next(geo, st, goal, e.hasFree, e.readable) == st
  {
    hide PlanOf, Padded;
    OutOfVolumeIsFull(geo, st, goal, e.hasFree, e.readable);
  }

  /** When the block found lies outside the volume, `err` is 0 and `count` above 1, the creation
      of a leaf reports success, takes nothing, and stores 1, 2, 3 and so on in `count` slots
      from the hole on, as far as the array goes: the block asked for is mapped to block 1. */
  lemma ClaimedRow(v: Volume, r: Request)
    requires Sound(v) && Path(v, r.ino, r.path) && Lookup(v.tr, r.ino, r.path) == 0
    requires Creatable(v.geo, v.n, v.st, v.tr, r) && Missing(v.tr, r) == 0
    requires Overruns(v.geo, v.st, v.tr, r) && r.err == OK && 1 < r.count
    ensures var t, g := Hole(v.tr, r), Create(v.geo, v.n, v.st, v.tr, r);
            && g.err == OK && g.num == r.count && g.st == v.st
            && (forall s :: Read(g.tr, s)
                         == if InRow(v.tr, t, s, r.count) then 1 + (s.at - t.at) else Read(v.tr, s))
            && Lookup(g.tr, r.ino, r.path) == 1
  {
    hide Consistent, Padded, Linked, IsMeta, Shaped, ValidPath, InUse, Cleared, PlanOf, Splice, InRow;
    var job := JobFor(v.geo, v.n, v.st, v.tr, r);
    assert Build(job, 1) == Begin(v.geo, v.st, v.tr, job.goal, r.env(0), r.count, r.err);
    OverrunIdle(v.geo, v.st, job.goal, r.env(0));
    SpliceReads(v.tr, Hole(v.tr, r), r.count);
    RowHead(v, r, Create(v.geo, v.n, v.st, v.tr, r).tr);
  }

  lemma RowHead(v: Volume, r: Request, tr': Tree)
    requires Sound(v) && Path(v, r.ino, r.path) && Lookup(v.tr, r.ino, r.path) == 0
    requires Creatable(v.geo, v.n, v.st, v.tr, r) && Missing(v.tr, r) == 0 && 1 < r.count
    requires forall s :: Read(tr', s) == if InRow(v.tr, Hole(v.tr, r), s, r.count) then 1 + (s.at - Hole(v.tr, r).at)
                                         else Read(v.tr, s)
    ensures Lookup(tr', r.ino, r.path) == 1
  {
    hide Consistent, Padded, Linked, IsMeta, Shaped, ValidPath, InUse, Cleared;
    var p, t := r.path, Hole(v.tr, r);
    assert p[..|p|] == p;
    PathLevels(v.n, v.tr, v.lv, v.par, r.ino, p, |p|);
    if |p| > 1 {
      WalkFrame(v, tr', r.ino, p, |p|);
    }
    assert Read(tr', t) == 1;
  }

  // ----- an example

  function Numbers(): set<nat> {
    {1, 2, 3, 4, 5, 6, 7, 8, 9, 10, 11, 12, 13, 14, 15, 16}
  }

  /** Two full groups of eight blocks of 1024 bytes, the superblock in block 1, and one empty
      file. */
  function Full(): Volume {
    Volume(Geometry(1, 17, 8, 1, [Group(2, 3, 4), Group(10, 11, 12)]), 256, State([AllSet(8), AllSet(8)], [1, 0], 1),
           Tree(map[2 := seq(15, _ => 0)], map b | b in Numbers() :: seq(256, _ => 0)), map[], map[], true)
  }

  function First(): Request {
    Request(2, [0], 0, 0, _ => Env(true, true), 3, OK)
  }

  lemma FullSound(v: Volume)
    requires v == Full()
    ensures Sound(v)
  {
    hide Padded, Covers, Consistent, IsMeta, InUse;
    SilentState(v.geo, v.st);
    FullUsed(v.geo, v.st);
    NoFilesSound(v);
  }

  lemma FullUsed(geo: Geometry, st: State)
    requires geo == Full().geo && st == Full().st && Consistent(geo, st)
    ensures forall b :: Tracked(geo, b) ==> InUse(geo, st, b)
  {
    hide Hi, Lo, Join;
    forall b | Tracked(geo, b) ensures InUse(geo, st, b) { BlockPosition(geo, b); }
  }

  lemma FirstRight(v: Volume, r: Request)
    requires v == Full() && r == First()
    ensures Path(v, 2, [0]) && Lookup(v.tr, 2, [0]) == 0
    ensures Hole(v.tr, r) == InInode(2, 0) && Exists(v.tr, Hole(v.tr, r)) && Missing(v.tr, r) == 0
    ensures GoalFor(v.geo, v.tr, r) == 1
    ensures forall k: nat :: k < 3 ==> InRow(v.tr, InInode(2, 0), InInode(2, k), 3)
  {
  }

  /** There block 0 of the file is asked for: the call reports three new blocks, and blocks 0 to
      2 of the file are the superblock and the two bitmaps of the first group. */
  lemma ExtraExample(v: Volume, r: Request)
    requires v == Full() && r == First()
    ensures Sound(v) && Creatable(v.geo, v.n, v.st, v.tr, r)
    ensures var g := Create(v.geo, v.n, v.st, v.tr, r);
            && g.err == OK && g.num == 3 && g.st == v.st
            && forall k: nat :: k < 3 ==> Lookup(g.tr, 2, [k]) == k + 1
  {
    hide Sound, Consistent, Padded, PlanOf, Path, Creatable, Hole, Missing, Create, InRow, GoalFor, Read, Full;
    FullParts(v);
    FullSound(v);
    FirstRight(v, r);
    SoundCreatable(v, r);
    SilentState(v.geo, v.st);
    SilentPlan(v.geo, v.st, 1);
    ClaimedRow(v, r);
  }

  lemma FullParts(v: Volume)
    requires v == Full()
    ensures v.geo == Geometry(1, 17, 8, 1, [Group(2, 3, 4), Group(10, 11, 12)])
    ensures v.st == State([AllSet(8), AllSet(8)], [1, 0], 1)
  {
  }
}
