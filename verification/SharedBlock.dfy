/** A small sound volume on which a creation that reports success maps a block twice. */
module SharedBlock {
  import opened Answers
  import opened Bits
  import opened BlockPath
  import opened BlockAllocator
  import opened BlockAllocatorLaws
  import opened FileTree
  import opened Branch
  import opened FileMapLaws

  /** Two groups of eight blocks, in which only block 8 is free; one file, inode 2, whose
      blocks 0 and 1 are the last block of each group; blocks of 1024 bytes. */
  function Slots(): seq<nat> {
    [7, 15, 0, 0, 0, 0, 0, 0, 0, 0, 0, 0, 0, 0, 0]
  }

  function Geo(): Geometry {
    Geometry(0, 16, 8, 1, [Group(1, 2, 3), Group(9, 10, 11)])
  }

  function Bitmaps(): State {
    State([AllSet(8), AllSet(8)[0 := false]], [0, 1], 1)
  }

  function Numbers(): set<nat> {
    {0, 1, 2, 3, 4, 5, 6, 7, 8, 9, 10, 11, 12, 13, 14, 15}
  }

  function OneFile(): Tree {
    Tree(map[2 := Slots()], map b | b in Numbers() :: seq(256, _ => 0))
  }

  function Small(): Volume {
    Volume(Geo(), 256, Bitmaps(), OneFile(), map[7 := 0, 15 := 0], map[7 := InInode(2, 0), 15 := InInode(2, 1)], true)
  }

  /** The request for logical block 2 of the file. */
  function Third(): Request {
    Request(2, [2], 0, 0, _ => Env(true, true), 1, ENOSPC)
  }

  lemma BitmapsRight(geo: Geometry, st: State)
    requires geo == Geo() && st == Bitmaps()
    ensures Consistent(geo, st) && Padded(geo, st)
  {
  }

  lemma UsedRight(geo: Geometry, st: State, b: nat)
    requires geo == Geo() && st == Bitmaps() && Consistent(geo, st) && b < 16
    ensures Tracked(geo, b) && (InUse(geo, st, b) <==> b != 8)
  {
  }

  lemma MetaRight(geo: Geometry, b: nat)
    requires geo == Geo()
    ensures IsMeta(geo, b) <==> b in {1, 2, 3, 9, 10, 11}
  {
    var d, e := geo.groups[0], geo.groups[1];
    assert !SystemFree(geo, 0, b) <==> b in {1, 2, 3};
    assert !SystemFree(geo, 1, b) <==> b in {9, 10, 11};
  }

  lemma TreeRight(tr: Tree)
    requires tr == OneFile()
    ensures Shaped(256, tr)
    ensures forall b, k :: Read(tr, InBlock(b, k)) == 0
    ensures forall k :: Read(tr, InInode(2, k)) == if k == 0 then 7 else if k == 1 then 15 else 0
    ensures forall i :: i in tr.inodes <==> i == 2
    ensures forall b: nat :: b in tr.blocks <==> b < 16
  {
  }

  lemma LinksRight(v: Volume)
    requires v == Small() && Shaped(256, v.tr)
    ensures Linked(v.n, v.tr, v.lv, v.par)
  {
    hide OneFile, Slots;
    TreeRight(v.tr);
    forall s: Slot | LevelOf(v.n, v.tr, v.lv, s) >= 0 && Read(v.tr, s) != 0
      ensures s == InInode(2, 0) || s == InInode(2, 1)
    {
    }
  }

  /** The volume is sound. */
  lemma SmallSound(v: Volume)
    requires v == Small()
    ensures Sound(v)
  {
    hide OneFile, Padded, Consistent, Linked, IsMeta, InUse, Geo, Bitmaps, Read, Tracked;
    BitmapsRight(v.geo, v.st);
    TreeRight(v.tr);
    LinksRight(v);
    TrackedRight(v.geo);
    forall b: nat | b < 16
      ensures Tracked(v.geo, b) && (InUse(v.geo, v.st, b) <==> b != 8)
    {
      UsedRight(v.geo, v.st, b);
    }
    forall b ensures IsMeta(v.geo, b) <==> b in {1, 2, 3, 9, 10, 11} { MetaRight(v.geo, b); }
  }

  lemma TrackedRight(geo: Geometry)
    requires geo == Geo()
    ensures forall b :: Tracked(geo, b) <==> b < 16
  {
  }

  lemma PlanRight(geo: Geometry, st: State, goal: nat)
    requires geo == Geo() && st == Bitmaps() && goal == 15 && Consistent(geo, st)
    ensures PlanOf(geo, st, goal, true, true) == Plan(1, -1, 0, 7, Taken)
  {
    hide FirstZero, Covers, Consistent, Hi, Lo, Join, U64, Geometry.GroupOf, Geometry.BitOf, Geometry.FirstBlock;
    PlaceRight(geo, goal);
    U64Fits(7);
    U64Fits(6);
    assert forall k :: 7 <= k < 8 ==> st.used[1][k];
    assert FirstZero(st.used[1], 7) == -1;
  }

  lemma PlaceRight(geo: Geometry, goal: nat)
    requires geo == Geo() && goal == 15
    ensures geo.Clamp(goal) == 15 && geo.GroupOf(goal) == 1 && geo.BitOf(goal) == 7 && geo.FirstBlock(1) == 8
  {
  }

  lemma RequestRight(v: Volume, r: Request)
    requires v == Small() && r == Third()
    ensures Path(v, r.ino, r.path) && Lookup(v.tr, r.ino, r.path) == 0
    ensures Hole(v.tr, r) == InInode(2, 2) && Exists(v.tr, Hole(v.tr, r)) && Missing(v.tr, r) == 0
    ensures Goal(v.geo, v.tr, InInode(2, 2), r.group, r.pid) == 15
  {
  }

  /** There a creation of block 2 of the file reports success and maps it to block 7, which
      its block 0 is mapped to. */
  lemma SharedExample(v: Volume, r: Request)
    requires v == Small() && r == Third()
    ensures Sound(v) && Creatable(v.geo, v.n, v.st, v.tr, r)
    ensures var g := Create(v.geo, v.n, v.st, v.tr, r);
            g.err == OK && Lookup(g.tr, 2, [0]) == 7 && Lookup(g.tr, 2, [2]) == 7
  {
    hide Sound, Consistent, Padded, FirstZero, PlanOf, Linked, IsMeta, Path, Goal, OneFile, Geo, Bitmaps, Creatable,
         Hole, Missing, Lookup, Write, Create;
    SmallSound(v);
    RequestRight(v, r);
    SoundCreatable(v, r);
    CreatedRight(v, r);
    WrittenRight(v.tr);
  }

  lemma CreatedRight(v: Volume, r: Request)
    requires v == Small() && r == Third() && Creatable(v.geo, v.n, v.st, v.tr, r)
    requires Hole(v.tr, r) == InInode(2, 2) && Exists(v.tr, Hole(v.tr, r)) && Missing(v.tr, r) == 0
    requires Goal(v.geo, v.tr, InInode(2, 2), r.group, r.pid) == 15
    ensures var g := Create(v.geo, v.n, v.st, v.tr, r);
            g.err == OK && g.tr == Write(v.tr, InInode(2, 2), 7)
  {
    hide FirstZero, PlanOf, Goal, OneFile, Geo, Bitmaps, Hole, Missing, Lookup, Write, Shaped, ValidPath, After;
    PlanRight(v.geo, v.st, 15);
    var job := JobFor(v.geo, v.n, v.st, v.tr, r);
    assert Build(job, 1) == Begin(v.geo, v.st, v.tr, 15, Env(true, true), r.count, r.err);
  }

  lemma WrittenRight(tr: Tree)
    requires tr == OneFile() && Exists(tr, InInode(2, 2))
    ensures var tr' := Write(tr, InInode(2, 2), 7); Lookup(tr', 2, [0]) == 7 && Lookup(tr', 2, [2]) == 7
  {
  }
}
