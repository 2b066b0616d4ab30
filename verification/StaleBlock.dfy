/** A small sound volume with room on which a creation that makes a pointer array maps a block
    twice: the free block it takes still holds an old number. */
module StaleBlock {
  import opened Answers
  import opened Bits
  import opened BlockPath
  import opened BlockAllocator
  import opened BlockAllocatorLaws
  import opened FileTree
  import opened Branch
  import opened FileMapLaws
  import opened BranchPlan
  import opened FileMapCreate

  /** One file, inode 2, whose block 0 is disk block 6. */
  function Slots(): seq<nat> {
    [6, 0, 0, 0, 0, 0, 0, 0, 0, 0, 0, 0, 0, 0, 0]
  }

  /** One group of eight blocks of 1024 bytes, all but block 7 in use. */
  function Geo(): Geometry {
    Geometry(0, 8, 8, 1, [Group(1, 2, 3)])
  }

  function Bitmaps(): State {
    State([AllSet(8)[7 := false]], [1], 1)
  }

  /** Block 7 was an array once. */
  function Content(b: nat): seq<nat> {
    seq(256, k => if b == 7 && k == 0 then 6 else 0)
  }

  function OneFile(): Tree {
    Tree(map[2 := Slots()], map b: nat | b in {0, 1, 2, 3, 4, 5, 6, 7} :: Content(b))
  }

  function Small(): Volume {
    Volume(Geo(), 256, Bitmaps(), OneFile(), map[6 := 0], map[6 := InInode(2, 0)], false)
  }

  /** The request for the first block behind the direct ones. */
  function Twelfth(): Request {
    Request(2, [12, 0], 0, 0, _ => Env(true, true), 1, ENOSPC)
  }

  lemma BitmapsRight(geo: Geometry, st: State)
    requires geo == Geo() && st == Bitmaps()
    ensures Consistent(geo, st) && Padded(geo, st)
  {
  }

  lemma UsedRight(geo: Geometry, st: State, b: nat)
    requires geo == Geo() && st == Bitmaps() && Consistent(geo, st) && b < 8
    ensures Tracked(geo, b) && (InUse(geo, st, b) <==> b != 7)
  {
  }

  lemma MetaRight(geo: Geometry, b: nat)
    requires geo == Geo()
    ensures IsMeta(geo, b) <==> b in {1, 2, 3}
  {
    var d := geo.groups[0];
    assert !SystemFree(geo, 0, b) <==> b in {1, 2, 3};
  }

  lemma TreeRight(tr: Tree)
    requires tr == OneFile()
    ensures Shaped(256, tr)
    ensures forall b, k :: Read(tr, InBlock(b, k)) == if b == 7 && k == 0 then 6 else 0
    ensures forall k :: Read(tr, InInode(2, k)) == if k == 0 then 6 else 0
    ensures forall i :: i in tr.inodes <==> i == 2
    ensures forall b: nat :: b in tr.blocks <==> b < 8
  {
  }

  lemma LinksRight(v: Volume)
    requires v == Small() && Shaped(256, v.tr)
    ensures Linked(v.n, v.tr, v.lv, v.par)
  {
    hide OneFile, Slots;
    TreeRight(v.tr);
    forall s: Slot | LevelOf(v.n, v.tr, v.lv, s) >= 0 && Read(v.tr, s) != 0
      ensures s == InInode(2, 0)
    {
    }
  }

  lemma TrackedRight(geo: Geometry)
    requires geo == Geo()
    ensures forall b :: Tracked(geo, b) <==> b < 8
  {
  }

  /** The volume is sound. */
  lemma SmallSound(v: Volume)
    requires v == Small()
    ensures Sound(v)
  {
    hide OneFile, Padded, Consistent, Linked, IsMeta, InUse, Geo, Bitmaps, Read, Tracked;
    BitmapsRight(v.geo, v.st);
    TreeRight(v.tr);
    LinksRight(v);
    TrackedRight(v.geo);
    forall b: nat | b < 8
      ensures Tracked(v.geo, b) && (InUse(v.geo, v.st, b) <==> b != 7)
    {
      UsedRight(v.geo, v.st, b);
    }
    forall b ensures IsMeta(v.geo, b) <==> b in {1, 2, 3} { MetaRight(v.geo, b); }
  }

  lemma PlaceRight(geo: Geometry, goal: nat)
    requires geo == Geo() && goal == 6
    ensures geo.Clamp(goal) == 6 && geo.GroupOf(goal) == 0 && geo.BitOf(goal) == 6 && geo.FirstBlock(0) == 0
  {
  }

  /** The block taken is block 7. */
  lemma GrantRight(geo: Geometry, st: State, goal: nat)
    requires geo == Geo() && st == Bitmaps() && goal == 6 && Consistent(geo, st)
    ensures Grantable(geo, st, goal, Env(true, true), 0) && NthBlock(geo, st, goal, 0) == 7
  {
    hide FirstZero, Covers, Consistent, Hi, Lo, Join, Geometry.GroupOf, Geometry.BitOf, Geometry.FirstBlock;
    PlaceRight(geo, goal);
    assert !st.used[0][7] && st.used[0][6];
    assert FirstZero(st.used[0], 6) == 7;
  }

  lemma NearRight(slots: seq<nat>)
    requires slots == Slots()
    ensures Near(slots, 12) == 6
  {
    hide Near;
    assert slots[0] == 6 && forall j :: 1 <= j < 12 ==> slots[j] == 0;
  }

  lemma RequestRight(v: Volume, r: Request)
    requires v == Small() && r == Twelfth()
    ensures Path(v, r.ino, r.path) && Lookup(v.tr, r.ino, r.path) == 0 && Path(v, 2, [0])
    ensures Hole(v.tr, r) == InInode(2, 12) && Exists(v.tr, Hole(v.tr, r)) && Missing(v.tr, r) == 1
    ensures Goal(v.geo, v.tr, InInode(2, 12), r.group, r.pid) == 6 && Lookup(v.tr, 2, [0]) == 6
  {
    assert [12, 0][..1] == [12];
    NearRight(ArrayOf(v.tr, InInode(2, 12)));
  }

  lemma MakesRight(v: Volume, r: Request)
    requires v == Small() && r == Twelfth() && Creatable(v.geo, v.n, v.st, v.tr, r)
    requires Hole(v.tr, r) == InInode(2, 12) && Missing(v.tr, r) == 1
    requires Goal(v.geo, v.tr, InInode(2, 12), r.group, r.pid) == 6
    ensures Makes(v.geo, v.n, v.st, v.tr, r) && LastBlock(v.geo, v.n, v.st, v.tr, r) == 7
  {
    hide OneFile, Geo, Bitmaps, Goal, Hole, Missing, Lookup, Shaped, ValidPath, Grantable, NthBlock, Consistent;
    GrantRight(v.geo, v.st, 6);
  }

  /** There a creation of block 12 of the file has room and reports success, and then blocks 0
      and 12 of the file are both disk block 6. */
  lemma StaleExample(v: Volume, r: Request)
    requires v == Small() && r == Twelfth()
    ensures Sound(v) && Creatable(v.geo, v.n, v.st, v.tr, r) && RoomFor(v.geo, v.n, v.st, v.tr, r)
    ensures var g := Create(v.geo, v.n, v.st, v.tr, r);
            g.err == OK && Lookup(g.tr, 2, [0]) == 6 && Lookup(g.tr, 2, [12, 0]) == 6
  {
    hide Sound, Consistent, Linked, Path, Goal, OneFile, Geo, Bitmaps, Creatable, Hole, Missing, Lookup, Create, Makes,
         RoomFor, LastBlock, BranchRoom, Read;
    SmallSound(v);
    TreeRight(v.tr);
    RequestRight(v, r);
    SoundCreatable(v, r);
    MakesRight(v, r);
    MakesExact(v, r);
    DeepLookups(v, r);
  }
}
