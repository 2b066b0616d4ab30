/** Adding a name on top of the block layer: where no record has room the directory needs a
    block, and the answer is that of the block allocator. */
module DirectoryGrowth {
  import opened Answers
  import opened Bits
  import opened BlockPath
  import opened BlockAllocator
  import opened BlockAllocatorLaws
  import opened FileTree
  import opened Branch
  import opened FileMapLaws
  import opened FileMapCreate
  import opened BranchPlan
  import opened FileMapRuns
  import L = DirectoryLog
  import I = DirectoryInsert
  import A = InodeAllocator
  import W = InodeAllocatorLaws
  import V = VolumeRuns
  import F = FreeCounts

  /** Every block of the directory is mapped. */
  ghost predicate Backed(l: L.Layout, size: nat, n: nat, tr: Tree, ino: nat) {
    && l.block > 0 && n > 0
    && forall k: nat {:trigger PathOf(n, k)} :: k * l.block < size ==>
         PathOf(n, k) != [] && Lookup(tr, ino, PathOf(n, k)) != 0
  }

  /** r asks for the block behind the end of the directory, of which only the leaf is missing
      if anything. */
  ghost predicate AsksForNext(l: L.Layout, size: nat, geo: Geometry, n: nat, st: State, tr: Tree, r: Request) {
    && l.block > 0 && n > 0 && size / l.block < Domain(n)
    && r.path == PathOf(n, size / l.block) && ValidPath(n, r.path) && r.ino in tr.inodes
    && (Lookup(tr, r.ino, r.path) == 0 ==> Creatable(geo, n, st, tr, r) && Missing(tr, r) == 0)
  }

  /** The insertion needs a block that is not mapped yet. */
  predicate NeedsBlock(l: L.Layout, d: L.Dir, name: string, tr: Tree, r: Request)
    requires l.page > 0 && r.path != []
  {
    I.StopFrom(l, d, name, 0).Grow? && Lookup(tr, r.ino, r.path) == 0
  }

  /** What the preparation of the block answers. */
  function PrepareError(l: L.Layout, d: L.Dir, name: string, geo: Geometry, n: nat, st: State, tr: Tree, r: Request)
    : int
    requires l.page > 0 && r.path != []
    requires NeedsBlock(l, d, name, tr, r) ==> Creatable(geo, n, st, tr, r)
  {
    if NeedsBlock(l, d, name, tr, r) then Create(geo, n, st, tr, r).err else OK
  }

  /** The volume after it. */
  function Prepared(l: L.Layout, d: L.Dir, name: string, geo: Geometry, n: nat, st: State, tr: Tree, r: Request)
    : (State, Tree)
    requires l.page > 0 && r.path != []
    requires NeedsBlock(l, d, name, tr, r) ==> Creatable(geo, n, st, tr, r)
  {
    if NeedsBlock(l, d, name, tr, r) then (Create(geo, n, st, tr, r).st, Create(geo, n, st, tr, r).tr) else (st, tr)
  }

  /** The block allocator takes a block for the leaf. */
  predicate Grants(geo: Geometry, st: State, tr: Tree, r: Request)
    requires Consistent(geo, st) && r.path != [] && Lookup(tr, r.ino, r.path) == 0 && Exists(tr, Hole(tr, r))
  {
    Grantable(geo, st, GoalFor(geo, tr, r), r.env(0), 0)
  }

  /** It reports success with a block nobody takes: the group is full from the goal on. */
  predicate Pretends(geo: Geometry, st: State, tr: Tree, r: Request)
    requires Consistent(geo, st) && r.path != [] && Lookup(tr, r.ino, r.path) == 0 && Exists(tr, Hole(tr, r))
  {
    var goal := GoalFor(geo, tr, r);
    Phantoms(geo, st, goal, r.env(0)) || (Overshoots(geo, st, goal, r.env(0)) && r.err == OK)
  }

  /** The scan ends behind the directory exactly when no record has room. */
  lemma GrowsExact(l: L.Layout, d: L.Dir, starts: set<nat>, name: string)
    requires L.WellFormed(l, d, starts) && I.GoodName(name) && name !in L.Names(d, starts)
    ensures I.StopFrom(l, d, name, 0).Grow? <==> !RoomInRecords(d, starts, name)
  {
    hide L.Tiled, I.StopFrom, I.HasRoom;
    I.StopFits(l, d, starts, name);
    I.NotThere(d, starts, name);
    forall o | o in starts ensures o < d.size { I.InsideWF(l, d, starts, o); }
  }

  ghost predicate RoomInRecords(d: L.Dir, starts: set<nat>, name: string) {
    exists o :: o in starts && I.HasRoom(L.At(d, o), L.RecLen(|name|))
  }

  /** An absent name goes in exactly when some record has room, or the next block is mapped
      already, or the guards of the block allocator let it take one, or its group is full and it
      pretends to; the last of these leaves the name in a block that nobody has taken. */
  lemma AddExact(l: L.Layout, d: L.Dir, starts: set<nat>, name: string, ino: nat, v: Volume, r: Request)
    requires L.WellFormed(l, d, starts) && I.GoodName(name) && name !in L.Names(d, starts) && ino != 0
    requires Sound(v) && AsksForNext(l, d.size, v.geo, v.n, v.st, v.tr, r)
    ensures var err := PrepareError(l, d, name, v.geo, v.n, v.st, v.tr, r);
            && I.Insert(l, d, name, ino, err).1 == err
            && (err == OK <==>
                  || RoomInRecords(d, starts, name) || Lookup(v.tr, r.ino, r.path) != 0
                  || Grants(v.geo, v.st, v.tr, r) || Pretends(v.geo, v.st, v.tr, r))
            && (err == OK ==> I.Inserted(l, d, starts, name, ino, I.Insert(l, d, name, ino, err).0,
                                         I.InsertStarts(l, d, starts, name)))
    ensures NeedsBlock(l, d, name, v.tr, r) ==>
              var g := Create(v.geo, v.n, v.st, v.tr, r);
              && (Grants(v.geo, v.st, v.tr, r) ==> Fresh(v.geo, v.st, g.st, g.news[0]))
              && (Pretends(v.geo, v.st, v.tr, r) ==> g.st == v.st)
  {
    hide L.WellFormed, I.Insert, I.InsertStarts, L.Names, I.StopFrom, Sound, Create, Creatable, I.Inserted, Grants,
         RoomInRecords, Lookup, Fresh, Pretends, Domain, ValidPath, Consistent, Exists, Missing;
    I.GoodDir(l, d, starts);
    GrowsExact(l, d, starts, name);
    if NeedsBlock(l, d, name, v.tr, r) {
      PrepareExact(v, r);
    }
    I.InsertExact(l, d, starts, name, ino, PrepareError(l, d, name, v.geo, v.n, v.st, v.tr, r));
  }

  lemma PrepareExact(v: Volume, r: Request)
    requires Sound(v) && Creatable(v.geo, v.n, v.st, v.tr, r) && Missing(v.tr, r) == 0
    ensures Consistent(v.geo, v.st) && r.path != []
    ensures var g := Create(v.geo, v.n, v.st, v.tr, r);
            && (g.err == OK <==> Grants(v.geo, v.st, v.tr, r) || Pretends(v.geo, v.st, v.tr, r))
            && (Grants(v.geo, v.st, v.tr, r) ==> Fresh(v.geo, v.st, g.st, g.news[0]))
            && (Pretends(v.geo, v.st, v.tr, r) ==> g.st == v.st)
  {
    hide Sound, Create, Grantable, GoalFor, Phantoms, Overshoots, Lookup, Fresh, Shaped;
    SoundPadded(v);
    LeafExact(v.geo, v.n, v.st, v.tr, r);
    Apart(v.geo, v.st, GoalFor(v.geo, v.tr, r), r.env(0));
  }

  lemma SoundPadded(v: Volume)
    requires Sound(v)
    ensures Consistent(v.geo, v.st) && Padded(v.geo, v.st)
  {
  }

  lemma Apart(geo: Geometry, st: State, goal: nat, e: Env)
    requires Consistent(geo, st)
    ensures Grantable(geo, st, goal, e, 0) ==> !Phantoms(geo, st, goal, e) && !Overshoots(geo, st, goal, e)
  {
  }

  /** With room for the block, an addition leaves the volume sound, every block of the directory
      mapped and every mapped block where it was, whether the name goes in or not. */
  lemma AddKeepsBacked(l: L.Layout, d: L.Dir, starts: set<nat>, name: string, ino: nat, v: Volume, r: Request)
    returns (v': Volume)
    requires L.WellFormed(l, d, starts) && I.GoodName(name) && name !in L.Names(d, starts) && ino != 0
    requires Sound(v) && AsksForNext(l, d.size, v.geo, v.n, v.st, v.tr, r) && Backed(l, d.size, v.n, v.tr, r.ino)
    requires NeedsBlock(l, d, name, v.tr, r) ==> RoomFor(v.geo, v.n, v.st, v.tr, r)
    ensures Sound(v') && v'.geo == v.geo && v'.n == v.n && v'.tr.inodes.Keys == v.tr.inodes.Keys && StaysOut(v, v')
    ensures (v'.st, v'.tr) == Prepared(l, d, name, v.geo, v.n, v.st, v.tr, r)
    ensures var err := PrepareError(l, d, name, v.geo, v.n, v.st, v.tr, r);
            Backed(l, I.Insert(l, d, name, ino, err).0.size, v'.n, v'.tr, r.ino)
    ensures forall i, p :: Path(v, i, p) && Lookup(v.tr, i, p) != 0 ==> Lookup(v'.tr, i, p) == Lookup(v.tr, i, p)
  {
    hide L.WellFormed, I.Insert, I.InsertStarts, L.Names, I.StopFrom, Sound, Create, Creatable, RoomFor, StaysOut,
         I.Inserted, GoalFor, Lookup, Domain, Makes, LastBlock, Missing, Served;
    I.GoodDir(l, d, starts);
    var err := PrepareError(l, d, name, v.geo, v.n, v.st, v.tr, r);
    GrowsExact(l, d, starts, name);
    I.InsertExact(l, d, starts, name, ino, err);
    SizeInBlocks(l, d, starts);
    StaysOutSelf(v);
    v' := v;
    if NeedsBlock(l, d, name, v.tr, r) {
      ServedIsCreated(v.geo, v.n, v.st, v.tr, r);
      v' := ServedSound(v, r);
    }
    forall k: nat | k * l.block < I.Insert(l, d, name, ino, err).0.size
      ensures PathOf(v.n, k) != [] && Lookup(v'.tr, r.ino, PathOf(v.n, k)) != 0
    {
      if k * l.block < d.size {
        PathOfBelow(v.n, k, d.size / l.block, l.block, d.size);
      } else {
        BlockBehind(k, l.block, d.size);
      }
    }
  }

  lemma ServedIsCreated(geo: Geometry, n: nat, st: State, tr: Tree, r: Request)
    requires ValidPath(n, r.path) && r.ino in tr.inodes && Lookup(tr, r.ino, r.path) == 0
    requires Creatable(geo, n, st, tr, r) && RoomFor(geo, n, st, tr, r) && Missing(tr, r) == 0
    ensures Asked(geo, n, st, tr, r)
    ensures var g := Create(geo, n, st, tr, r); Served(geo, n, st, tr, r) == (g.st, g.tr)
  {
    hide Creatable, RoomFor, Create, Lookup, ValidPath, Missing, Makes;
  }

  lemma SizeInBlocks(l: L.Layout, d: L.Dir, starts: set<nat>)
    requires L.WellFormed(l, d, starts)
    ensures d.size == d.size / l.block * l.block && l.block > 0
  {
    assert L.IsCut(l, d.size);
  }

  lemma BlockBehind(k: nat, block: nat, size: nat)
    requires block > 0 && size == size / block * block && size <= k * block < size + block
    ensures k == size / block
  {
    DivModUnique(k * block, block, k, 0);
    DivModUnique(k * block, block, size / block, k * block - size);
  }

  lemma PathOfBelow(n: nat, k: nat, j: nat, block: nat, size: nat)
    requires n > 0 && block > 0 && j < Domain(n) && k * block < size && size == j * block
    ensures k < j && PathOf(n, k) != [] && ValidPath(n, PathOf(n, k)) && PathOf(n, k) != PathOf(n, j)
  {
    hide PathOf, ValidPath, Domain;
    if j <= k { MulMono(j, k, block); }
    PathRoundTrip(n, k);
    PathRoundTrip(n, j);
  }

  /** A new file gets its name exactly when some group has a free inode and counts a free block,
      and some record of the directory has room, or the block behind it is mapped, or the block
      allocator takes one or pretends to. The inode search and the block allocator look at the
      same free counts, and the records are those of the directory. */
  lemma NewFileExact(iv: A.Volume, s: V.State, c: V.Call,
                     l: L.Layout, d: L.Dir, starts: set<nat>, v: Volume, r: Request)
    requires V.Joined(iv, s) && V.Permitted(iv, s, c) && W.Settled(iv, s.inodes) && c.NewFile?
    requires c.request.unreadable == {} && c.request.inserted && c.request.freeBlocks == v.st.free
    requires L.WellFormed(l, d, starts) && I.GoodName(c.name)
    requires c.dir in s.fs.dirs && L.Names(d, starts) == s.fs.dirs[c.dir] && r.ino == c.dir
    requires Sound(v) && AsksForNext(l, d.size, v.geo, v.n, v.st, v.tr, r)
    requires c.addErr == PrepareError(l, d, c.name, v.geo, v.n, v.st, v.tr, r)
    ensures |v.st.free| == iv.groups == |s.inodes.used|
    ensures V.Next(iv, s, c).1 == OK <==>
              && (exists g :: 0 <= g < iv.groups && F.Zeros(s.inodes.used[g]) > 0 && v.st.free[g] > 0)
              && (|| RoomInRecords(d, starts, c.name) || Lookup(v.tr, r.ino, r.path) != 0
                  || Grants(v.geo, v.st, v.tr, r) || Pretends(v.geo, v.st, v.tr, r))
  {
    hide L.WellFormed, Sound, Create, Creatable, GoalFor, RoomInRecords, Lookup, V.Joined, L.Names, L.Distinct,
         Grantable, Phantoms, Overshoots, F.Zeros, V.Next, W.Settled;
    V.JoinedValid(iv, s);
    V.NewExact(iv, s, c);
    I.GoodDir(l, d, starts);
    AddExact(l, d, starts, c.name, 1, v, r);
  }
}
