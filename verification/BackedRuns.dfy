/** Runs that mix changes to one directory with creations in all files: the directory stays in
    order and every block of it stays mapped, to a block nothing else has. */
module BackedRuns {
  import opened BlockPath
  import opened BlockAllocator
  import opened BlockAllocatorLaws
  import opened FileTree
  import opened Branch
  import opened FileMapLaws
  import opened FileMapCreate
  import opened FileMapRuns
  import opened DirectoryGrowth
  import Log = DirectoryLog
  import Insertion = DirectoryInsert
  import R = DirectoryRuns

  /** A change to the directory, with the request for the block behind its end, or the request
      for a block of some file. */
  datatype Step = Alter(change: R.Change, next: Request) | Fill(request: Request)

  /** The directory and the volume it lies on. */
  datatype World = World(d: Log.Dir, starts: set<nat>, st: State, tr: Tree)

  /** The change is permitted, an added name is prepared by the block layer as it answers, and
      every allocation that comes to be has room. */
  ghost predicate Allowed(l: Log.Layout, dir: nat, geo: Geometry, n: nat, w: World, s: Step) {
    match s
    case Fill(r) => Asked(geo, n, w.st, w.tr, r)
    case Alter(c, r) =>
      && Log.WellFormed(l, w.d, w.starts) && R.Permitted(w.d, w.starts, c)
      && (c.AddName? ==>
            && l.page > 0 && r.ino == dir && AsksForNext(l, w.d.size, geo, n, w.st, w.tr, r)
            && (NeedsBlock(l, w.d, c.name, w.tr, r) ==> RoomFor(geo, n, w.st, w.tr, r))
            && c.prepErr == PrepareError(l, w.d, c.name, geo, n, w.st, w.tr, r))
  }

  ghost function Next(l: Log.Layout, dir: nat, geo: Geometry, n: nat, w: World, s: Step): World
    requires l.page > 0 && l.block > 0 && Allowed(l, dir, geo, n, w, s)
  {
    match s
    case Fill(r) =>
      var a := Served(geo, n, w.st, w.tr, r);
      World(w.d, w.starts, a.0, a.1)
    case Alter(c, r) =>
      var a := if c.AddName? then Prepared(l, w.d, c.name, geo, n, w.st, w.tr, r) else (w.st, w.tr);
      World(R.Changed(l, w.d, c), R.ChangedStarts(l, w.d, w.starts, c), a.0, a.1)
  }

  /** steps lead from w to w', each allowed when its turn comes. */
  ghost predicate Runs(l: Log.Layout, dir: nat, geo: Geometry, n: nat, w: World, steps: seq<Step>, w': World)
    requires l.page > 0 && l.block > 0
    decreases |steps|
  {
    if steps == [] then w' == w
    else
      && Allowed(l, dir, geo, n, w, steps[0])
      && Runs(l, dir, geo, n, Next(l, dir, geo, n, w, steps[0]), steps[1..], w')
  }

  /** The directory is in order, the volume v is sound and w's, and every block of the directory
      is mapped. */
  ghost predicate Holds(l: Log.Layout, dir: nat, w: World, v: Volume) {
    && Log.WellFormed(l, w.d, w.starts) && Sound(v) && v.st == w.st && v.tr == w.tr
    && Backed(l, w.d.size, v.n, w.tr, dir) && dir in w.tr.inodes
  }

  /** What was mapped stays where it was, and what was in use and in no file out of every file. */
  ghost predicate Kept(v: Volume, v': Volume) {
    && v'.geo == v.geo && v'.n == v.n && v'.tr.inodes.Keys == v.tr.inodes.Keys && StaysOut(v, v')
    && forall i, p :: Path(v, i, p) && Lookup(v.tr, i, p) != 0 ==> Lookup(v'.tr, i, p) == Lookup(v.tr, i, p)
  }

  lemma KeptOn(v: Volume, v1: Volume, v2: Volume)
    requires Kept(v, v1) && Kept(v1, v2)
    ensures Kept(v, v2)
  {
    hide StaysOut;
    StaysOutOn(v, v1, v2);
    assert forall i, p :: Path(v, i, p) <==> Path(v1, i, p);
  }

  lemma KeptSelf(v: Volume)
    requires Sound(v)
    ensures Kept(v, v)
  {
    hide Sound;
    StaysOutSelf(v);
  }

  /** A block mapped before is mapped after, so the directory stays backed. */
  lemma BackedStays(l: Log.Layout, size: nat, dir: nat, v: Volume, v': Volume)
    requires Kept(v, v') && Backed(l, size, v.n, v.tr, dir) && dir in v.tr.inodes
    ensures Backed(l, size, v.n, v'.tr, dir)
  {
    hide Lookup, PathOf, StaysOut, Domain;
    forall k: nat | k * l.block < size
      ensures Lookup(v'.tr, dir, PathOf(v.n, k)) != 0
    {
      PathRoundTrip(v.n, k);
      assert Path(v, dir, PathOf(v.n, k));
    }
  }

  lemma FillKeeps(l: Log.Layout, dir: nat, w: World, v: Volume, r: Request) returns (v': Volume)
    requires l.page > 0 && l.block > 0 && Holds(l, dir, w, v) && Allowed(l, dir, v.geo, v.n, w, Fill(r))
    ensures Holds(l, dir, Next(l, dir, v.geo, v.n, w, Fill(r)), v') && Kept(v, v')
  {
    hide Log.WellFormed, Sound, Asked, Served, StaysOut, Backed, Lookup;
    v' := ServedSound(v, r);
    BackedStays(l, w.d.size, dir, v, v');
  }

  lemma AddKeeps(l: Log.Layout, dir: nat, w: World, v: Volume, c: R.Change, r: Request) returns (v': Volume)
    requires l.page > 0 && l.block > 0 && Holds(l, dir, w, v) && c.AddName?
    requires Allowed(l, dir, v.geo, v.n, w, Alter(c, r))
    ensures Holds(l, dir, Next(l, dir, v.geo, v.n, w, Alter(c, r)), v') && Kept(v, v')
  {
    hide Log.WellFormed, Sound, StaysOut, Backed, Lookup, AsksForNext, RoomFor, PrepareError, Prepared, NeedsBlock,
         Insertion.Insert, Log.Names, Insertion.InsertStarts;
    R.ChangeKeeps(l, w.d, w.starts, c);
    v' := AddKeepsBacked(l, w.d, w.starts, c.name, c.ino, v, r);
  }

  /** A deletion or a relinking leaves the size as it is. */
  lemma OtherKeeps(l: Log.Layout, dir: nat, w: World, v: Volume, c: R.Change, r: Request)
    requires l.page > 0 && l.block > 0 && Holds(l, dir, w, v) && !c.AddName?
    requires Allowed(l, dir, v.geo, v.n, w, Alter(c, r))
    ensures Holds(l, dir, Next(l, dir, v.geo, v.n, w, Alter(c, r)), v)
  {
    hide Log.WellFormed, Sound, Lookup, R.Permitted;
    R.ChangeKeeps(l, w.d, w.starts, c);
    assert R.Changed(l, w.d, c).size == w.d.size;
  }

  lemma StepKeeps(l: Log.Layout, dir: nat, w: World, v: Volume, s: Step) returns (v': Volume)
    requires l.page > 0 && l.block > 0 && Holds(l, dir, w, v) && Allowed(l, dir, v.geo, v.n, w, s)
    ensures Holds(l, dir, Next(l, dir, v.geo, v.n, w, s), v') && Kept(v, v')
  {
    hide Holds, Kept, Allowed, Next;
    if s.Fill? {
      v' := FillKeeps(l, dir, w, v, s.request);
    } else if s.change.AddName? {
      v' := AddKeeps(l, dir, w, v, s.change, s.next);
    } else {
      OtherKeeps(l, dir, w, v, s.change, s.next);
      SoundOf(l, dir, w, v);
      KeptSelf(v);
      v' := v;
    }
  }

  lemma SoundOf(l: Log.Layout, dir: nat, w: World, v: Volume)
    requires Holds(l, dir, w, v)
    ensures Sound(v)
  {
  }

  lemma {:induction false} RunHolds(l: Log.Layout, dir: nat, w: World, v: Volume, steps: seq<Step>, w': World)
    returns (v': Volume)
    requires l.page > 0 && l.block > 0 && Holds(l, dir, w, v) && Runs(l, dir, v.geo, v.n, w, steps, w')
    ensures Holds(l, dir, w', v') && Kept(v, v')
    decreases |steps|
  {
    hide Holds, Allowed, Next, StaysOut;
    SoundOf(l, dir, w, v);
    KeptSelf(v);
    v' := v;
    if steps != [] {
      var v1 := StepKeeps(l, dir, w, v, steps[0]);
      v' := RunHolds(l, dir, Next(l, dir, v.geo, v.n, w, steps[0]), v1, steps[1..], w');
      KeptOn(v, v1, v');
    }
  }

  /** After any run each block of the directory is mapped, to a block that is marked in the
      bitmaps, is no metadata, and is mapped by no other logical block of any file; and every
      block that was mapped before is where it was. */
  lemma RunBacked(l: Log.Layout, dir: nat, w: World, v: Volume, steps: seq<Step>, w': World,
                  k: nat, ino: nat, i: nat)
    requires l.page > 0 && l.block > 0 && Holds(l, dir, w, v) && Runs(l, dir, v.geo, v.n, w, steps, w')
    requires k * l.block < w'.d.size && ino in v.tr.inodes && i < Domain(v.n)
    ensures Log.WellFormed(l, w'.d, w'.starts) && Consistent(v.geo, w'.st)
    ensures PathOf(v.n, k) != [] && PathOf(v.n, i) != []
    ensures var c := Lookup(w'.tr, dir, PathOf(v.n, k));
            && c != 0 && Tracked(v.geo, c) && InUse(v.geo, w'.st, c) && !IsMeta(v.geo, c)
            && (c == Lookup(w'.tr, ino, PathOf(v.n, i)) ==> ino == dir && i == k)
    ensures Lookup(v.tr, ino, PathOf(v.n, i)) != 0 ==>
              Lookup(w'.tr, ino, PathOf(v.n, i)) == Lookup(v.tr, ino, PathOf(v.n, i))
  {
    hide Runs, Log.WellFormed, StaysOut, PathOf, Domain, Lookup, ValidPath, Padded, Linked, Cleared, Shaped, InUse,
         IsMeta;
    var v' := RunHolds(l, dir, w, v, steps, w');
    PathRoundTrip(v.n, k);
    PathRoundTrip(v.n, i);
    NoSharing(v.n, w'.tr, v'.lv, v'.par, dir, k, ino, i);
    assert Path(v, ino, PathOf(v.n, i));
  }
}
