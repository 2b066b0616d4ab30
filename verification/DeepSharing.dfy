/** What a creation does that has to make a pointer array and finds room: the last array is
    never cleared, so the block it is made of decides whether a block gets two owners. */
module DeepSharing {
  import opened Answers
  import opened BlockPath
  import opened BlockAllocatorLaws
  import opened FileTree
  import opened Branch
  import opened FileMapLaws
  import opened BranchPlan
  import opened FileMapCreate

  ghost predicate Shared(v: Volume, tr': Tree, i: nat, p: seq<nat>, j: nat, q: seq<nat>) {
    && Path(v, i, p) && Path(v, j, q) && (i, p) != (j, q)
    && Lookup(tr', i, p) == Lookup(tr', j, q) != 0
  }

  /** Two logical blocks are mapped to one disk block. */
  ghost predicate Shares(v: Volume, tr': Tree) {
    exists i, p, j, q :: Shared(v, tr', i, p, j, q)
  }

  ghost predicate NamesMapped(v: Volume, b: nat, k: nat, ino: nat, p: seq<nat>) {
    Path(v, ino, p) && Lookup(v.tr, ino, p) == Read(v.tr, InBlock(b, k)) != 0
  }

  ghost predicate NamesTwice(v: Volume, b: nat, j: nat, k: nat) {
    j != k && Read(v.tr, InBlock(b, j)) == Read(v.tr, InBlock(b, k)) != 0
  }

  /** The block holds the number of a block some file maps, or one number twice. */
  ghost predicate Clashes(v: Volume, b: nat) {
    || (exists k, ino, p :: NamesMapped(v, b, k, ino, p))
    || (exists j, k :: NamesTwice(v, b, j, k))
  }

  /** In a sound volume nothing is shared. */
  lemma SoundShares(v: Volume, i: nat, p: seq<nat>, j: nat, q: seq<nat>)
    requires Sound(v)
    ensures !Shared(v, v.tr, i, p, j, q)
  {
    hide Shaped, Bitmapped, Cleared, Linked, ValidPath, LevelOf, Read;
    if Shared(v, v.tr, i, p, j, q) {
      assert p[..|p|] == p && q[..|q|] == q;
      PathLevels(v.n, v.tr, v.lv, v.par, i, p, |p|);
      PathLevels(v.n, v.tr, v.lv, v.par, j, q, |q|);
      OneHolder(v.n, v.tr, v.lv, v.par, SlotAt(v.tr, i, p).value, SlotAt(v.tr, j, q).value);
      SlotUnique(v.n, v.tr, v.lv, v.par, i, p, |p|, j, q, |q|);
    }
  }

  /** A creation with room that makes a pointer array leaves two logical blocks on one disk
      block exactly when the block that becomes the last array, as it is before the call,
      holds the number of a mapped block or one number twice. */
  lemma DeepSharesExact(v: Volume, r: Request)
    requires Sound(v) && Path(v, r.ino, r.path) && Lookup(v.tr, r.ino, r.path) == 0
    requires Creatable(v.geo, v.n, v.st, v.tr, r) && Missing(v.tr, r) > 0 && Makes(v.geo, v.n, v.st, v.tr, r)
    ensures RoomFor(v.geo, v.n, v.st, v.tr, r) && Create(v.geo, v.n, v.st, v.tr, r).err == OK
    ensures Shares(v, Create(v.geo, v.n, v.st, v.tr, r).tr) <==>
              Clashes(v, LastBlock(v.geo, v.n, v.st, v.tr, r))
  {
    hide Sound, Consistent, Creatable, Lookup, Missing, Makes, LastBlock, RoomFor, BranchRoom, Create, Read, Shared,
         Path, NamesMapped, NamesTwice, Beside;
    MakesExact(v, r);
    DeepLookups(v, r);
    var g := Create(v.geo, v.n, v.st, v.tr, r);
    var last := LastNew(g);
    if Shares(v, g.tr) {
      var i, p, j, q :| Shared(v, g.tr, i, p, j, q);
      SharedClashes(v, r, g, i, p, j, q);
    }
    if k, ino, p :| NamesMapped(v, last, k, ino, p) {
      MappedShares(v, r, g, k, ino, p);
    } else if j, k :| NamesTwice(v, last, j, k) {
      TwiceShares(v, r, g, j, k);
    }
  }

  /** The lookups after the creation g of a new last array. */
  ghost predicate Shown(v: Volume, r: Request, g: Grown)
    requires r.path != [] && g.news != []
  {
    forall ino, p :: Path(v, ino, p) ==>
      Lookup(g.tr, ino, p) == if Beside(r, ino, p) then Read(v.tr, InBlock(LastNew(g), p[|p| - 1]))
                              else Lookup(v.tr, ino, p)
  }

  lemma SharedClashes(v: Volume, r: Request, g: Grown, i: nat, p: seq<nat>, j: nat, q: seq<nat>)
    requires Sound(v) && Path(v, r.ino, r.path) && g.news != [] && Shown(v, r, g) && Shared(v, g.tr, i, p, j, q)
    ensures Clashes(v, LastNew(g))
  {
    hide Sound, Lookup, Read, ValidPath;
    var last := LastNew(g);
    if Beside(r, i, p) && Beside(r, j, q) {
      assert p == p[..|p| - 1] + [p[|p| - 1]] && q == q[..|q| - 1] + [q[|q| - 1]];
      assert NamesTwice(v, last, p[|p| - 1], q[|q| - 1]);
    } else if Beside(r, i, p) {
      assert NamesMapped(v, last, p[|p| - 1], j, q);
    } else if Beside(r, j, q) {
      assert NamesMapped(v, last, q[|q| - 1], i, p);
    } else {
      SoundShares(v, i, p, j, q);
    }
  }

  lemma MappedShares(v: Volume, r: Request, g: Grown, k: nat, ino: nat, p: seq<nat>)
    requires Sound(v) && Path(v, r.ino, r.path) && Lookup(v.tr, r.ino, r.path) == 0 && Missing(v.tr, r) > 0
    requires g.news != [] && Shown(v, r, g) && NamesMapped(v, LastNew(g), k, ino, p)
    ensures Shares(v, g.tr)
  {
    hide Sound, Lookup, Read, ValidPath, Missing;
    InArray(v, g, k);
    NeighbourHole(v, r, k);
    if Beside(r, ino, p) { NeighbourHoles(v, r, ino, p); }
    assert Shared(v, g.tr, r.ino, Neighbour(r, k), ino, p);
  }

  lemma TwiceShares(v: Volume, r: Request, g: Grown, j: nat, k: nat)
    requires Sound(v) && Path(v, r.ino, r.path) && Lookup(v.tr, r.ino, r.path) == 0 && Missing(v.tr, r) > 0
    requires g.news != [] && Shown(v, r, g) && NamesTwice(v, LastNew(g), j, k)
    ensures Shares(v, g.tr)
  {
    hide Sound, Lookup, Read, ValidPath, Missing;
    InArray(v, g, j);
    InArray(v, g, k);
    NeighbourHole(v, r, j);
    NeighbourHole(v, r, k);
    assert Neighbour(r, j)[|r.path| - 1] == j && Neighbour(r, k)[|r.path| - 1] == k;
    assert Shared(v, g.tr, r.ino, Neighbour(r, j), r.ino, Neighbour(r, k));
  }
}
