/** Whole runs of creating lookups, and where the blocks they take lie. */
module FileMapRuns {
  import opened Answers
  import opened Bits
  import opened BlockPath
  import opened BlockAllocator
  import opened BlockAllocatorLaws
  import opened FileTree
  import opened Branch
  import opened FileMapLaws
  import opened FileMapCreate

  /** The request is one the laws hold for: a hole is to be filled where every allocation that
      comes to be has room and a block that becomes the last array of a branch reads as zeros. */
  ghost predicate Asked(geo: Geometry, n: nat, st: State, tr: Tree, r: Request) {
    && ValidPath(n, r.path) && r.ino in tr.inodes
    && (Lookup(tr, r.ino, r.path) == 0 ==>
          Creatable(geo, n, st, tr, r) && RoomFor(geo, n, st, tr, r) && LastReadsZero(geo, n, st, tr, r))
  }

  /** The state after it: a mapped block is left alone. */
  ghost function Served(geo: Geometry, n: nat, st: State, tr: Tree, r: Request): (State, Tree)
    requires Asked(geo, n, st, tr, r)
  {
    if Lookup(tr, r.ino, r.path) != 0 then (st, tr)
    else var g := Create(geo, n, st, tr, r); (g.st, g.tr)
  }

  /** The requests lead from one state to the other. */
  ghost predicate Runs(geo: Geometry, n: nat, st: State, tr: Tree, reqs: seq<Request>, st': State, tr': Tree)
    decreases |reqs|
  {
    if reqs == [] then st' == st && tr' == tr
    else
      && Asked(geo, n, st, tr, reqs[0])
      && var s := Served(geo, n, st, tr, reqs[0]);
         Runs(geo, n, s.0, s.1, reqs[1..], st', tr')
  }

  /** One request keeps the volume sound, every block that was mapped where it was, and a block
      in use and in no file out of every file; unless it fails the block asked for is mapped
      then, where at most the leaf was missing. */
  lemma ServedSound(v: Volume, r: Request) returns (v': Volume)
    requires Sound(v) && Asked(v.geo, v.n, v.st, v.tr, r)
    ensures var s := Served(v.geo, v.n, v.st, v.tr, r);
            Sound(v') && v'.geo == v.geo && v'.n == v.n && v'.st == s.0 && v'.tr == s.1
    ensures v'.tr.inodes.Keys == v.tr.inodes.Keys && StaysOut(v, v')
    ensures forall ino, p :: Path(v, ino, p) && Lookup(v.tr, ino, p) != 0 ==>
              Lookup(v'.tr, ino, p) == Lookup(v.tr, ino, p)
    ensures Lookup(v.tr, r.ino, r.path) == 0 ==>
              (Missing(v.tr, r) == 0 && Create(v.geo, v.n, v.st, v.tr, r).err == OK ==>
                 Lookup(v'.tr, r.ino, r.path) != 0)
  {
    hide Sound, Creatable, RoomFor, LastReadsZero, Create, Lookup, StaysOut, Missing;
    v' := v;
    assert r.path != [];
    if Lookup(v.tr, r.ino, r.path) == 0 {
      v' := CreateSound(v, r);
    } else {
      StaysOutSelf(v);
    }
  }

  /** Every run keeps the volume sound and every block that was mapped where it was. */
  lemma {:induction false} RunSound(v: Volume, reqs: seq<Request>, st': State, tr': Tree) returns (v': Volume)
    requires Sound(v) && Runs(v.geo, v.n, v.st, v.tr, reqs, st', tr')
    ensures Sound(v') && v'.geo == v.geo && v'.n == v.n && v'.st == st' && v'.tr == tr'
    ensures tr'.inodes.Keys == v.tr.inodes.Keys && StaysOut(v, v')
    ensures forall ino, p :: Path(v, ino, p) && Lookup(v.tr, ino, p) != 0 ==>
              Lookup(tr', ino, p) == Lookup(v.tr, ino, p)
    decreases |reqs|
  {
    hide Sound, Asked, Served, Create, Lookup, StaysOut;
    v' := v;
    StaysOutSelf(v);
    if reqs != [] {
      var v1 := ServedSound(v, reqs[0]);
      v' := RunSound(v1, reqs[1..], st', tr');
      StaysOutOn(v, v1, v');
      assert forall ino, p :: Path(v, ino, p) <==> Path(v1, ino, p);
    }
  }

  lemma StaysOutSelf(v: Volume)
    requires Sound(v)
    ensures StaysOut(v, v)
  {
  }

  lemma StaysOutOn(v: Volume, v1: Volume, v2: Volume)
    requires StaysOut(v, v1) && StaysOut(v1, v2) && v1.geo == v.geo
    ensures StaysOut(v, v2)
  {
    hide InUse, Tracked, Consistent;
  }

  /** After any run, a block mapped by one logical block of one file is mapped by no other,
      is marked in the bitmaps, and is neither a pointer array nor a metadata block. */
  lemma RunSharesNothing(v: Volume, reqs: seq<Request>, st': State, tr': Tree, ino: nat, i: nat, ino': nat, i': nat)
    returns (lv': map<nat, nat>)
    requires Sound(v) && Runs(v.geo, v.n, v.st, v.tr, reqs, st', tr')
    requires ino in v.tr.inodes && ino' in v.tr.inodes && i < Domain(v.n) && i' < Domain(v.n)
    ensures PathOf(v.n, i) != [] && PathOf(v.n, i') != [] && Consistent(v.geo, st')
    ensures var c := Lookup(tr', ino, PathOf(v.n, i));
            c != 0 ==>
              && Tracked(v.geo, c) && InUse(v.geo, st', c) && !IsMeta(v.geo, c)
              && c in lv' && lv'[c] == 0
              && (c == Lookup(tr', ino', PathOf(v.n, i')) ==> ino == ino' && i == i')
    ensures forall s :: LevelOf(v.n, tr', lv', s) > 0 && Read(tr', s) != 0 ==>
              Read(tr', s) in lv' && lv'[Read(tr', s)] == LevelOf(v.n, tr', lv', s)
    ensures Consistent(v.geo, v.st)
    ensures forall b :: Tracked(v.geo, b) && InUse(v.geo, v.st, b) && b !in v.lv ==> b !in lv'
  {
    hide Domain, PathOf, Runs;
    var v' := RunSound(v, reqs, st', tr');
    lv' := v'.lv;
    NoSharing(v.n, tr', v'.lv, v'.par, ino, i, ino', i');
  }

  /** The block a creation finds nearest before it in the same pointer array. */
  function NearestBefore(tr: Tree, r: Request): nat
    requires r.path != [] && Lookup(tr, r.ino, r.path) == 0 && Exists(tr, Hole(tr, r))
  {
    Near(ArrayOf(tr, Hole(tr, r)), Hole(tr, r).at)
  }

  /** A leaf creation takes the first free block after the nearest mapped one before it
      in the same array, when the group of that one has a free block after it. */
  lemma CreateNear(v: Volume, r: Request)
    requires Sound(v) && Path(v, r.ino, r.path) && Lookup(v.tr, r.ino, r.path) == 0
    requires Creatable(v.geo, v.n, v.st, v.tr, r) && RoomFor(v.geo, v.n, v.st, v.tr, r) && Missing(v.tr, r) == 0
    requires NearestBefore(v.tr, r) != 0 && Create(v.geo, v.n, v.st, v.tr, r).err == OK
    ensures var prev, c := NearestBefore(v.tr, r), Create(v.geo, v.n, v.st, v.tr, r).news[0];
            && Tracked(v.geo, prev) && prev < c && v.geo.GroupOf(prev) == v.geo.GroupOf(c)
            && forall b :: prev <= b < c && Tracked(v.geo, b) ==> InUse(v.geo, v.st, b)
  {
    hide Padded, IsMeta, ValidPath, Cleared, FirstZero, InSystemZone, U64, Hi, Lo, Join, Covers, Consistent, Linked,
         Shaped, LevelOf, InUse, HoleAt, SlotAt, Lookup;
    SoundCreatable(v, r);
    var t, prev := Hole(v.tr, r), NearestBefore(v.tr, r);
    var k :| 0 <= k < t.at && ArrayOf(v.tr, t)[k] == prev;
    NearIsInFile(v, t, k);
    var job := JobFor(v.geo, v.n, v.st, v.tr, r);
    assert Build(job, 1) == Begin(v.geo, v.st, v.tr, prev, r.env(0), r.count, r.err);
    NoOverrun(v.geo, v.st, prev, r.env(0));
    FirstFreeAfter(v.geo, v.st, prev, r.env(0).hasFree, r.env(0).readable);
  }

  lemma NearIsInFile(v: Volume, t: Slot, k: nat)
    requires Sound(v) && LevelOf(v.n, v.tr, v.lv, t) == 0 && Exists(v.tr, t) && k < t.at
    requires ArrayOf(v.tr, t)[k] != 0
    ensures var prev := ArrayOf(v.tr, t)[k];
            Tracked(v.geo, prev) && InUse(v.geo, v.st, prev) && U32(prev) == prev
  {
    hide Linked, LevelOf, Padded, IsMeta, Cleared, Shaped, InUse;
    NearIsLinked(v.n, v.tr, v.lv, v.par, t, k);
  }

  lemma NearIsLinked(n: nat, tr: Tree, lv: map<nat, nat>, par: map<nat, Slot>, t: Slot, k: nat)
    requires Linked(n, tr, lv, par) && LevelOf(n, tr, lv, t) == 0 && Exists(tr, t) && k < t.at
    requires ArrayOf(tr, t)[k] != 0
    ensures ArrayOf(tr, t)[k] in lv
  {
    var s := if t.InInode? then InInode(t.ino, k) else InBlock(t.block, k);
    assert Read(tr, s) == ArrayOf(tr, t)[k];
  }

  /** The mapped entries of a pointer array grow from left to right. */
  ghost predicate Rising(slots: seq<nat>) {
    forall i, j :: 0 <= i < j < |slots| && slots[i] != 0 && slots[j] != 0 ==> slots[i] < slots[j]
  }

  /** Filling an array from left to right keeps it ascending: where nothing is mapped from
      the hole on, the new block exceeds every mapped one. */
  lemma FillAscending(v: Volume, r: Request)
    requires Sound(v) && Path(v, r.ino, r.path) && Lookup(v.tr, r.ino, r.path) == 0
    requires Creatable(v.geo, v.n, v.st, v.tr, r) && RoomFor(v.geo, v.n, v.st, v.tr, r) && Missing(v.tr, r) == 0
    requires Create(v.geo, v.n, v.st, v.tr, r).err == OK
    requires Rising(ArrayOf(v.tr, Hole(v.tr, r)))
    requires forall k :: Hole(v.tr, r).at <= k < |ArrayOf(v.tr, Hole(v.tr, r))| ==> ArrayOf(v.tr, Hole(v.tr, r))[k] == 0
    ensures var t, g := Hole(v.tr, r), Create(v.geo, v.n, v.st, v.tr, r);
            && Exists(g.tr, t) && Rising(ArrayOf(g.tr, t))
            && ArrayOf(g.tr, t) == ArrayOf(v.tr, t)[t.at := g.news[0]]
  {
    hide Sound, RoomFor, Create;
    RoomySplice(v, r);
    var t, g := Hole(v.tr, r), Create(v.geo, v.n, v.st, v.tr, r);
    var slots := ArrayOf(v.tr, t);
    var job := JobFor(v.geo, v.n, v.st, v.tr, r);
    assert Build(job, 1) == Begin(v.geo, v.st, v.tr, job.goal, r.env(0), r.count, r.err);
    if NearestBefore(v.tr, r) != 0 {
      CreateNear(v, r);
      var k :| 0 <= k < t.at && slots[k] == NearestBefore(v.tr, r) && forall i :: k < i < t.at ==> slots[i] == 0;
    }
  }

  /** A run of creations that asks for the blocks of one array from slot s on, one after
      another, keeps the array rising where nothing was mapped from s on; whichever of them
      fail. Filling an empty array makes a rising one. */
  lemma {:induction false} RunRises(
    v: Volume, s: Slot, ino: nat, prefix: seq<nat>, reqs: seq<Request>, st': State, tr': Tree)
    requires Sound(v) && Runs(v.geo, v.n, v.st, v.tr, reqs, st', tr')
    requires SlotAt(v.tr, ino, prefix + [s.at]) == Some(s) && Exists(v.tr, s)
    requires forall i: nat :: i < |reqs| ==> reqs[i].ino == ino && reqs[i].path == prefix + [s.at + i]
    requires Rising(ArrayOf(v.tr, s)) && forall k :: s.at <= k < |ArrayOf(v.tr, s)| ==> ArrayOf(v.tr, s)[k] == 0
    ensures Exists(tr', s) && Rising(ArrayOf(tr', s)) && |ArrayOf(tr', s)| == |ArrayOf(v.tr, s)|
    decreases |reqs|
  {
    hide Sound, RoomFor, LastReadsZero, Create, Rising, StaysOut;
    hide ValidPath, Consistent, Shaped, HoleAt, Exists, Creatable, SlotAt, Lookup, Read, ArrayOf, Extends;
    if reqs != [] {
      var r := reqs[0];
      RowFirst(v.tr, s, r);
      var g := Create(v.geo, v.n, v.st, v.tr, r);
      var v1 := CreateSound(v, r);
      FirstRises(v, s, r);
      if |reqs| > 1 {
        var s1 := Shift(s, 1);
        RowNext(v, v1, s, ino, prefix);
        SameArrays(v1.tr, s);
        forall i: nat | i < |reqs[1..]|
          ensures reqs[1..][i].path == prefix + [s1.at + i]
        {
          assert reqs[1..][i] == reqs[i + 1];
        }
        RunRises(v1, s1, ino, prefix, reqs[1..], st', tr');
        SameArrays(tr', s);
      } else {
        assert reqs[1..] == [];
      }
    }
  }

  lemma RowFirst(tr: Tree, s: Slot, r: Request)
    requires r.path != [] && SlotAt(tr, r.ino, r.path) == Some(s) && Exists(tr, s)
    requires forall k :: s.at <= k < |ArrayOf(tr, s)| ==> ArrayOf(tr, s)[k] == 0
    ensures Lookup(tr, r.ino, r.path) == 0 && Hole(tr, r) == s && Missing(tr, r) == 0
  {
    assert r.path[..|r.path|] == r.path;
    assert Read(tr, s) == ArrayOf(tr, s)[s.at];
  }

  lemma FirstRises(v: Volume, s: Slot, r: Request)
    requires Sound(v) && Path(v, r.ino, r.path) && Lookup(v.tr, r.ino, r.path) == 0 && Exists(v.tr, s)
    requires Creatable(v.geo, v.n, v.st, v.tr, r) && RoomFor(v.geo, v.n, v.st, v.tr, r)
    requires Hole(v.tr, r) == s && Missing(v.tr, r) == 0 && Rising(ArrayOf(v.tr, s))
    requires forall k :: s.at <= k < |ArrayOf(v.tr, s)| ==> ArrayOf(v.tr, s)[k] == 0
    ensures var tr' := Create(v.geo, v.n, v.st, v.tr, r).tr;
            && Exists(tr', s) && Rising(ArrayOf(tr', s)) && |ArrayOf(tr', s)| == |ArrayOf(v.tr, s)|
            && Extends(v.tr, tr')
            && forall k :: s.at < k < |ArrayOf(tr', s)| ==> ArrayOf(tr', s)[k] == 0
  {
    hide Sound, RoomFor, Rising, Consistent, Shaped, ValidPath, HoleAt, Goal, Grant;
    var g := Create(v.geo, v.n, v.st, v.tr, r);
    var job := JobFor(v.geo, v.n, v.st, v.tr, r);
    assert Build(job, 1) == Begin(v.geo, v.st, v.tr, job.goal, r.env(0), r.count, r.err);
    assert Read(v.tr, s) == ArrayOf(v.tr, s)[s.at];
    if g.err == OK {
      FillAscending(v, r);
    }
  }

  lemma RowNext(v: Volume, v1: Volume, s: Slot, ino: nat, prefix: seq<nat>)
    requires Sound(v1) && Extends(v.tr, v1.tr) && SlotAt(v.tr, ino, prefix + [s.at]) == Some(s)
    requires Path(v1, ino, prefix + [s.at + 1])
    ensures SlotAt(v1.tr, ino, prefix + [s.at + 1]) == Some(Shift(s, 1)) && Exists(v1.tr, Shift(s, 1))
  {
    hide Shaped, Bitmapped, Cleared, Linked, ValidPath;
    var p, q := prefix + [s.at], prefix + [s.at + 1];
    assert p[..|p| - 1] == prefix == q[..|q| - 1];
    if prefix != [] {
      LookupStable(v.tr, v1.tr, ino, prefix);
    }
    assert q[..|q|] == q;
    PathLevels(v1.n, v1.tr, v1.lv, v1.par, ino, q, |q|);
  }

  lemma SameArrays(tr: Tree, s: Slot)
    requires Exists(tr, Shift(s, 1))
    ensures Exists(tr, s) && ArrayOf(tr, Shift(s, 1)) == ArrayOf(tr, s)
  {
  }

  /** Without room the promise fails: when the goal's group is full from the goal on and
      the last block before the group is in some file, a creation that succeeds maps that
      block a second time. */
  lemma NoRoomShares(v: Volume, r: Request)
    requires Sound(v) && Path(v, r.ino, r.path) && Lookup(v.tr, r.ino, r.path) == 0
    requires Creatable(v.geo, v.n, v.st, v.tr, r) && Missing(v.tr, r) == 0
    requires var p := PlanOf(v.geo, v.st, GoalFor(v.geo, v.tr, r), r.env(0).hasFree, r.env(0).readable);
             p.outcome == Taken && p.block in v.lv
    requires !HasRoom(v.geo, v.st, GoalFor(v.geo, v.tr, r), r.env(0))
    ensures var g, t := Create(v.geo, v.n, v.st, v.tr, r), Hole(v.tr, r);
            && g.err == OK && g.news[0] in v.par && v.par[g.news[0]] != t
            && Read(g.tr, t) == g.news[0] == Read(g.tr, v.par[g.news[0]])
  {
    hide Consistent, Padded, IsMeta, ValidPath, Cleared, FirstZero, InSystemZone, U64, Hi, Lo, Join, Covers, After;
    var job := JobFor(v.geo, v.n, v.st, v.tr, r);
    assert Build(job, 1) == Begin(v.geo, v.st, v.tr, job.goal, r.env(0), r.count, r.err);
  }

  /** A leaf creation that reports success maps a block that is in a file already exactly when
      the goal's group is full from the goal on and the block before the group is in a file. */
  lemma SharesExact(v: Volume, r: Request)
    requires Sound(v) && Path(v, r.ino, r.path) && Lookup(v.tr, r.ino, r.path) == 0
    requires Creatable(v.geo, v.n, v.st, v.tr, r) && Missing(v.tr, r) == 0
    requires PlanOf(v.geo, v.st, GoalFor(v.geo, v.tr, r), r.env(0).hasFree, r.env(0).readable).outcome == Taken
    ensures var goal := GoalFor(v.geo, v.tr, r);
            var p := PlanOf(v.geo, v.st, goal, r.env(0).hasFree, r.env(0).readable);
            var g, first := Create(v.geo, v.n, v.st, v.tr, r), v.geo.FirstBlock(p.group);
            && g.err == OK
            && (g.news[0] in v.lv <==> !HasRoom(v.geo, v.st, goal, r.env(0)) && first > 0 && first - 1 in v.lv)
  {
    hide Padded, IsMeta, ValidPath, Cleared, FirstZero, InSystemZone, U64, Hi, Lo, Join, Covers, After, Linked, Shaped,
         LevelOf;
    var goal := GoalFor(v.geo, v.tr, r);
    var job := JobFor(v.geo, v.n, v.st, v.tr, r);
    assert Build(job, 1) == Begin(v.geo, v.st, v.tr, job.goal, r.env(0), r.count, r.err);
    if HasRoom(v.geo, v.st, goal, r.env(0)) {
      GrantRoom(v.geo, v.st, goal, r.env(0), r.count, r.err);
    } else {
      PhantomBlock(v.geo, v.st, goal, r.env(0).hasFree, r.env(0).readable);
    }
  }
}
