/** The map from files' logical blocks to disk blocks, as the driver keeps it: the
    pointer walk, the contiguous run, and creation under the truncate mutex. */
module FileMap {
  import opened Answers
  import opened Bits
  import opened BlockPath
  import A = BlockAllocator
  import opened BlockAllocatorLaws
  import opened FileTree
  import opened Branch

  /** One link of a walk: a slot and the number read from it. */
  datatype Indirect = Indirect(slot: Slot, key: nat)

  /** chain is the walk along p: complete, or ended by a hole. */
  predicate IsWalk(tr: Tree, ino: nat, p: seq<nat>, chain: seq<Indirect>) {
    && 1 <= |chain| <= |p|
    && (forall j :: 0 <= j < |chain| ==>
          SlotAt(tr, ino, p[..j + 1]) == Some(chain[j].slot) && chain[j].key == Read(tr, chain[j].slot))
    && (forall j :: 0 <= j < |chain| - 1 ==> chain[j].key != 0)
    && (|chain| < |p| ==> chain[|chain| - 1].key == 0)
  }

  /** chain could have been the walk along p at some time: each link lies in the array
      the link before it names, and the last names nothing. */
  predicate Stale(ino: nat, p: seq<nat>, chain: seq<Indirect>) {
    && 1 <= |chain| <= |p|
    && chain[0].slot == InInode(ino, p[0])
    && (forall j :: 0 < j < |chain| ==> chain[j].slot == InBlock(chain[j - 1].key, p[j]))
    && (forall j :: 0 <= j < |chain| - 1 ==> chain[j].key != 0)
    && chain[|chain| - 1].key == 0
  }

  /** A stale chain whose keys still stand is the walk of now. */
  lemma {:induction false} IntactIsWalk(tr: Tree, ino: nat, p: seq<nat>, chain: seq<Indirect>, j: nat)
    requires Stale(ino, p, chain) && j < |chain|
    requires forall k :: 0 <= k < |chain| ==> chain[k].key == Read(tr, chain[k].slot)
    ensures SlotAt(tr, ino, p[..j + 1]) == Some(chain[j].slot)
  {
    if j > 0 {
      IntactIsWalk(tr, ino, p, chain, j - 1);
      assert p[..j + 1][..j] == p[..j];
    }
  }

  lemma StaleIsWalk(tr: Tree, ino: nat, p: seq<nat>, chain: seq<Indirect>)
    requires Stale(ino, p, chain)
    requires forall k :: 0 <= k < |chain| ==> chain[k].key == Read(tr, chain[k].slot)
    ensures IsWalk(tr, ino, p, chain)
  {
    forall j | 0 <= j < |chain|
      ensures SlotAt(tr, ino, p[..j + 1]) == Some(chain[j].slot)
    {
      IntactIsWalk(tr, ino, p, chain, j);
    }
  }

  /** A walk that ends in a hole is a chain to come back with. */
  lemma WalkIsStale(tr: Tree, ino: nat, p: seq<nat>, chain: seq<Indirect>)
    requires IsWalk(tr, ino, p, chain) && chain[|chain| - 1].key == 0
    ensures Stale(ino, p, chain)
  {
    assert p[..1] == [p[0]];
    forall j | 0 < j < |chain|
      ensures chain[j].slot == InBlock(chain[j - 1].key, p[j])
    {
      assert p[..j + 1][..j] == p[..(j - 1) + 1];
    }
  }

  /** Every slot the walk along p comes to can be read. */
  predicate Walkable(tr: Tree, ino: nat, p: seq<nat>) {
    forall j :: 1 <= j <= |p| && SlotAt(tr, ino, p[..j]).Some? ==> Exists(tr, SlotAt(tr, ino, p[..j]).value)
  }

  /** A walk tells whether the path is a hole, and where. */
  lemma WalkDecides(tr: Tree, ino: nat, p: seq<nat>, chain: seq<Indirect>)
    requires IsWalk(tr, ino, p, chain)
    ensures chain[|chain| - 1].key == 0 <==> Lookup(tr, ino, p) == 0
    ensures |chain| == |p| ==> Lookup(tr, ino, p) == chain[|chain| - 1].key
    ensures chain[|chain| - 1].key == 0 ==> |chain| == HoleAt(tr, ino, p)
  {
    assert p[..|p|] == p;
    if chain[|chain| - 1].key == 0 {
      HoleFound(tr, ino, p, |chain|);
    }
  }

  lemma {:induction false} HoleFound(tr: Tree, ino: nat, p: seq<nat>, j: nat)
    requires 1 <= j <= |p| && SlotAt(tr, ino, p[..j]).Some? && Read(tr, SlotAt(tr, ino, p[..j]).value) == 0
    ensures Lookup(tr, ino, p) == 0 && HoleAt(tr, ino, p) == j
    decreases |p|
  {
    if j == |p| {
      assert p[..j] == p;
    } else {
      var q := p[..|p| - 1];
      assert q[..j] == p[..j];
      HoleFound(tr, ino, q, j);
    }
  }

  /** The j-th logical block after `block` is mapped to the j-th disk block after `first`. */
  predicate Maps(n: nat, tr: Tree, ino: nat, block: nat, first: nat, j: nat)
    requires n > 0
  {
    && block + j < Domain(n) && PathOf(n, block + j) != []
    && Lookup(tr, ino, PathOf(n, block + j)) == first + j
  }

  /** `count` blocks from `block` on are mapped one after another from `first` on, within
      the limit; and the run goes on as far as the limit and the pointer array allow. */
  predicate IsRun(n: nat, tr: Tree, ino: nat, block: nat, maxBlocks: nat, count: nat, first: nat)
    requires n > 0
  {
    && 1 <= count && (maxBlocks >= 1 ==> count <= maxBlocks)
    && (forall j :: 0 <= j < count ==> Maps(n, tr, ino, block, first, j))
    && (count < maxBlocks && count <= Boundary(n, block) ==> !Maps(n, tr, ino, block, first, count))
  }

  /** Within the boundary the next logical block is the next slot of the same array. */
  lemma Sibling(n: nat, tr: Tree, ino: nat, block: nat, c: nat, at: Slot)
    requires n > 0 && Shaped(n, tr) && block < Domain(n) && c <= Boundary(n, block) && PathOf(n, block) != []
    requires SlotAt(tr, ino, PathOf(n, block)) == Some(at) && Exists(tr, at)
    ensures at.at + c < |ArrayOf(tr, at)| && (at.InInode? ==> at.at + c < NDIR)
    ensures block + c < Domain(n) && PathOf(n, block + c) != []
    ensures Lookup(tr, ino, PathOf(n, block + c)) == ArrayOf(tr, at)[at.at + c]
  {
    PathRoundTrip(n, block);
    BoundaryReach(n, block, c);
    hide Hi, Lo, Domain, First2, First3;
    var p, q := PathOf(n, block), PathOf(n, block + c);
    assert q[..|q| - 1] == p[..|p| - 1];
  }

  /** The creation leads from one state to the other, with these answers; `junk` is what the
      uninitialised last link of a deep chain holds. */
  ghost predicate Created(geo: A.Geometry, n: nat, st: A.State, tr: Tree, r: Request, junk: nat,
                          st': A.State, tr': Tree, ret: int, mapped: nat, isNew: bool) {
    && Creatable(geo, n, st, tr, r)
    && var g := Create(geo, n, st, tr, r);
       && tr' == g.tr && st' == g.st && ret == (if g.err != OK then g.err else g.num) && isNew == (g.err == OK)
       && (g.err == OK ==> mapped == if Missing(tr, r) == 0 then g.news[0] else junk)
  }

  class FileBlocks {
    const n: nat
    ghost const log: nat
    const alloc: A.Allocator
    var inodes: map<nat, seq<nat>>
    var blocks: map<nat, seq<nat>>

    function Now(): Tree
      reads this
    {
      Tree(inodes, blocks)
    }

    ghost predicate Valid()
      reads this, alloc, alloc.bitmaps
    {
      && NDIR < n && PointerCount(n, log)
      && alloc.Valid() && Shaped(n, Now())
    }

    constructor (n: nat, ghost log: nat, alloc: A.Allocator, inodes: map<nat, seq<nat>>, blocks: map<nat, seq<nat>>)
      requires PointerCount(n, log)
      requires alloc.Valid() && Shaped(n, Tree(inodes, blocks))
      ensures Valid() && this.n == n && this.alloc == alloc && Now() == Tree(inodes, blocks)
    {
      this.n, this.log, this.alloc, this.inodes, this.blocks := n, log, alloc, inodes, blocks;
    }

    /** The state and the variables of a branch allocation are those of g. */
    ghost predicate At(g: Grown, news: seq<nat>, num: nat, count: nat, err: int)
      reads this, alloc, alloc.bitmaps
    {
      g == Grown(alloc.Now(), Now(), news, count, num, err)
    }

    /** Stores a block number in a slot. */
    method Store(s: Slot, v: nat)
      requires Exists(Now(), s)
      modifies this
      ensures Now() == Write(old(Now()), s, v)
      ensures old(Shaped(n, Now())) ==> Shaped(n, Now())
    {
      match s
      case InInode(i, k) =>
        var slots: seq<nat> := inodes[i][k := v];
        inodes := inodes[i := slots];
      case InBlock(b, k) =>
        var slots: seq<nat> := blocks[b][k := v];
        blocks := blocks[b := slots];
    }

    /** Follows the path until it ends or meets a hole. */
    method GetBranch(ino: nat, path: seq<nat>) returns (chain: seq<Indirect>)
      requires path != []
      ensures IsWalk(Now(), ino, path, chain)
    {
      var s := InInode(ino, path[0]);
      assert path[..1] == [path[0]];
      chain := [Indirect(s, Read(Now(), s))];
      while |chain| < |path| && chain[|chain| - 1].key != 0
        invariant 1 <= |chain| <= |path|
        invariant forall j :: 0 <= j < |chain| ==>
                    SlotAt(Now(), ino, path[..j + 1]) == Some(chain[j].slot)
                    && chain[j].key == Read(Now(), chain[j].slot)
        invariant forall j :: 0 <= j < |chain| - 1 ==> chain[j].key != 0
      {
        assert path[..|chain| + 1][..|chain|] == path[..|chain|];
        s := InBlock(chain[|chain| - 1].key, path[|chain|]);
        chain := chain + [Indirect(s, Read(Now(), s))];
      }
    }

    /** Whether every key of the chain still stands. */
    method VerifyIndirectChain(chain: seq<Indirect>) returns (ok: bool)
      ensures ok <==> forall j :: 0 <= j < |chain| ==> chain[j].key == Read(Now(), chain[j].slot)
    {
      var from := 0;
      while from < |chain| && chain[from].key == Read(Now(), chain[from].slot)
        invariant from <= |chain|
        invariant forall j :: 0 <= j < from ==> chain[j].key == Read(Now(), chain[j].slot)
      {
        from := from + 1;
      }
      ok := from == |chain|;
    }

    /** Scans the slot's array backwards for a mapped block. */
    method FindNear(s: Slot, group: nat, pid: nat) returns (goal: nat)
      requires Exists(Now(), s)
      ensures U32(goal) == Goal(alloc.geo, Now(), s, group, pid)
    {
      var slots := ArrayOf(Now(), s);
      var cur: nat := s.at;
      while cur > 0
        invariant cur <= |slots| && Near(slots, cur) == Near(slots, s.at)
      {
        cur := cur - 1;
        if slots[cur] != 0 {
          return slots[cur];
        }
      }
      if s.InBlock? {
        return s.block;
      }
      goal := alloc.geo.FirstBlock(group) + Colour(pid, alloc.geo.perGroup);
    }

    /** Empties a block and stores one entry in it. */
    method StartArray(block: nat, at: nat, v: nat)
      requires Shaped(n, Now()) && at < n
      modifies this
      ensures Shaped(n, Now())
      ensures Now() == old(Now()).(blocks := old(blocks)[block := OneEntry(n, at, v)])
    {
      var zeros: seq<nat> := seq(n, _ => 0);
      blocks := blocks[block := zeros];
      Store(InBlock(block, at), v);
      assert zeros[at := v] == OneEntry(n, at, v);
    }

    /** One round: allocate a block, empty the array made in the round before and store
        the new block there. */
    method Round(ghost job: Job, ghost ind: nat, news: seq<nat>, num: nat, count: nat, goal: nat, e: Env, at: nat)
      returns (news': seq<nat>, num': nat, count': nat, err: int)
      requires Valid() && job.Ready() && job.Reach(ind + 1) && 1 <= ind
      requires job.geo == alloc.geo && job.n == n && job.goal == goal && job.env(ind) == e && job.offs[ind] == at
      requires At(Build(job, ind), news, num, count, OK)
      modifies this, alloc, alloc.bitmaps
      ensures Valid()
      ensures At(Build(job, ind + 1), news', num', count', err)
    {
      hide PointerCount, A.Covers, A.PlanOf, A.After, A.Answer, Begin, Consistent, Shaped, OneEntry;
      var r := alloc.NewBlocks(goal, count, OK, e.hasFree, e.readable);
      if r.err != OK {
        return news, num, count, ENOMEM;
      }
      StartArray(news[|news| - 1], at, r.block);
      return news + [r.block], num + 1, r.count, OK;
    }

    /** The first block of a branch, and the variables the loop starts with. */
    method BeginBranch(ghost job: Job, goal: nat, e: Env, count0: nat, err0: int)
      returns (news: seq<nat>, num: nat, count: nat, err: int)
      requires Valid() && job.Ready()
      requires job == Job(alloc.geo, n, alloc.Now(), Now(), goal, job.env, count0, err0, job.offs) && job.env(0) == e
      modifies this, alloc, alloc.bitmaps
      ensures Valid() && At(Build(job, 1), news, num, count, err)
    {
      var r := alloc.NewBlocks(goal, count0, err0, e.hasFree, e.readable);
      return [r.block], r.count, r.count, r.err;
    }

    /** One block, then further levels. The loop stops one round short of the data block
        as soon as an array is missing. */
    method AllocBranch(missing: nat, ghost job: Job, goal: nat, offs: seq<nat>, env: nat -> Env, count0: nat, err0: int)
      returns (news: seq<nat>, num: nat, count: nat, err: int)
      requires Valid() && job.Ready() && job.Reach(Rounds(missing))
      requires job == Job(alloc.geo, n, alloc.Now(), Now(), goal, env, count0, err0, offs)
      modifies this, alloc, alloc.bitmaps
      ensures Valid() && At(Build(job, Rounds(missing)), news, num, count, err)
    {
      hide *;
      ReachAll(job, missing);
      news, num, count, err := BeginBranch(job, goal, env(0), count0, err0);
      var ind := 1;
      while err == OK && ind < missing
        invariant Valid() && 1 <= ind <= Rounds(missing)
        invariant At(Build(job, ind), news, num, count, err)
        decreases missing - ind
      {
        ReachIndex(job, ind);
        news, num, count, err := Round(job, ind, news, num, count, goal, env(ind), offs[ind]);
        ind := ind + 1;
      }
      assert err == Build(job, ind).err by { AtErr(Build(job, ind), news, num, count, err); }
      BuildStops(job, ind, Rounds(missing));
    }

    /** Counts the blocks mapped in one piece from a mapped block on. It stays within the
        pointer array of that block: the slots read all exist, and in an inode none of
        them is the slot of an array. */
    method CountRun(ino: nat, block: nat, maxBlocks: nat, boundary: nat, at: Slot, first: nat) returns (count: nat)
      requires Valid() && ino in inodes && block < Domain(n) && boundary == Boundary(n, block)
      requires PathOf(n, block) != []
      requires SlotAt(Now(), ino, PathOf(n, block)) == Some(at) && first == Read(Now(), at) != 0 && Exists(Now(), at)
      ensures IsRun(n, Now(), ino, block, maxBlocks, count, first)
    {
      hide PathOf, Domain, PointerCount, Boundary;
      count := 1;
      var slots := ArrayOf(Now(), at);
      assert block + 0 == block && Maps(n, Now(), ino, block, first, 0);
      while count < maxBlocks && count <= boundary
        invariant 1 <= count <= boundary + 1 && (maxBlocks >= 1 ==> count <= maxBlocks)
        invariant forall j :: 0 <= j < count ==> Maps(n, Now(), ino, block, first, j)
        decreases boundary + 1 - count
      {
        Sibling(n, Now(), ino, block, count, at);
        if slots[at.at + count] != first + count {
          return;
        }
        count := count + 1;
      }
    }

    /** The creating half of a lookup, under the truncate mutex. `stale` is the chain the
        thread walked before it took the mutex: other threads may have filled the hole
        since. */
    method CreateLocked(ino: nat, path: seq<nat>, stale: seq<Indirect>, group: nat, pid: nat, env: nat -> Env,
                        count0: nat, err0: int, junk: nat)
      returns (ret: int, mapped: nat, isNew: bool)
      requires Valid() && ino in inodes && ValidPath(n, path) && Stale(ino, path, stale)
      requires Lookup(Now(), ino, path) == 0 ==>
                 Creatable(alloc.geo, n, alloc.Now(), Now(), Request(ino, path, group, pid, env, count0, err0))
      modifies this, alloc, alloc.bitmaps
      ensures Valid()
      ensures old(Lookup(Now(), ino, path)) != 0 ==>
                && Now() == old(Now()) && alloc.Now() == old(alloc.Now())
                && ret == 1 && mapped == old(Lookup(Now(), ino, path)) && !isNew
      ensures old(Lookup(Now(), ino, path)) == 0 ==>
                Created(alloc.geo, n, old(alloc.Now()), old(Now()),
                        Request(ino, path, group, pid, env, count0, err0), junk, alloc.Now(), Now(), ret, mapped, isNew)
    {
      hide PointerCount, A.Covers, Build, PathOf, Create, Creatable, A.Geometry.Valid, A.ValidState, Consistent,
          Shaped, Lookup, SlotAt, Missing, ValidPath, Created;
      var chain := stale;
      var intact := VerifyIndirectChain(chain);
      if !intact {
        chain := GetBranch(ino, path);
        WalkDecides(Now(), ino, path, chain);
        if chain[|chain| - 1].key != 0 {
          return 1, chain[|chain| - 1].key, false;
        }
      } else {
        StaleIsWalk(Now(), ino, path, chain);
        WalkDecides(Now(), ino, path, chain);
      }
      ret, mapped, isNew := FillHole(ino, path, chain, group, pid, env, count0, err0, junk);
    }

    /** Grows a branch for the hole that ends the walk, and splices it in. */
    method FillHole(ino: nat, path: seq<nat>, chain: seq<Indirect>, group: nat, pid: nat, env: nat -> Env,
                    count0: nat, err0: int, junk: nat)
      returns (ret: int, mapped: nat, isNew: bool)
      requires Valid() && ino in inodes && ValidPath(n, path) && IsWalk(Now(), ino, path, chain)
      requires chain[|chain| - 1].key == 0 && Lookup(Now(), ino, path) == 0 && HoleAt(Now(), ino, path) == |chain|
      requires Creatable(alloc.geo, n, alloc.Now(), Now(), Request(ino, path, group, pid, env, count0, err0))
      modifies this, alloc, alloc.bitmaps
      ensures Valid()
      ensures Created(alloc.geo, n, old(alloc.Now()), old(Now()),
                      Request(ino, path, group, pid, env, count0, err0), junk, alloc.Now(), Now(), ret, mapped, isNew)
    {
      hide PointerCount, A.Covers, Consistent, Shaped, ValidPath, Goal, Build, A.ValidState, A.Geometry.Valid;
      ghost var r := Request(ino, path, group, pid, env, count0, err0);
      ghost var job := JobFor(alloc.geo, n, alloc.Now(), Now(), r);
      HoleStays(alloc.geo, n, alloc.Now(), Now(), r);
      var hole := chain[|chain| - 1].slot;
      var goal := FindNear(hole, group, pid);
      var missing := |path| - |chain|;
      var news, num, count, err := AllocBranch(missing, job, U32(goal), path[|chain| - 1..], env, count0, err0);
      if err != OK {
        return err, 0, false;
      }
      assert missing == Missing(old(Now()), r) && hole == Hole(old(Now()), r);
      SpliceBranch(hole, news[0], missing, num);
      return num, if missing == 0 then news[0] else junk, true;
    }

    /** Hangs a branch into the hole. Where no array was missing, further blocks are stored
        one after another, the first of them over the branch's own; the array ends the loop. */
    method SpliceBranch(hole: Slot, first: nat, missing: nat, blks: nat)
      requires Exists(Now(), hole)
      modifies this
      ensures Now() == Splice(old(Now()), hole, first, missing, blks)
      ensures old(Shaped(n, Now())) ==> Shaped(n, Now())
    {
      Store(hole, first);
      if missing == 0 && 1 < blks {
        ghost var spliced := Now();
        var size := |ArrayOf(Now(), hole)|;
        var i := 0;
        SpreadNone(spliced, hole, first + 1);
        while i < blks && hole.at + i < size
          invariant i <= blks && hole.at + i <= size == |ArrayOf(spliced, hole)|
          invariant Now() == Spread(spliced, hole, first + 1, i)
          invariant old(Shaped(n, Now())) ==> Shaped(n, Now())
        {
          SpreadMore(spliced, hole, first + 1, i);
          Store(Shift(hole, i), first + 1 + i);
          i := i + 1;
        }
        SpreadAll(spliced, hole, first + 1, i, blks);
      }
    }

    /** Looks a logical block up and, when asked, fills its hole. */
    method GetBlocks(ino: nat, block: nat, maxBlocks: nat, create: bool, group: nat, pid: nat, env: nat -> Env,
                     count0: nat, err0: int, junk: nat)
      returns (ret: int, mapped: nat, isNew: bool)
      requires Valid() && ino in inodes && Walkable(Now(), ino, PathOf(n, block))
      modifies this, alloc, alloc.bitmaps
      ensures Valid()
      ensures Domain(n) <= block ==> ret == EIO && Now() == old(Now()) && alloc.Now() == old(alloc.Now())
      ensures block < Domain(n) ==> PathOf(n, block) != [] && ValidPath(n, PathOf(n, block))
      ensures block < Domain(n) && (!create || old(Lookup(Now(), ino, PathOf(n, block))) != 0) ==>
                && Now() == old(Now()) && alloc.Now() == old(alloc.Now()) && !isNew
                && mapped == Lookup(Now(), ino, PathOf(n, block))
                && (if mapped == 0 then ret == 0 else ret >= 0 && IsRun(n, Now(), ino, block, maxBlocks, ret, mapped))
      ensures block < Domain(n) && create && old(Lookup(Now(), ino, PathOf(n, block))) == 0 ==>
                Created(alloc.geo, n, old(alloc.Now()), old(Now()),
                        Request(ino, PathOf(n, block), group, pid, env, count0, err0), junk,
                        alloc.Now(), Now(), ret, mapped, isNew)
    {
      hide PointerCount, A.Covers, Build, Boundary, Domain, PathOf, Create, IsRun, Stale, A.Geometry.Valid,
          A.ValidState;
      PathRoundTrip(n, block);
      var offsets := new nat[4];
      var depth, boundary := BlockToPath(n, log, block, offsets);
      if depth == 0 {
        return EIO, 0, false;
      }
      var path := offsets[..depth];
      var chain := GetBranch(ino, path);
      WalkDecides(Now(), ino, path, chain);
      var last := chain[|chain| - 1];
      assert path[..|chain|] == path[..(|chain| - 1) + 1];
      if last.key != 0 {
        assert path[..|path|] == path;
        BoundaryEnd(n, block);
        ret := CountRun(ino, block, maxBlocks, boundary, last.slot, last.key);
        return ret, last.key, false;
      }
      if !create {
        return 0, 0, false;
      }
      WalkIsStale(Now(), ino, path, chain);
      ret, mapped, isNew := CreateLocked(ino, path, chain, group, pid, env, count0, err0, junk);
    }

    lemma AtErr(g: Grown, news: seq<nat>, num: nat, count: nat, err: int)
      requires At(g, news, num, count, err)
      ensures err == g.err
    {
    }
  }

  lemma SpreadNone(tr: Tree, t: Slot, first: nat)
    requires Exists(tr, t)
    ensures Spread(tr, t, first, 0) == tr
  {
    assert Filled(ArrayOf(tr, t), t.at, first, 0) == ArrayOf(tr, t);
  }

  lemma SpreadMore(tr: Tree, t: Slot, first: nat, i: nat)
    requires Exists(tr, t) && t.at + i < |ArrayOf(tr, t)|
    ensures Exists(Spread(tr, t, first, i), Shift(t, i))
    ensures Spread(tr, t, first, i + 1) == Write(Spread(tr, t, first, i), Shift(t, i), first + i)
  {
    var slots := ArrayOf(tr, t);
    assert Filled(slots, t.at, first, i + 1) == Filled(slots, t.at, first, i)[t.at + i := first + i];
  }

  lemma SpreadAll(tr: Tree, t: Slot, first: nat, i: nat, blks: nat)
    requires Exists(tr, t) && i <= blks && (i < blks ==> |ArrayOf(tr, t)| <= t.at + i)
    ensures Spread(tr, t, first, i) == Spread(tr, t, first, blks)
  {
    assert Filled(ArrayOf(tr, t), t.at, first, i) == Filled(ArrayOf(tr, t), t.at, first, blks);
  }

  lemma ReachIndex(job: Job, ind: nat)
    requires 1 <= ind && job.Reach(ind + 1)
    ensures ind < |job.offs|
  {
  }

  lemma ReachAll(job: Job, missing: nat)
    requires job.Reach(Rounds(missing))
    ensures forall i: nat :: 1 <= i <= Rounds(missing) ==> job.Reach(i)
    ensures 1 <= Rounds(missing)
    ensures (missing <= 1 ==> Rounds(missing) == 1) && (missing >= 1 ==> Rounds(missing) == missing)
  {
  }

  /** Once a round has failed the later rounds add nothing. */
  lemma {:induction false} BuildStops(job: Job, at: nat, upto: nat)
    requires job.Ready() && 1 <= at <= upto && job.Reach(upto)
    ensures at == upto || Build(job, at).err != OK ==> Build(job, upto) == Build(job, at)
    decreases upto
  {
    hide Extend, Begin, Shaped, Consistent;
    if at < upto {
      BuildStops(job, at, upto - 1);
    }
  }
}
