/** Creation keeps the volume sound: every block in a file has one parent slot, is marked
    in the bitmaps, and is no metadata block; a creation maps at most the block asked for. */
module FileMapLaws {
  import opened Answers
  import opened Bits
  import opened BlockPath
  import opened BlockAllocator
  import opened BlockAllocatorLaws
  import opened FileTree
  import opened Branch

  /** The volume with the level and the parent slot of every block in a file; `blank` when
      its free blocks are known to read as zeros. */
  datatype Volume = Volume(
    geo: Geometry, n: nat, st: State, tr: Tree, lv: map<nat, nat>, par: map<nat, Slot>, blank: bool)

  /** block is a bitmap or an inode-table block of some group. */
  ghost predicate IsMeta(geo: Geometry, block: nat) {
    exists g :: 0 <= g < |geo.groups| && !SystemFree(geo, g, block)
  }

  ghost predicate Bitmapped(v: Volume) {
    && Consistent(v.geo, v.st) && Padded(v.geo, v.st)
    && (forall b :: b in v.lv ==> Tracked(v.geo, b) && InUse(v.geo, v.st, b) && !IsMeta(v.geo, b))
    && (forall b :: Tracked(v.geo, b) && IsMeta(v.geo, b) ==> InUse(v.geo, v.st, b))
  }

  /** Every block of the volume can be read, and free blocks read as zeros if it is blank. */
  ghost predicate Cleared(v: Volume)
    requires Consistent(v.geo, v.st)
  {
    && (forall b :: Tracked(v.geo, b) ==> b in v.tr.blocks)
    && (v.blank ==> forall b, k :: Tracked(v.geo, b) && !InUse(v.geo, v.st, b) ==> Read(v.tr, InBlock(b, k)) == 0)
  }

  ghost predicate Sound(v: Volume) {
    && v.n > 0 && Shaped(v.n, v.tr) && Linked(v.n, v.tr, v.lv, v.par)
    && Bitmapped(v) && Cleared(v)
  }

  ghost predicate ReadsZero(tr: Tree, c: nat) {
    forall k :: Read(tr, InBlock(c, k)) == 0
  }

  /** A volume whose files hold no blocks yet is sound once its metadata is marked. */
  lemma NoFilesSound(v: Volume)
    requires v.n > 0 && Shaped(v.n, v.tr) && v.lv == map[] && v.par == map[]
    requires forall i, k :: Read(v.tr, InInode(i, k)) == 0
    requires Consistent(v.geo, v.st) && Padded(v.geo, v.st) && Cleared(v)
    requires forall b :: Tracked(v.geo, b) && IsMeta(v.geo, b) ==> InUse(v.geo, v.st, b)
    ensures Sound(v)
  {
    hide Padded, IsMeta, Shaped, InUse, Cleared, Consistent;
    assert forall s: Slot :: LevelOf(v.n, v.tr, v.lv, s) >= 0 ==> Read(v.tr, s) == 0;
    InodeShape(v.n, v.tr);
  }

  lemma InodeShape(n: nat, tr: Tree)
    requires Shaped(n, tr)
    ensures forall i :: i in tr.inodes ==> |tr.inodes[i]| == NSLOTS
  {
  }

  /** t is a hole of some file and c a block of none, empty if it is to be an array. */
  ghost predicate Fits(n: nat, tr: Tree, lv: map<nat, nat>, t: Slot, c: nat) {
    && LevelOf(n, tr, lv, t) >= 0 && Exists(tr, t) && Read(tr, t) == 0
    && c != 0 && c !in lv && c in tr.blocks && (LevelOf(n, tr, lv, t) > 0 ==> ReadsZero(tr, c))
  }

  lemma LevelAfter(n: nat, tr: Tree, lv: map<nat, nat>, t: Slot, c: nat, s: Slot)
    requires Shaped(n, tr) && Fits(n, tr, lv, t, c)
    ensures var tr', lv' := Write(tr, t, c), lv[c := LevelOf(n, tr, lv, t)];
            && (LevelOf(n, tr, lv, s) >= 0 ==> LevelOf(n, tr', lv', s) == LevelOf(n, tr, lv, s))
            && (LevelOf(n, tr', lv', s) >= 0 && Read(tr', s) != 0 ==> LevelOf(n, tr, lv, s) >= 0)
  {
  }

  /** Hanging a fitting block into a hole keeps the links. */
  lemma Attach(n: nat, tr: Tree, lv: map<nat, nat>, par: map<nat, Slot>, t: Slot, c: nat)
    requires Shaped(n, tr) && Linked(n, tr, lv, par) && Fits(n, tr, lv, t, c)
    ensures Linked(n, Write(tr, t, c), lv[c := LevelOf(n, tr, lv, t)], par[c := t])
  {
    hide LevelOf, Shaped;
    var tr', lv', par' := Write(tr, t, c), lv[c := LevelOf(n, tr, lv, t)], par[c := t];
    AttachShape(n, tr, lv, par, t, c);
    forall s: Slot | LevelOf(n, tr', lv', s) >= 0 && Read(tr', s) != 0
      ensures Read(tr', s) in lv' && lv'[Read(tr', s)] == LevelOf(n, tr', lv', s)
      ensures Read(tr', s) in par' && par'[Read(tr', s)] == s
    {
      LevelAfter(n, tr, lv, t, c, s);
    }
    forall b | b in lv'
      ensures b != 0 && b in par' && LevelOf(n, tr', lv', par'[b]) == lv'[b] && Read(tr', par'[b]) == b
    {
      LevelAfter(n, tr, lv, t, c, par'[b]);
    }
  }

  lemma AttachShape(n: nat, tr: Tree, lv: map<nat, nat>, par: map<nat, Slot>, t: Slot, c: nat)
    requires Shaped(n, tr) && Linked(n, tr, lv, par) && Fits(n, tr, lv, t, c)
    ensures var tr', lv' := Write(tr, t, c), lv[c := LevelOf(n, tr, lv, t)];
            && (forall i :: i in tr'.inodes ==> |tr'.inodes[i]| == NSLOTS)
            && (forall b :: b in lv' && lv'[b] >= 1 ==> b in tr'.blocks && |tr'.blocks[b]| == n)
            && Shaped(n, tr')
  {
  }

  /** After a block c is hung into the hole at the end of path q, a walk either goes as
      before, or enters the empty block c and finds nothing, as it found nothing before. */
  lemma {:induction false} WalkAfter(n: nat, tr: Tree, t: Slot, c: nat, ino: nat, p: seq<nat>)
    requires Exists(tr, t) && Read(tr, t) == 0 && c != 0 && p != []
    requires ReadsZero(tr, c) && (t.InBlock? ==> t.block != c)
    ensures var tr' := Write(tr, t, c);
            || SlotAt(tr', ino, p) == SlotAt(tr, ino, p)
            || (SlotAt(tr, ino, p) == None
                && (SlotAt(tr', ino, p) == None || Read(tr', SlotAt(tr', ino, p).value) == 0))
    decreases |p|
  {
    if |p| > 1 {
      WalkAfter(n, tr, t, c, ino, p[..|p| - 1]);
    }
  }

  /** What lookups give after a block is hung into the hole of slot t: the block itself
      where t is the end of a whole path, else what they gave before. */
  lemma LookupAfter(n: nat, tr: Tree, t: Slot, c: nat, ino: nat, p: seq<nat>)
    requires Exists(tr, t) && Read(tr, t) == 0 && c != 0 && p != []
    requires ReadsZero(tr, c) && (t.InBlock? ==> t.block != c)
    ensures Lookup(Write(tr, t, c), ino, p) == if SlotAt(tr, ino, p) == Some(t) then c else Lookup(tr, ino, p)
  {
    WalkAfter(n, tr, t, c, ino, p);
    LookupStable(tr, Write(tr, t, c), ino, p);
  }

  /** The bitmaps of st' mark at least what those of st mark. */
  ghost predicate Marks(geo: Geometry, st: State, st': State)
    requires Consistent(geo, st)
  {
    && Consistent(geo, st') && Padded(geo, st')
    && forall b :: Tracked(geo, b) && InUse(geo, st, b) ==> InUse(geo, st', b)
  }

  ghost predicate Fresh(geo: Geometry, st: State, st': State, c: nat)
    requires Consistent(geo, st) && Consistent(geo, st')
  {
    c != 0 && Tracked(geo, c) && !InUse(geo, st, c) && InUse(geo, st', c)
  }

  /** A call with room either fails or grants a fresh block; marks are never lost. */
  lemma GrantRoom(geo: Geometry, st: State, goal: nat, e: Env, count: nat, err: int)
    requires Consistent(geo, st) && Padded(geo, st) && HasRoom(geo, st, goal, e)
    ensures var (st', a) := Grant(geo, st, goal, e, count, err);
            Marks(geo, st, st') && (a.err == OK ==> Fresh(geo, st, st', a.block))
  {
    hide Covers, Hi, Lo, Join, FirstZero, U16, U64, InSystemZone, Padded, Target;
    var p := PlanOf(geo, st, goal, e.hasFree, e.readable);
    NextConsistent(geo, st, goal, e.hasFree, e.readable);
    NextMarks(geo, st, goal, e.hasFree, e.readable);
    NoOverrun(geo, st, goal, e);
    if p.outcome == Taken {
      TakenIsFresh(geo, st, goal, e.hasFree, e.readable);
    }
  }

  lemma NextMarks(geo: Geometry, st: State, goal: nat, hasFree: bool, readable: bool)
    requires Consistent(geo, st)
    ensures var st' := Next(geo, st, goal, hasFree, readable);
            forall b :: Tracked(geo, b) && InUse(geo, st, b) ==> InUse(geo, st', b)
  {
    hide Covers, Hi, Lo, Join, FirstZero, U16, U64, PlanOf;
    forall b | Tracked(geo, b) && InUse(geo, st, b)
      ensures InUse(geo, Next(geo, st, goal, hasFree, readable), b)
    {
      BlockPosition(geo, b);
    }
  }

  /** With room, and padding marked, no block past the end of the volume is found. */
  lemma NoOverrun(geo: Geometry, st: State, goal: nat, e: Env)
    requires Consistent(geo, st) && Padded(geo, st) && HasRoom(geo, st, goal, e)
    ensures PlanOf(geo, st, goal, e.hasFree, e.readable).outcome != OutOfVolume
  {
    hide Covers, Hi, Lo, Join, FirstZero, U64, InSystemZone;
    var p := PlanOf(geo, st, goal, e.hasFree, e.readable);
    if 0 <= p.bit {
      PlainNumbers(geo, p.group, p.bit);
      U64Fits(p.block);
    }
  }

  lemma SoundGrow(v: Volume, st': State)
    requires Sound(v) && Marks(v.geo, v.st, st')
    ensures Sound(v.(st := st'))
  {
  }

  ghost predicate Path(v: Volume, ino: nat, p: seq<nat>) {
    p != [] && ino in v.tr.inodes && ValidPath(v.n, p)
  }

  /** Walks go through arrays of files only: a change elsewhere does not turn them. */
  lemma {:induction false} WalkFrame(v: Volume, tr': Tree, ino: nat, p: seq<nat>, j: nat)
    requires Sound(v) && Path(v, ino, p) && 1 <= j <= |p|
    requires forall s :: LevelOf(v.n, v.tr, v.lv, s) > 0 ==> Read(tr', s) == Read(v.tr, s)
    ensures SlotAt(tr', ino, p[..j]) == SlotAt(v.tr, ino, p[..j])
  {
    hide Shaped, Bitmapped, Cleared;
    if j > 1 {
      assert p[..j][..j - 1] == p[..j - 1];
      WalkFrame(v, tr', ino, p, j - 1);
      if SlotAt(v.tr, ino, p[..j - 1]).Some? {
        PathLevels(v.n, v.tr, v.lv, v.par, ino, p, j - 1);
      }
    }
  }

  function Attached(v: Volume, st': State, t: Slot, c: nat): Volume
    requires LevelOf(v.n, v.tr, v.lv, t) >= 0 && Exists(v.tr, t)
  {
    Volume(v.geo, v.n, st', Write(v.tr, t, c), v.lv[c := LevelOf(v.n, v.tr, v.lv, t)], v.par[c := t], v.blank)
  }

  /** Granting a block and hanging it into a hole keeps the volume sound and changes at
      most the lookup that ends in that hole. */
  lemma AttachSound(v: Volume, st': State, t: Slot, c: nat) returns (v': Volume)
    requires Sound(v) && Marks(v.geo, v.st, st') && Fresh(v.geo, v.st, st', c)
    requires LevelOf(v.n, v.tr, v.lv, t) >= 0 && Exists(v.tr, t) && Read(v.tr, t) == 0
    requires v.blank || LevelOf(v.n, v.tr, v.lv, t) == 0
    ensures v' == Attached(v, st', t, c)
    ensures Sound(v') && (v.blank ==> ReadsZero(v'.tr, c))
    ensures forall ino, p :: Path(v, ino, p) ==>
              Lookup(v'.tr, ino, p) == if SlotAt(v.tr, ino, p) == Some(t) then c else Lookup(v.tr, ino, p)
  {
    hide Consistent, Padded, Linked, IsMeta, Shaped, ValidPath, InUse;
    v' := Attached(v, st', t, c);
    assert c !in v.lv && c in v.tr.blocks;
    assert t.InBlock? ==> t.block in v.lv;
    assert Fits(v.n, v.tr, v.lv, t, c);
    Attach(v.n, v.tr, v.lv, v.par, t, c);
    AttachShape(v.n, v.tr, v.lv, v.par, t, c);
    forall ino, p | Path(v, ino, p)
      ensures Lookup(v'.tr, ino, p) == if SlotAt(v.tr, ino, p) == Some(t) then c else Lookup(v.tr, ino, p)
    {
      if v.blank {
        LookupAfter(v.n, v.tr, t, c, ino, p);
      } else {
        LeafLookup(v, t, c, ino, p);
      }
    }
  }

  /** A leaf slot is read at the end of a path only, so what the block under it holds does
      not matter. */
  lemma LeafLookup(v: Volume, t: Slot, c: nat, ino: nat, p: seq<nat>)
    requires Sound(v) && Path(v, ino, p) && LevelOf(v.n, v.tr, v.lv, t) == 0 && Exists(v.tr, t)
    ensures Lookup(Write(v.tr, t, c), ino, p) == if SlotAt(v.tr, ino, p) == Some(t) then c else Lookup(v.tr, ino, p)
  {
    hide Shaped, Bitmapped, Cleared, Linked;
    assert p[..|p|] == p;
    WalkFrame(v, Write(v.tr, t, c), ino, p, |p|);
  }

  ghost predicate SameLookups(v: Volume, tr': Tree) {
    forall ino, p :: Path(v, ino, p) ==> Lookup(tr', ino, p) == Lookup(v.tr, ino, p)
  }

  lemma ForeignLinked(n: nat, tr: Tree, lv: map<nat, nat>, par: map<nat, Slot>, b: nat, at: nat, c: nat)
    requires Linked(n, tr, lv, par) && Exists(tr, InBlock(b, at)) && b !in lv
    ensures Linked(n, Write(tr, InBlock(b, at), c), lv, par)
  {
    var tr' := Write(tr, InBlock(b, at), c);
    assert forall s :: LevelOf(n, tr, lv, s) == LevelOf(n, tr', lv, s);
  }

  /** Writing into a granted block that is in no file keeps the volume sound. */
  lemma ForeignSound(v: Volume, b: nat, at: nat, c: nat)
    requires Sound(v) && b !in v.lv && Tracked(v.geo, b) && InUse(v.geo, v.st, b) && at < v.n
    ensures Exists(v.tr, InBlock(b, at))
    ensures Sound(v.(tr := Write(v.tr, InBlock(b, at), c))) && SameLookups(v, Write(v.tr, InBlock(b, at), c))
  {
    hide Consistent, Padded, IsMeta, ValidPath, InUse, Linked;
    var tr' := Write(v.tr, InBlock(b, at), c);
    ForeignLinked(v.n, v.tr, v.lv, v.par, b, at, c);
    forall ino, p | Path(v, ino, p)
      ensures Lookup(tr', ino, p) == Lookup(v.tr, ino, p)
    {
      assert p[..|p|] == p;
      WalkFrame(v, tr', ino, p, |p|);
      if SlotAt(v.tr, ino, p).Some? {
        PathLevels(v.n, v.tr, v.lv, v.par, ino, p, |p|);
      }
    }
  }

  lemma WriteCommute(tr: Tree, s1: Slot, v1: nat, s2: Slot, v2: nat)
    requires s1 != s2 && Exists(tr, s1) && Exists(tr, s2)
    ensures Write(Write(tr, s1, v1), s2, v2) == Write(Write(tr, s2, v2), s1, v1)
  {
    match (s1, s2)
    case (InInode(i, k), InInode(j, l)) =>
      if i == j {
        assert tr.inodes[i][k := v1][l := v2] == tr.inodes[i][l := v2][k := v1];
      }
      assert Write(Write(tr, s1, v1), s2, v2).inodes == Write(Write(tr, s2, v2), s1, v1).inodes;
    case (InBlock(b, k), InBlock(d, l)) =>
      if b == d {
        assert tr.blocks[b][k := v1][l := v2] == tr.blocks[b][l := v2][k := v1];
      }
      assert Write(Write(tr, s1, v1), s2, v2).blocks == Write(Write(tr, s2, v2), s1, v1).blocks;
    case _ =>
  }

  /** Every round of the branch allocation that comes to be has room. */
  ghost predicate Roomy(job: Job, upto: nat)
    requires job.Ready() && job.Reach(upto)
    decreases upto
  {
    if upto == 1 then HasRoom(job.geo, job.st, job.goal, job.env(0))
    else
      && Roomy(job, upto - 1)
      && (Build(job, upto - 1).err == OK ==>
            HasRoom(job.geo, Build(job, upto - 1).st, job.goal, job.env(upto - 1)))
  }

  function LastNew(g: Grown): nat
    requires g.news != []
  {
    g.news[|g.news| - 1]
  }

  /** The branch g grown so far for hole t, m levels above its data block: unspliced, the
      volume is sound and reads as before; spliced, it is the sound volume v', whose last
      new block is empty and has the level its place demands. */
  ghost predicate Growing(v: Volume, t: Slot, m: nat, g: Grown, v': Volume) {
    && Sound(v.(st := g.st, tr := g.tr)) && SameLookups(v, g.tr) && g.tr.inodes.Keys == v.tr.inodes.Keys
    && Exists(g.tr, t) && Read(g.tr, t) == 0 && g.news != []
    && StillUsed(v.geo, v.st, g.st)
    && (g.err == OK ==> Spliced(v, t, m, g, v') && NewOnly(v, g.news, v'))
  }

  ghost predicate StillUsed(geo: Geometry, st: State, st': State) {
    && Consistent(geo, st) && Consistent(geo, st')
    && forall b :: Tracked(geo, b) && InUse(geo, st, b) ==> InUse(geo, st', b)
  }

  lemma StillUsedNext(geo: Geometry, st: State, st1: State, st2: State)
    requires StillUsed(geo, st, st1) && Marks(geo, st1, st2)
    ensures StillUsed(geo, st, st2)
  {
    hide InUse, Tracked, Consistent;
  }

  lemma NewOnlyFirst(v: Volume, g: Grown, v': Volume, t: Slot)
    requires Consistent(v.geo, v.st) && Consistent(v.geo, g.st) && |g.news| == 1 && Fresh(v.geo, v.st, g.st, g.news[0])
    requires LevelOf(v.n, v.tr, v.lv, t) >= 0 && Exists(v.tr, t) && g.news[0] !in v.lv
    requires v' == Attached(v, g.st, t, g.news[0])
    ensures NewOnly(v, g.news, v')
  {
    hide InUse, Tracked, Consistent, LevelOf, Write;
  }

  /** The blocks in files are those from before and the new ones, which were free. */
  ghost predicate NewOnly(v: Volume, news: seq<nat>, v': Volume) {
    && Consistent(v.geo, v.st)
    && (forall b :: b in v'.lv <==> b in v.lv || b in news)
    && (forall b :: b in v.lv ==> v'.lv[b] == v.lv[b])
    && (forall b :: b in news ==> b != 0 && Tracked(v.geo, b) && !InUse(v.geo, v.st, b))
    && (forall i, j :: 0 <= i < j < |news| ==> news[i] != news[j])
  }

  ghost predicate Spliced(v: Volume, t: Slot, m: nat, g: Grown, v': Volume)
    requires g.news != [] && Exists(g.tr, t)
  {
    && v'.geo == v.geo && v'.n == v.n && v'.st == g.st && v'.tr == Write(g.tr, t, g.news[0]) && Sound(v')
    && v'.tr.inodes.Keys == v.tr.inodes.Keys
    && LastNew(g) !in v.lv && LastNew(g) in v'.lv && v'.lv[LastNew(g)] == m - |g.news| + 1
    && v'.blank == v.blank && (v.blank ==> ReadsZero(v'.tr, LastNew(g)))
    && (forall ino, p :: Path(v, ino, p) ==>
          Lookup(v'.tr, ino, p)
            == if m == 0 && SlotAt(v.tr, ino, p) == Some(t) then g.news[0] else Lookup(v.tr, ino, p))
  }

  /** The first block of a branch, hung into the hole. */
  lemma BeginSound(v: Volume, job: Job, t: Slot, m: nat) returns (v': Volume)
    requires Sound(v) && job.Ready() && job.geo == v.geo && job.n == v.n && job.st == v.st && job.tr == v.tr
    requires LevelOf(v.n, v.tr, v.lv, t) == m && Exists(v.tr, t) && Read(v.tr, t) == 0 && (v.blank || m == 0)
    requires Roomy(job, 1)
    ensures Growing(v, t, m, Build(job, 1), v')
  {
    hide Consistent, Padded, Linked, IsMeta, Shaped, ValidPath, InUse, HasRoom, LevelOf, NewOnly;
    var g := Build(job, 1);
    GrantRoom(v.geo, v.st, job.goal, job.env(0), job.count, job.err);
    SoundGrow(v, g.st);
    v' := v;
    if g.err == OK {
      v' := AttachSound(v, g.st, t, g.news[0]);
      NewOnlyFirst(v, g, v', t);
      if m > 0 {
        NoPathEnds(v, t);
      }
    }
  }

  /** No whole path ends in the slot of an array. */
  lemma NoPathEnds(v: Volume, t: Slot)
    requires Sound(v) && LevelOf(v.n, v.tr, v.lv, t) > 0
    ensures forall ino, p :: Path(v, ino, p) ==> SlotAt(v.tr, ino, p) != Some(t)
  {
    forall ino, p | Path(v, ino, p)
      ensures SlotAt(v.tr, ino, p) != Some(t)
    {
      assert p[..|p|] == p;
      if SlotAt(v.tr, ino, p).Some? {
        PathLevels(v.n, v.tr, v.lv, v.par, ino, p, |p|);
      }
    }
  }

  /** Emptying a block that reads as zeros and storing one entry is one write. */
  lemma ArrayStarted(n: nat, tr: Tree, b: nat, at: nat, c: nat)
    requires Shaped(n, tr) && b in tr.blocks && at < n
    requires ReadsZero(tr, b)
    ensures tr.(blocks := tr.blocks[b := OneEntry(n, at, c)]) == Write(tr, InBlock(b, at), c)
  {
    assert forall k :: 0 <= k < n ==> Read(tr, InBlock(b, k)) == tr.blocks[b][k];
    assert OneEntry(n, at, c) == tr.blocks[b][at := c];
  }

  /** Where the next block goes: a hole in the empty last block, of the right level, in
      the spliced tree as in the unspliced one. */
  lemma NextHole(v: Volume, t: Slot, m: nat, g0: Grown, v0: Volume, at: nat, c: nat)
    requires Sound(v) && LevelOf(v.n, v.tr, v.lv, t) == m && Shaped(v.n, g0.tr)
    requires g0.news != [] && Exists(g0.tr, t) && Spliced(v, t, m, g0, v0) && |g0.news| < m && at < v.n && v.blank
    ensures var last, t2 := LastNew(g0), InBlock(LastNew(g0), at);
            && t != t2 && Exists(g0.tr, t2) && Exists(v0.tr, t2) && Read(v0.tr, t2) == 0
            && LevelOf(v0.n, v0.tr, v0.lv, t2) == m - |g0.news|
            && Tracked(v.geo, last) && InUse(v.geo, g0.st, last) && last !in v.lv
            && var tr' := g0.tr.(blocks := g0.tr.blocks[last := OneEntry(v.n, at, c)]);
               && tr' == Write(g0.tr, t2, c) && Exists(tr', t)
               && Write(tr', t, g0.news[0]) == Write(v0.tr, t2, c)
  {
    hide Consistent, Padded, Linked, IsMeta, ValidPath, InUse, Lookup, OneEntry, Write;
    var last := LastNew(g0);
    assert t.InBlock? ==> t.block in v.lv;
    assert last in v0.tr.blocks;
    assert Exists(g0.tr, InBlock(last, at));
    assert forall k :: Read(g0.tr, InBlock(last, k)) == Read(v0.tr, InBlock(last, k));
    ArrayStarted(v.n, g0.tr, last, at, c);
    WriteCommute(g0.tr, t, g0.news[0], InBlock(last, at), c);
  }

  /** The next block, c, has been granted for slot `at` of the last block. */
  ghost predicate Granted(v: Volume, t: Slot, m: nat, g0: Grown, v0: Volume, g: Grown, at: nat, c: nat) {
    && g0.news != [] && g.news == g0.news + [c] && |g0.news| < m && Consistent(v.geo, g0.st)
    && Marks(v.geo, g0.st, g.st) && Fresh(v.geo, g0.st, g.st, c)
    && var t2 := InBlock(LastNew(g0), at);
       && t != t2 && Exists(g0.tr, t) && Exists(g0.tr, t2) && Exists(v0.tr, t2) && Read(v0.tr, t2) == 0
       && LevelOf(v0.n, v0.tr, v0.lv, t2) == m - |g0.news|
       && g.tr == Write(g0.tr, t2, c) && Exists(g.tr, t)
       && Write(g.tr, t, g0.news[0]) == Write(v0.tr, t2, c)
  }

  lemma SpliceNext(v: Volume, t: Slot, m: nat, g0: Grown, v0: Volume, g: Grown, at: nat, c: nat) returns (v': Volume)
    requires Sound(v) && Granted(v, t, m, g0, v0, g, at, c) && Spliced(v, t, m, g0, v0) && v.blank
    requires Sound(v.(st := g0.st, tr := g0.tr)) && NewOnly(v, g0.news, v0) && StillUsed(v.geo, v.st, g0.st)
    ensures Spliced(v, t, m, g, v') && NewOnly(v, g.news, v')
  {
    hide Consistent, Padded, Linked, IsMeta, ValidPath, InUse, Lookup, LevelOf, Shaped, Marks, Write, SlotAt, Cleared;
    assert forall b :: b in v.lv ==> InUse(v.geo, g0.st, b);
    v' := AttachSound(v0, g.st, InBlock(LastNew(g0), at), c);
    NoPathEnds(v0, InBlock(LastNew(g0), at));
    NewOnlyNext(v, g0, v0, g, v', c);
  }

  lemma NewOnlyNext(v: Volume, g0: Grown, v0: Volume, g: Grown, v': Volume, c: nat)
    requires NewOnly(v, g0.news, v0) && StillUsed(v.geo, v.st, g0.st) && Consistent(v.geo, g.st)
    requires g.news == g0.news + [c] && Fresh(v.geo, g0.st, g.st, c)
    requires forall b :: b in g0.news ==> InUse(v.geo, g0.st, b)
    requires v'.lv.Keys == v0.lv.Keys + {c} && c !in v0.lv && forall b :: b in v0.lv ==> v'.lv[b] == v0.lv[b]
    ensures NewOnly(v, g.news, v')
  {
    hide InUse, Tracked, Consistent;
    assert forall b :: b in g.news <==> b in g0.news || b == c;
  }

  lemma ForeignNext(v: Volume, t: Slot, m: nat, g0: Grown, v0: Volume, g: Grown, at: nat, c: nat)
    requires Sound(v) && Granted(v, t, m, g0, v0, g, at, c) && at < v.n && Read(g0.tr, t) == 0
    requires Sound(v.(st := g0.st, tr := g0.tr)) && SameLookups(v, g0.tr) && g0.tr.inodes.Keys == v.tr.inodes.Keys
    requires LastNew(g0) !in v.lv && Tracked(v.geo, LastNew(g0)) && InUse(v.geo, g0.st, LastNew(g0))
    ensures Sound(v.(st := g.st, tr := g.tr)) && SameLookups(v, g.tr)
    ensures Exists(g.tr, t) && Read(g.tr, t) == 0 && g.tr.inodes.Keys == v.tr.inodes.Keys
  {
    hide Consistent, Padded, Linked, IsMeta, ValidPath, InUse, Lookup, LevelOf, Shaped, Cleared, Bitmapped, SlotAt;
    var u := v.(st := g.st, tr := g0.tr);
    SoundGrow(v.(st := g0.st, tr := g0.tr), g.st);
    ForeignSound(u, LastNew(g0), at, c);
  }

  /** One more round: the next new block is hung into the empty last one. */
  lemma ExtendSound(v: Volume, t: Slot, m: nat, g0: Grown, v0: Volume, goal: nat, e: Env, at: nat) returns (v': Volume)
    requires Sound(v) && Shaped(v.n, g0.tr) && LevelOf(v.n, v.tr, v.lv, t) == m && v.blank
    requires Growing(v, t, m, g0, v0) && g0.err == OK && |g0.news| < m && at < v.n
    requires Consistent(v.geo, g0.st) && Padded(v.geo, g0.st) && HasRoom(v.geo, g0.st, goal, e)
    ensures Growing(v, t, m, Extend(v.geo, v.n, g0, goal, e, at), v')
  {
    hide Consistent, Padded, Linked, IsMeta, ValidPath, InUse, HasRoom, Lookup, LevelOf, OneEntry, Shaped,
         Bitmapped, Cleared, Write, SlotAt, Read, Path, Tracked, Sound, SameLookups, Marks, Fresh, Spliced, Exists;
    var g := Extend(v.geo, v.n, g0, goal, e, at);
    GrantRoom(v.geo, g0.st, goal, e, g0.count, g0.err);
    SoundGrow(v.(st := g0.st, tr := g0.tr), g.st);
    StillUsedNext(v.geo, v.st, g0.st, g.st);
    v' := v0;
    if g.err == OK {
      var c := LastNew(g);
      NextHole(v, t, m, g0, v0, at, c);
      assert Granted(v, t, m, g0, v0, g, at, c);
      v' := SpliceNext(v, t, m, g0, v0, g, at, c);
      ForeignNext(v, t, m, g0, v0, g, at, c);
    }
  }

  /** Every round of a branch with room keeps the volume sound. */
  lemma {:induction false} BuildSound(v: Volume, job: Job, t: Slot, m: nat, upto: nat) returns (v': Volume)
    requires Sound(v) && job.Ready() && job.geo == v.geo && job.n == v.n && job.st == v.st && job.tr == v.tr
    requires LevelOf(v.n, v.tr, v.lv, t) == m && Exists(v.tr, t) && Read(v.tr, t) == 0 && (v.blank || m == 0)
    requires job.Reach(upto) && upto <= Rounds(m) && Roomy(job, upto)
    ensures Growing(v, t, m, Build(job, upto), v')
    decreases upto
  {
    hide Consistent, Padded, Linked, IsMeta, Shaped, ValidPath, InUse, HasRoom, LevelOf, Cleared, Begin, Extend,
         Exists, Read, SameLookups, Spliced;
    if upto == 1 {
      v' := BeginSound(v, job, t, m);
    } else {
      var v0 := BuildSound(v, job, t, m, upto - 1);
      var g0 := Build(job, upto - 1);
      v' := v0;
      if g0.err == OK {
        v' := ExtendSound(v, t, m, g0, v0, job.goal, job.env(upto - 1), job.offs[upto - 1]);
      }
    }
  }

  /** Every block a walk comes to can be read, so a hole can be filled. */
  lemma SoundCreatable(v: Volume, r: Request)
    requires Sound(v) && Path(v, r.ino, r.path) && Lookup(v.tr, r.ino, r.path) == 0
    ensures Creatable(v.geo, v.n, v.st, v.tr, r)
    ensures LevelOf(v.n, v.tr, v.lv, Hole(v.tr, r)) == Missing(v.tr, r)
  {
    hide Consistent, Padded, Linked, IsMeta, Shaped, ValidPath, InUse, LevelOf, Cleared;
    PathLevels(v.n, v.tr, v.lv, v.par, r.ino, r.path, HoleAt(v.tr, r.ino, r.path));
  }

  ghost predicate RoomFor(geo: Geometry, n: nat, st: State, tr: Tree, r: Request)
    requires Creatable(geo, n, st, tr, r)
  {
    Roomy(JobFor(geo, n, st, tr, r), Rounds(Missing(tr, r)))
  }

  /** The branch of a creation with room, in a blank volume or of a leaf in any. */
  lemma BranchGrown(v: Volume, r: Request) returns (v': Volume)
    requires Sound(v) && Path(v, r.ino, r.path) && Lookup(v.tr, r.ino, r.path) == 0
    requires Creatable(v.geo, v.n, v.st, v.tr, r) && RoomFor(v.geo, v.n, v.st, v.tr, r)
    requires v.blank || Missing(v.tr, r) == 0
    ensures var m := Missing(v.tr, r);
            Growing(v, Hole(v.tr, r), m, Build(JobFor(v.geo, v.n, v.st, v.tr, r), Rounds(m)), v')
  {
    hide Consistent, Padded, Linked, IsMeta, Shaped, ValidPath, InUse, LevelOf, Cleared, Bitmapped, Build,
         Roomy, Goal, Lookup, SlotAt, Growing, HoleAt, Read;
    SoundCreatable(v, r);
    HoleReads(v.tr, r);
    v' := BuildSound(v, JobFor(v.geo, v.n, v.st, v.tr, r), Hole(v.tr, r), Missing(v.tr, r), Rounds(Missing(v.tr, r)));
  }

  lemma HoleReads(tr: Tree, r: Request)
    requires r.path != [] && Lookup(tr, r.ino, r.path) == 0
    ensures Read(tr, Hole(tr, r)) == 0
  {
  }

  /** With room the splice is one store. */
  lemma RoomySplice(v: Volume, r: Request)
    requires Sound(v) && Creatable(v.geo, v.n, v.st, v.tr, r) && RoomFor(v.geo, v.n, v.st, v.tr, r)
    ensures var g, t := Build(JobFor(v.geo, v.n, v.st, v.tr, r), Rounds(Missing(v.tr, r))), Hole(v.tr, r);
            && Exists(g.tr, t) && g.news != []
            && Create(v.geo, v.n, v.st, v.tr, r) == if g.err == OK then g.(tr := Write(g.tr, t, g.news[0])) else g
  {
    hide Consistent, Padded, Linked, IsMeta, Shaped, ValidPath, InUse, Cleared, HasRoom, PlanOf, Goal, Lookup, Build,
         HoleAt, SlotAt, Write, Create;
    if Missing(v.tr, r) == 0 {
      NoOverrun(v.geo, v.st, GoalFor(v.geo, v.tr, r), r.env(0));
    }
    PlainSplice(v.geo, v.n, v.st, v.tr, r);
  }

  /** A creation with room in a blank volume, or of a leaf in any volume. */
  lemma CreatePlain(v: Volume, r: Request) returns (v': Volume)
    requires Sound(v) && Path(v, r.ino, r.path) && Lookup(v.tr, r.ino, r.path) == 0
    requires Creatable(v.geo, v.n, v.st, v.tr, r) && RoomFor(v.geo, v.n, v.st, v.tr, r)
    requires v.blank || Missing(v.tr, r) == 0
    ensures var g := Create(v.geo, v.n, v.st, v.tr, r);
            && v'.blank == v.blank && Sound(v') && v'.geo == v.geo && v'.n == v.n && v'.st == g.st && v'.tr == g.tr
            && v'.tr.inodes.Keys == v.tr.inodes.Keys && StillUsed(v.geo, v.st, g.st)
            && (g.err == OK ==>
                  && NewOnly(v, g.news, v') && LastNew(g) in v'.lv
                  && v'.lv[LastNew(g)] == (if Missing(v.tr, r) == 0 then 0 else 1)
                  && |g.news| == Rounds(Missing(v.tr, r)) && (v.blank ==> ReadsZero(v'.tr, LastNew(g))))
            && (g.err != OK ==> v'.lv == v.lv)
            && forall ino, p :: Path(v, ino, p) ==>
                 Lookup(v'.tr, ino, p) == if g.err == OK && Missing(v.tr, r) == 0 && ino == r.ino && p == r.path
                                          then g.news[0] else Lookup(v.tr, ino, p)
  {
    hide Consistent, Padded, Linked, IsMeta, Shaped, ValidPath, InUse, LevelOf, Cleared, Bitmapped, Build, Exists,
         Roomy, Lookup, SlotAt, Write, Read, Sound, NewOnly, StillUsed, ReadsZero, HoleAt, Creatable, JobFor,
         Hole, Missing, Create;
    v' := BranchGrown(v, r);
    RoomySplice(v, r);
    var g := Build(JobFor(v.geo, v.n, v.st, v.tr, r), Rounds(Missing(v.tr, r)));
    if g.err != OK {
      v' := v.(st := g.st, tr := g.tr);
    } else if Missing(v.tr, r) == 0 {
      OnePathEnds(v, r);
    }
  }

  /** Only the path asked for ends in its leaf slot. */
  lemma OnePathEnds(v: Volume, r: Request)
    requires Sound(v) && Path(v, r.ino, r.path) && Lookup(v.tr, r.ino, r.path) == 0 && Missing(v.tr, r) == 0
    ensures forall ino, p :: Path(v, ino, p) ==>
              (SlotAt(v.tr, ino, p) == Some(Hole(v.tr, r)) <==> ino == r.ino && p == r.path)
  {
    hide Linked, ValidPath, Bitmapped, Cleared, Shaped;
    assert r.path[..|r.path|] == r.path;
    forall ino, p | Path(v, ino, p)
      ensures SlotAt(v.tr, ino, p) == Some(Hole(v.tr, r)) <==> ino == r.ino && p == r.path
    {
      assert p[..|p|] == p;
      if SlotAt(v.tr, ino, p) == Some(Hole(v.tr, r)) {
        SlotUnique(v.n, v.tr, v.lv, v.par, ino, p, |p|, r.ino, r.path, |r.path|);
      }
    }
  }
}
