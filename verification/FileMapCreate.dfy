/** Creation on any volume, whatever its free blocks hold: the same creation on the volume
    with its free blocks wiped differs from it in what the last new array holds only. */
module FileMapCreate {
  import opened Answers
  import opened BlockPath
  import opened BlockAllocator
  import opened BlockAllocatorLaws
  import opened FileTree
  import opened Branch
  import opened FileMapLaws
  import opened BranchPlan

  // ----- the volume with its free blocks wiped

  predicate IsFree(geo: Geometry, st: State, b: nat)
    requires Consistent(geo, st)
  {
    Tracked(geo, b) && !InUse(geo, st, b)
  }

  function WipedTree(geo: Geometry, st: State, tr: Tree): Tree
    requires Consistent(geo, st)
  {
    tr.(blocks := map b | b in tr.blocks :: if IsFree(geo, st, b) then seq(|tr.blocks[b]|, _ => 0) else tr.blocks[b])
  }

  function Wiped(v: Volume): Volume
    requires Consistent(v.geo, v.st)
  {
    v.(tr := WipedTree(v.geo, v.st, v.tr), blank := true)
  }

  /** The trees read the same in every slot of a file. */
  ghost predicate SameInFiles(v: Volume, tr': Tree) {
    forall s :: LevelOf(v.n, v.tr, v.lv, s) >= 0 ==> Read(tr', s) == Read(v.tr, s)
  }

  /** What lies outside the files decides nothing. */
  lemma Transfer(v: Volume, tr': Tree)
    requires Sound(v) && SameInFiles(v, tr') && tr'.inodes == v.tr.inodes && Shaped(v.n, tr')
    requires v.tr.blocks.Keys <= tr'.blocks.Keys
    ensures Sound(v.(tr := tr', blank := false)) && SameLookups(v, tr')
  {
    hide Consistent, Padded, IsMeta, ValidPath, InUse;
    assert forall s :: LevelOf(v.n, tr', v.lv, s) == LevelOf(v.n, v.tr, v.lv, s);
    TransferLinked(v.n, v.tr, tr', v.lv, v.par);
    forall ino, p | Path(v, ino, p)
      ensures Lookup(tr', ino, p) == Lookup(v.tr, ino, p)
    {
      SameWalk(v, tr', ino, p, |p|);
      assert p[..|p|] == p;
    }
  }

  lemma TransferLinked(n: nat, tr: Tree, tr': Tree, lv: map<nat, nat>, par: map<nat, Slot>)
    requires Linked(n, tr, lv, par) && tr'.inodes == tr.inodes && Shaped(n, tr') && tr.blocks.Keys <= tr'.blocks.Keys
    requires forall s :: LevelOf(n, tr, lv, s) >= 0 ==> Read(tr', s) == Read(tr, s)
    ensures Linked(n, tr', lv, par)
  {
    assert forall s :: LevelOf(n, tr', lv, s) == LevelOf(n, tr, lv, s);
  }

  lemma SameWalk(v: Volume, tr': Tree, ino: nat, p: seq<nat>, j: nat)
    requires Sound(v) && SameInFiles(v, tr') && Path(v, ino, p) && 1 <= j <= |p|
    ensures SlotAt(tr', ino, p[..j]) == SlotAt(v.tr, ino, p[..j])
    ensures Lookup(tr', ino, p[..j]) == Lookup(v.tr, ino, p[..j])
  {
    hide Shaped, Bitmapped, Cleared, Linked;
    WalkFrame(v, tr', ino, p, j);
    if SlotAt(v.tr, ino, p[..j]).Some? {
      PathLevels(v.n, v.tr, v.lv, v.par, ino, p, j);
    }
  }

  lemma WipedSame(v: Volume)
    requires Sound(v)
    ensures SameInFiles(v, Wiped(v).tr) && Shaped(v.n, Wiped(v).tr)
    ensures Wiped(v) == v.(tr := Wiped(v).tr, blank := true)
    ensures Wiped(v).tr.inodes == v.tr.inodes && Wiped(v).tr.blocks.Keys == v.tr.blocks.Keys
    ensures forall b, k :: IsFree(v.geo, v.st, b) ==> Read(Wiped(v).tr, InBlock(b, k)) == 0
    ensures forall b, k :: !IsFree(v.geo, v.st, b) ==> Read(Wiped(v).tr, InBlock(b, k)) == Read(v.tr, InBlock(b, k))
  {
    hide Consistent, Padded, IsMeta, InUse, Linked, Tracked;
    assert forall b :: b in v.lv ==> !IsFree(v.geo, v.st, b);
  }

  lemma WipedSound(v: Volume)
    requires Sound(v)
    ensures Sound(Wiped(v)) && SameLookups(v, Wiped(v).tr)
  {
    hide Padded, IsMeta, InUse, Linked, Tracked, Shaped, Consistent, SameInFiles, SameLookups, Read;
    WipedSame(v);
    Transfer(v, Wiped(v).tr);
  }

  // ----- the same request on both volumes

  lemma {:induction false} SameHole(v: Volume, tr': Tree, ino: nat, p: seq<nat>, j: nat)
    requires Sound(v) && SameInFiles(v, tr') && Path(v, ino, p) && 1 <= j <= |p| && Lookup(v.tr, ino, p[..j]) == 0
    ensures Lookup(tr', ino, p[..j]) == 0 && HoleAt(tr', ino, p[..j]) == HoleAt(v.tr, ino, p[..j])
    decreases j
  {
    hide Sound, SameInFiles, SlotAt, Lookup, Path;
    SameWalk(v, tr', ino, p, j);
    assert |p[..j]| == j;
    if SlotAt(v.tr, ino, p[..j]).None? {
      HoleShorter(v.tr, ino, p, j);
      HoleShorter(tr', ino, p, j);
      SameHole(v, tr', ino, p, j - 1);
    }
  }

  lemma HoleShorter(tr: Tree, ino: nat, p: seq<nat>, j: nat)
    requires 1 <= j <= |p| && SlotAt(tr, ino, p[..j]).None?
    ensures j > 1 && Lookup(tr, ino, p[..j]) == 0 && Lookup(tr, ino, p[..j - 1]) == 0
    ensures HoleAt(tr, ino, p[..j]) == HoleAt(tr, ino, p[..j - 1])
  {
    assert p[..j][..j - 1] == p[..j - 1];
    assert forall i :: 0 <= i <= j - 1 ==> p[..j - 1][..i] == p[..j][..i];
  }

  lemma SameRequest(v: Volume, tr': Tree, r: Request)
    requires Sound(v) && SameInFiles(v, tr') && tr'.inodes == v.tr.inodes && Shaped(v.n, tr')
    requires v.tr.blocks.Keys <= tr'.blocks.Keys && Creatable(v.geo, v.n, v.st, v.tr, r)
    ensures Creatable(v.geo, v.n, v.st, tr', r)
    ensures Hole(tr', r) == Hole(v.tr, r) && Missing(tr', r) == Missing(v.tr, r)
    ensures JobFor(v.geo, v.n, v.st, tr', r) == JobFor(v.geo, v.n, v.st, v.tr, r).(tr := tr')
  {
    hide Sound, Consistent, Shaped, ValidPath, HoleAt, SlotAt, Lookup, SameInFiles, Goal;
    assert r.path[..|r.path|] == r.path;
    SameHole(v, tr', r.ino, r.path, |r.path|);
    var h := HoleAt(v.tr, r.ino, r.path);
    SameWalk(v, tr', r.ino, r.path, h);
    SameGoal(v, tr', r, h);
  }

  lemma SameGoal(v: Volume, tr': Tree, r: Request, h: nat)
    requires Sound(v) && SameInFiles(v, tr') && tr'.inodes == v.tr.inodes && Shaped(v.n, tr')
    requires v.tr.blocks.Keys <= tr'.blocks.Keys && Path(v, r.ino, r.path) && 1 <= h <= |r.path|
    requires SlotAt(v.tr, r.ino, r.path[..h]).Some?
    ensures var t := SlotAt(v.tr, r.ino, r.path[..h]).value;
            && Exists(v.tr, t) && Exists(tr', t)
            && Goal(v.geo, tr', t, r.group, r.pid) == Goal(v.geo, v.tr, t, r.group, r.pid)
  {
    hide Consistent, Padded, IsMeta, InUse, Cleared, Bitmapped;
    PathLevels(v.n, v.tr, v.lv, v.par, r.ino, r.path, h);
    var t := SlotAt(v.tr, r.ino, r.path[..h]).value;
    if t.InBlock? {
      assert forall k: nat :: k < v.n ==> LevelOf(v.n, v.tr, v.lv, InBlock(t.block, k)) >= 0;
      SameArray(v.n, v.tr, tr', t.block);
    }
  }

  lemma SameArray(n: nat, tr: Tree, tr': Tree, b: nat)
    requires Shaped(n, tr) && Shaped(n, tr') && b in tr.blocks && b in tr'.blocks
    requires forall k: nat :: k < n ==> Read(tr', InBlock(b, k)) == Read(tr, InBlock(b, k))
    ensures tr'.blocks[b] == tr.blocks[b]
  {
    assert forall k: nat :: k < n ==> Read(tr', InBlock(b, k)) == tr'.blocks[b][k];
  }

  // ----- the same branch in both trees

  function AllButLast(news: seq<nat>): seq<nat>
    requires news != []
  {
    news[..|news| - 1]
  }

  /** The branches grown in two trees take the same blocks; the arrays written are the same,
      and all others are left as they were. */
  ghost predicate Twins(g: Grown, h: Grown, tr: Tree, tr': Tree) {
    && (tr.blocks.Keys == tr'.blocks.Keys ==> g.tr.blocks.Keys == h.tr.blocks.Keys)
    && g.news != [] && h == g.(tr := h.tr) && g.tr.inodes == tr.inodes && h.tr.inodes == tr'.inodes
    && (forall b, k :: b in AllButLast(g.news) ==> Read(g.tr, InBlock(b, k)) == Read(h.tr, InBlock(b, k)))
    && (forall b, k :: b !in AllButLast(g.news) ==> Read(g.tr, InBlock(b, k)) == Read(tr, InBlock(b, k)))
    && (forall b, k :: b !in AllButLast(g.news) ==> Read(h.tr, InBlock(b, k)) == Read(tr', InBlock(b, k)))
  }

  lemma {:induction false} BuildTwins(job: Job, tr': Tree, upto: nat)
    requires job.Ready() && job.(tr := tr').Ready() && job.Reach(upto)
    ensures Twins(Build(job, upto), Build(job.(tr := tr'), upto), job.tr, tr')
    decreases upto
  {
    hide Consistent, Shaped, Grant;
    if upto == 1 {
      assert AllButLast(Build(job, 1).news) == [];
    } else {
      BuildTwins(job, tr', upto - 1);
      var g, h := Build(job, upto - 1), Build(job.(tr := tr'), upto - 1);
      if g.err == OK {
        ExtendTwins(job.geo, job.n, g, h, job.tr, tr', job.goal, job.env(upto - 1), job.offs[upto - 1]);
      }
    }
  }

  lemma ExtendTwins(geo: Geometry, n: nat, g: Grown, h: Grown, tr: Tree, tr': Tree, goal: nat, e: Env, at: nat)
    requires Consistent(geo, g.st) && at < n && Shaped(n, g.tr) && Shaped(n, h.tr) && Twins(g, h, tr, tr')
    ensures Twins(Extend(geo, n, g, goal, e, at), Extend(geo, n, h, goal, e, at), tr, tr')
  {
    hide Consistent, Shaped, Grant, Read, OneEntry;
    var g' := Extend(geo, n, g, goal, e, at);
    if g'.err == OK {
      assert AllButLast(g'.news) == g.news == AllButLast(g.news) + [LastNew(g)];
      var slots := OneEntry(n, at, LastNew(g'));
      ArrayReads(g.tr, LastNew(g), slots);
      ArrayReads(h.tr, LastNew(g), slots);
    }
  }

  lemma ArrayReads(tr: Tree, b: nat, slots: seq<nat>)
    ensures var tr' := tr.(blocks := tr.blocks[b := slots]);
            forall c: nat, k: nat :: Read(tr', InBlock(c, k))
                        == if c != b then Read(tr, InBlock(c, k)) else if k < |slots| then slots[k] else 0
  {
  }

  lemma {:induction false} RoomyTwin(job: Job, tr': Tree, upto: nat)
    requires job.Ready() && job.(tr := tr').Ready() && job.Reach(upto) && Roomy(job, upto)
    ensures Roomy(job.(tr := tr'), upto)
    decreases upto
  {
    hide Consistent, Shaped, HasRoom, Build, Twins;
    if upto > 1 {
      RoomyTwin(job, tr', upto - 1);
      BuildTwins(job, tr', upto - 1);
      TwinsAnswer(Build(job, upto - 1), Build(job.(tr := tr'), upto - 1), job.tr, tr');
    }
  }

  lemma TwinsAnswer(g: Grown, h: Grown, tr: Tree, tr': Tree)
    requires Twins(g, h, tr, tr')
    ensures h.st == g.st && h.news == g.news && h.err == g.err && h.num == g.num && h.count == g.count
  {
  }

  // ----- the same creation on both volumes

  /** Creation on v and on the wiped volume, which leads to w': the same blocks are taken, and
      the trees read the same in every slot of a file but those of the last new array. */
  ghost predicate Framed(v: Volume, r: Request, w': Volume)
    requires Consistent(v.geo, v.st) && Creatable(v.geo, v.n, v.st, v.tr, r)
  {
    var g, m := Create(v.geo, v.n, v.st, v.tr, r), Missing(v.tr, r);
    && Sound(w') && w'.geo == v.geo && w'.n == v.n && w'.st == g.st && w'.tr.inodes == g.tr.inodes
    && w'.tr.inodes.Keys == v.tr.inodes.Keys && Shaped(v.n, g.tr) && w'.tr.blocks.Keys <= g.tr.blocks.Keys
    && StillUsed(v.geo, v.st, g.st) && OfWiped(v, r, g, w')
    && (g.err == OK ==>
          && LastNew(g) != 0 && NewOnly(v, g.news, w')
          && LastNew(g) in w'.lv && w'.lv[LastNew(g)] == (if m == 0 then 0 else 1)
          && |g.news| == Rounds(m) && ReadsZero(w'.tr, LastNew(g))
          && forall k :: Read(g.tr, InBlock(LastNew(g), k)) == Read(v.tr, InBlock(LastNew(g), k)))
    && (g.err != OK ==> w'.lv == v.lv)
    && (forall s :: LevelOf(w'.n, w'.tr, w'.lv, s) >= 0 && !(g.err == OK && s.InBlock? && s.block == LastNew(g)) ==>
          Read(g.tr, s) == Read(w'.tr, s))
    && (forall ino, p :: Path(v, ino, p) ==>
          Lookup(w'.tr, ino, p) == if g.err == OK && m == 0 && ino == r.ino && p == r.path
                                   then g.news[0] else Lookup(v.tr, ino, p))
  }

  /** w' is what the creation g makes of the wiped volume. */
  ghost predicate OfWiped(v: Volume, r: Request, g: Grown, w': Volume)
    requires Consistent(v.geo, v.st)
  {
    Creatable(v.geo, v.n, v.st, Wiped(v).tr, r) && Create(v.geo, v.n, v.st, Wiped(v).tr, r) == g.(tr := w'.tr)
  }

  /** Before the splice: file blocks and filled arrays read the same, and the last new block
      reads as on v. */
  lemma GrownReads(v: Volume, g: Grown, h: Grown)
    requires Sound(v) && Twins(g, h, v.tr, Wiped(v).tr) && (g.err == OK ==> DistinctFree(v, g.news))
    ensures forall s: Slot :: s.InInode? ==> Read(g.tr, s) == Read(h.tr, s)
    ensures forall b, k :: b in v.lv ==> Read(g.tr, InBlock(b, k)) == Read(h.tr, InBlock(b, k))
    ensures forall b, k :: b in g.news && b != LastNew(g) ==> Read(g.tr, InBlock(b, k)) == Read(h.tr, InBlock(b, k))
    ensures g.err == OK ==> forall k :: Read(g.tr, InBlock(LastNew(g), k)) == Read(v.tr, InBlock(LastNew(g), k))
  {
    hide Consistent, Padded, IsMeta, InUse, Linked, Tracked, Shaped, Cleared, SameInFiles, Wiped;
    WipedSame(v);
    forall b | b in v.lv ensures !IsFree(v.geo, v.st, b) { }
    assert forall b :: b in g.news && b != LastNew(g) ==> b in AllButLast(g.news);
  }

  ghost predicate DistinctFree(v: Volume, news: seq<nat>) {
    && Consistent(v.geo, v.st)
    && (forall b :: b in news ==> Tracked(v.geo, b) && !InUse(v.geo, v.st, b))
    && (forall i, j :: 0 <= i < j < |news| ==> news[i] != news[j])
  }

  lemma NewOnlyParts(v: Volume, news: seq<nat>, w': Volume)
    requires Sound(v) && NewOnly(Wiped(v), news, w')
    ensures NewOnly(v, news, w') && DistinctFree(v, news) && forall b :: b in news ==> b !in v.lv && b != 0
  {
    hide Consistent, Padded, IsMeta, InUse, Linked, Tracked, Shaped, Cleared;
  }

  lemma HoleInFile(v: Volume, r: Request)
    requires Sound(v) && Path(v, r.ino, r.path) && Creatable(v.geo, v.n, v.st, v.tr, r)
    ensures Hole(v.tr, r).InBlock? ==> Hole(v.tr, r).block in v.lv
  {
    hide Consistent, Padded, Linked, IsMeta, Shaped, ValidPath, InUse, Cleared;
    SoundCreatable(v, r);
  }

  /** The tree after the splice, or after a failure. */
  function SplicedTree(g: Grown, t: Slot): Tree
    requires Exists(g.tr, t) && g.news != []
  {
    if g.err == OK then Write(g.tr, t, g.news[0]) else g.tr
  }

  /** What the trees then read in the slots of files. */
  lemma FramedReads(v: Volume, w': Volume, t: Slot, g: Grown, h: Grown)
    requires Sound(v) && Consistent(v.geo, v.st) && (t.InBlock? ==> t.block in v.lv)
    requires Twins(g, h, v.tr, Wiped(v).tr) && (g.err == OK ==> NewOnly(Wiped(v), g.news, w'))
    requires g.err != OK ==> w'.lv == v.lv
    requires Exists(g.tr, t) && Exists(h.tr, t) && w'.tr == SplicedTree(h, t)
    ensures g.err == OK ==> NewOnly(v, g.news, w') && LastNew(g) != 0
    ensures SplicedTree(g, t).inodes == w'.tr.inodes
    ensures forall s :: LevelOf(w'.n, w'.tr, w'.lv, s) >= 0 && !(g.err == OK && s.InBlock? && s.block == LastNew(g)) ==>
              Read(SplicedTree(g, t), s) == Read(w'.tr, s)
    ensures g.err == OK ==>
              forall k :: Read(SplicedTree(g, t), InBlock(LastNew(g), k)) == Read(v.tr, InBlock(LastNew(g), k))
  {
    hide Sound, Wiped, Twins, NewOnly, DistinctFree, Read, Write;
    TwinsAnswer(g, h, v.tr, Wiped(v).tr);
    TwinsInodes(v, g, h);
    if g.err == OK {
      NewOnlyParts(v, g.news, w');
      NewOnlyKeys(v, g.news, w');
      assert g.news[|g.news| - 1] in g.news;
      WriteInodes(g.tr, h.tr, t, g.news[0]);
    }
    GrownReads(v, g, h);
  }

  lemma NewOnlyKeys(v: Volume, news: seq<nat>, w': Volume)
    requires NewOnly(v, news, w')
    ensures forall b :: b in w'.lv <==> b in v.lv || b in news
  {
  }

  lemma WriteInodes(tr: Tree, tr': Tree, t: Slot, x: nat)
    requires Exists(tr, t) && Exists(tr', t) && tr.inodes == tr'.inodes
    ensures Write(tr, t, x).inodes == Write(tr', t, x).inodes
  {
  }

  lemma ShapedKept(n: nat, tr: Tree, t: Slot, x: nat)
    requires Shaped(n, tr) && Exists(tr, t)
    ensures Shaped(n, Write(tr, t, x)) && Write(tr, t, x).blocks.Keys == tr.blocks.Keys
  {
  }

  lemma TwinsKeys(v: Volume, g: Grown, h: Grown)
    requires Consistent(v.geo, v.st) && Twins(g, h, v.tr, Wiped(v).tr)
    ensures g.tr.blocks.Keys == h.tr.blocks.Keys
  {
    assert Wiped(v).tr.blocks.Keys == v.tr.blocks.Keys;
  }

  lemma TwinsInodes(v: Volume, g: Grown, h: Grown)
    requires Consistent(v.geo, v.st) && Twins(g, h, v.tr, Wiped(v).tr)
    ensures g.tr.inodes == h.tr.inodes && g.news != []
  {
    var tr' := Wiped(v).tr;
    assert tr'.inodes == v.tr.inodes;
    assert g.tr.inodes == v.tr.inodes;
    assert h.tr.inodes == tr'.inodes;
  }

  /** The branches both creations grow. */
  function BranchOf(geo: Geometry, n: nat, st: State, tr: Tree, r: Request): Grown
    requires Creatable(geo, n, st, tr, r)
  {
    Build(JobFor(geo, n, st, tr, r), Rounds(Missing(tr, r)))
  }

  /** Both creations are the same up to the splice. */
  lemma BothGrow(v: Volume, r: Request)
    requires Sound(v) && Consistent(v.geo, v.st) && Path(v, r.ino, r.path) && Lookup(v.tr, r.ino, r.path) == 0
    requires Creatable(v.geo, v.n, v.st, v.tr, r) && RoomFor(v.geo, v.n, v.st, v.tr, r)
    ensures var w := Wiped(v);
            && Path(w, r.ino, r.path) && Lookup(w.tr, r.ino, r.path) == 0
            && Creatable(v.geo, v.n, v.st, w.tr, r) && RoomFor(v.geo, v.n, v.st, w.tr, r)
            && Hole(w.tr, r) == Hole(v.tr, r) && Missing(w.tr, r) == Missing(v.tr, r)
    ensures var g, h := BranchOf(v.geo, v.n, v.st, v.tr, r), BranchOf(v.geo, v.n, v.st, Wiped(v).tr, r);
            && Twins(g, h, v.tr, Wiped(v).tr) && Exists(g.tr, Hole(v.tr, r)) && Exists(h.tr, Hole(v.tr, r))
            && Shaped(v.n, g.tr) && Shaped(v.n, h.tr) && h == g.(tr := h.tr) && g.news != []
  {
    hide Sound, Consistent, Shaped, ValidPath, HoleAt, SlotAt, Lookup, SameInFiles, Goal, Hole, Missing, Roomy, Build,
         Write, Read, LevelOf, InUse, Tracked, Wiped, SameLookups, Twins;
    var w := Wiped(v);
    WipedSame(v);
    WipedSound(v);
    SameRequest(v, w.tr, r);
    var job, m := JobFor(v.geo, v.n, v.st, v.tr, r), Missing(v.tr, r);
    RoomyTwin(job, w.tr, Rounds(m));
    BuildTwins(job, w.tr, Rounds(m));
    HoleStays(v.geo, v.n, v.st, v.tr, r);
    HoleStays(v.geo, v.n, v.st, w.tr, r);
    TwinsAnswer(Build(job, Rounds(m)), Build(job.(tr := w.tr), Rounds(m)), job.tr, w.tr);
  }

  lemma CreateSplices(v: Volume, r: Request)
    requires Sound(v) && Creatable(v.geo, v.n, v.st, v.tr, r) && RoomFor(v.geo, v.n, v.st, v.tr, r)
    ensures var g := BranchOf(v.geo, v.n, v.st, v.tr, r);
            g.news != [] && Exists(g.tr, Hole(v.tr, r))
            && Create(v.geo, v.n, v.st, v.tr, r) == g.(tr := SplicedTree(g, Hole(v.tr, r)))
  {
    hide Sound, Consistent, Shaped, ValidPath, HoleAt, SlotAt, Lookup, Goal, Build, Write, Create;
    RoomySplice(v, r);
  }

  /** A creation on any volume leads where Framed says. */
  lemma CreateFramed(v: Volume, r: Request) returns (w': Volume)
    requires Sound(v) && Path(v, r.ino, r.path) && Lookup(v.tr, r.ino, r.path) == 0
    requires Creatable(v.geo, v.n, v.st, v.tr, r) && RoomFor(v.geo, v.n, v.st, v.tr, r)
    ensures Framed(v, r, w')
  {
    hide Sound, Consistent, Shaped, ValidPath, HoleAt, SlotAt, Lookup, SameInFiles, Goal, Hole, Missing, RoomFor, Write,
         Read, LevelOf, NewOnly, StillUsed, Twins, InUse, Tracked, Wiped, Create, Creatable, BranchOf, SplicedTree,
         ReadsZero;
    SoundStates(v);
    var w := Wiped(v);
    WipedSame(v);
    WipedSound(v);
    BothGrow(v, r);
    w' := CreatePlain(w, r);
    var g, h := BranchOf(v.geo, v.n, v.st, v.tr, r), BranchOf(v.geo, v.n, v.st, w.tr, r);
    var t := Hole(v.tr, r);
    CreateSplices(v, r);
    CreateSplices(w, r);
    HoleInFile(v, r);
    FramedReads(v, w', t, g, h);
    TwinsKeys(v, g, h);
    SplicedShape(v.n, g, t);
    SplicedShape(v.n, h, t);
    assert forall ino, p :: Path(v, ino, p) <==> Path(w, ino, p);
  }

  lemma SoundStates(v: Volume)
    requires Sound(v)
    ensures Consistent(v.geo, v.st)
  {
  }

  lemma SplicedShape(n: nat, g: Grown, t: Slot)
    requires Shaped(n, g.tr) && Exists(g.tr, t) && g.news != []
    ensures Shaped(n, SplicedTree(g, t)) && SplicedTree(g, t).blocks.Keys == g.tr.blocks.Keys
  {
    hide Write;
    ShapedKept(n, g.tr, t, g.news[0]);
  }

  // ----- the laws

  /** Where a pointer array is missing, the block that will become the last array, which is
      never cleared, reads as zeros. */
  ghost predicate LastReadsZero(geo: Geometry, n: nat, st: State, tr: Tree, r: Request)
    requires Creatable(geo, n, st, tr, r)
  {
    Missing(tr, r) > 0 && Makes(geo, n, st, tr, r) ==> ReadsZero(tr, LastBlock(geo, n, st, tr, r))
  }

  /** A creation with room keeps the volume sound, and changes the lookup of the block
      asked for, to the new block, exactly when it succeeds and only the leaf slot was
      missing. Every other lookup of every file stays. A block that was in use and in no file
      stays out of every file. */
  lemma CreateSound(v: Volume, r: Request) returns (v': Volume)
    requires Sound(v) && Path(v, r.ino, r.path) && Lookup(v.tr, r.ino, r.path) == 0
    requires Creatable(v.geo, v.n, v.st, v.tr, r) && RoomFor(v.geo, v.n, v.st, v.tr, r)
    requires LastReadsZero(v.geo, v.n, v.st, v.tr, r)
    ensures var g := Create(v.geo, v.n, v.st, v.tr, r);
            && Sound(v') && v'.geo == v.geo && v'.n == v.n && v'.st == g.st && v'.tr == g.tr
            && v'.tr.inodes.Keys == v.tr.inodes.Keys
            && forall ino, p :: Path(v, ino, p) ==>
                 Lookup(v'.tr, ino, p) == if g.err == OK && Missing(v.tr, r) == 0 && ino == r.ino && p == r.path
                                          then g.news[0] else Lookup(v.tr, ino, p)
    ensures StaysOut(v, v')
    ensures Create(v.geo, v.n, v.st, v.tr, r).err == OK ==> Create(v.geo, v.n, v.st, v.tr, r).news[0] != 0
  {
    hide Sound, Consistent, Shaped, ValidPath, HoleAt, SlotAt, Lookup, Goal, Hole, Missing, Roomy, Build, Create, Write,
         Read, Creatable, InUse, Tracked, LevelOf, Makes, LastBlock, BranchRoom, BranchFits;
    MakesExact(v, r);
    var w' := CreateFramed(v, r);
    var g := Create(v.geo, v.n, v.st, v.tr, r);
    LeafSlots(v, w', r);
    assert g.news[0] in g.news;
    Transfer(w', g.tr);
    v' := w'.(tr := g.tr, blank := false);
  }

  /** Every block in use is still, and no file has it that had it not. */
  ghost predicate StaysOut(v: Volume, v': Volume) {
    && StillUsed(v.geo, v.st, v'.st)
    && forall b :: Tracked(v.geo, b) && InUse(v.geo, v.st, b) && b !in v.lv ==> b !in v'.lv
  }

  lemma LeafSlots(v: Volume, w': Volume, r: Request)
    requires Consistent(v.geo, v.st) && Creatable(v.geo, v.n, v.st, v.tr, r) && Framed(v, r, w')
    requires var g := Create(v.geo, v.n, v.st, v.tr, r);
             g.err == OK && Missing(v.tr, r) > 0 ==> ReadsZero(v.tr, LastNew(g))
    ensures SameInFiles(w', Create(v.geo, v.n, v.st, v.tr, r).tr)
  {
    hide Sound, Consistent, Shaped, ValidPath, HoleAt, SlotAt, Lookup, Goal, Hole, Missing, Roomy, Build, Create, Write,
         Read, Creatable, InUse, Tracked, NewOnly;
  }

  /** The path is that of a block that shares its last array with the block asked for. */
  predicate Beside(r: Request, ino: nat, p: seq<nat>)
    requires p != [] && r.path != []
  {
    ino == r.ino && |p| == |r.path| && p[..|p| - 1] == r.path[..|p| - 1]
  }

  /** Every new array but the last holds the block after it. */
  lemma {:induction false} BuildChain(job: Job, upto: nat)
    requires job.Ready() && job.Reach(upto) && Build(job, upto).err == OK
    requires var news := Build(job, upto).news;
             forall i, j :: 0 <= i < j < |news| ==> news[i] != news[j]
    ensures var g := Build(job, upto);
            |g.news| == upto
            && forall j :: 1 <= j < upto ==> Read(g.tr, InBlock(g.news[j - 1], job.offs[j])) == g.news[j]
    decreases upto
  {
    hide Consistent, Shaped, Grant;
    if upto > 1 {
      var g0, g := Build(job, upto - 1), Build(job, upto);
      assert g.news == g0.news + [LastNew(g)];
      assert forall i :: 0 <= i < |g0.news| ==> g0.news[i] == g.news[i];
      BuildChain(job, upto - 1);
    }
  }

  /** So the walk along the path goes from one new block to the next. */
  lemma {:induction false} ChainWalk(tr: Tree, ino: nat, path: seq<nat>, t: Slot, h: nat, news: seq<nat>, j: nat)
    requires 1 <= h && h + j <= |path| && j < |news| && SlotAt(tr, ino, path[..h]) == Some(t) && Read(tr, t) == news[0]
    requires forall i :: 0 <= i < |news| ==> news[i] != 0
    requires forall i :: 1 <= i <= j ==> Read(tr, InBlock(news[i - 1], path[h - 1 + i])) == news[i]
    ensures Lookup(tr, ino, path[..h + j]) == news[j]
    decreases j
  {
    if j > 0 {
      ChainWalk(tr, ino, path, t, h, news, j - 1);
      assert path[..h + j][..h + j - 1] == path[..h + (j - 1)];
    }
  }

  /** What every lookup gives after a creation that had to make a pointer array: the blocks
      of the last array show what the array's block held before, all others are as before. */
  lemma DeepLookups(v: Volume, r: Request)
    requires Sound(v) && Path(v, r.ino, r.path) && Lookup(v.tr, r.ino, r.path) == 0
    requires Creatable(v.geo, v.n, v.st, v.tr, r) && RoomFor(v.geo, v.n, v.st, v.tr, r)
    requires Missing(v.tr, r) > 0 && Create(v.geo, v.n, v.st, v.tr, r).err == OK
    ensures var g := Create(v.geo, v.n, v.st, v.tr, r);
            forall ino, p :: Path(v, ino, p) ==>
              Lookup(g.tr, ino, p) == if Beside(r, ino, p) then Read(v.tr, InBlock(LastNew(g), p[|p| - 1]))
                                      else Lookup(v.tr, ino, p)
  {
    hide Sound, Consistent, Shaped, ValidPath, HoleAt, SlotAt, Lookup, Goal, Hole, Missing, Roomy, Build, Create, Write,
         Read, Creatable, InUse, Tracked, LevelOf, NewOnly, Framed, Beside;
    var w' := CreateFramed(v, r);
    var g := Create(v.geo, v.n, v.st, v.tr, r);
    LastReached(v, r, w');
    forall ino, p | Path(v, ino, p)
      ensures Lookup(g.tr, ino, p) == if Beside(r, ino, p) then Read(v.tr, InBlock(LastNew(g), p[|p| - 1]))
                                      else Lookup(v.tr, ino, p)
    {
      DeepLookup(v, r, w', ino, p);
    }
  }

  lemma DeepLookup(v: Volume, r: Request, w': Volume, ino: nat, p: seq<nat>)
    requires Sound(v) && Path(v, r.ino, r.path) && Path(v, ino, p) && Creatable(v.geo, v.n, v.st, v.tr, r)
    requires Missing(v.tr, r) > 0 && Create(v.geo, v.n, v.st, v.tr, r).err == OK && Consistent(v.geo, v.st)
    requires Framed(v, r, w') && |r.path| > 1
    requires Lookup(w'.tr, r.ino, r.path[..|r.path| - 1]) == LastNew(Create(v.geo, v.n, v.st, v.tr, r))
    ensures var g := Create(v.geo, v.n, v.st, v.tr, r);
            Lookup(g.tr, ino, p) == if Beside(r, ino, p) then Read(v.tr, InBlock(LastNew(g), p[|p| - 1]))
                                    else Lookup(v.tr, ino, p)
  {
    hide Consistent, Shaped, HoleAt, Goal, Hole, Missing, Roomy, Build, Create, Write, Read, Creatable, InUse, Tracked,
         NewOnly, StillUsed, Bitmapped, Cleared, Linked, ValidPath;
    var g := Create(v.geo, v.n, v.st, v.tr, r);
    var last := LastNew(g);
    assert p[..|p|] == p;
    WalkFrame(w', g.tr, ino, p, |p|);
    if SlotAt(w'.tr, ino, p).Some? {
      PathLevels(w'.n, w'.tr, w'.lv, w'.par, ino, p, |p|);
    }
    BesideExact(w', r, ino, p, last);
  }

  /** Only those blocks have their slots in the last array. */
  lemma BesideExact(w: Volume, r: Request, ino: nat, p: seq<nat>, last: nat)
    requires Sound(w) && Path(w, r.ino, r.path) && Path(w, ino, p) && |r.path| > 1 && last != 0
    requires Lookup(w.tr, r.ino, r.path[..|r.path| - 1]) == last
    ensures Beside(r, ino, p) ==> SlotAt(w.tr, ino, p) == Some(InBlock(last, p[|p| - 1]))
    ensures !Beside(r, ino, p) ==> forall k :: SlotAt(w.tr, ino, p) != Some(InBlock(last, k))
  {
    hide Shaped, Bitmapped, Cleared, ValidPath, Linked, LevelOf, Consistent, Padded, IsMeta, Read;
    var q := r.path;
    PathLevels(w.n, w.tr, w.lv, w.par, r.ino, q, |q| - 1);
    if |p| > 1 && SlotAt(w.tr, ino, p).Some? && Lookup(w.tr, ino, p[..|p| - 1]) == last {
      PathLevels(w.n, w.tr, w.lv, w.par, ino, p, |p| - 1);
      OneHolder(w.n, w.tr, w.lv, w.par, SlotAt(w.tr, ino, p[..|p| - 1]).value, SlotAt(w.tr, r.ino, q[..|q| - 1]).value);
      SlotUnique(w.n, w.tr, w.lv, w.par, ino, p, |p| - 1, r.ino, q, |q| - 1);
    }
  }

  lemma OneHolder(n: nat, tr: Tree, lv: map<nat, nat>, par: map<nat, Slot>, s: Slot, t: Slot)
    requires Linked(n, tr, lv, par) && LevelOf(n, tr, lv, s) >= 0 && LevelOf(n, tr, lv, t) >= 0
    requires Read(tr, s) == Read(tr, t) != 0
    ensures s == t
  {
  }

  lemma NewDistinct(v: Volume, news: seq<nat>, w': Volume)
    requires Sound(v) && NewOnly(v, news, w')
    ensures DistinctFree(v, news) && forall b :: b in news ==> b !in v.lv && b != 0
  {
    hide Consistent, Padded, IsMeta, InUse, Linked, Tracked, Shaped, Cleared;
  }

  /** On the wiped volume the splice changes no pointer. */
  lemma SpliceExtends(v: Volume, job: Job, upto: nat, t: Slot)
    requires Sound(v) && Consistent(v.geo, v.st) && job.Ready() && job.Reach(upto) && job.tr == Wiped(v).tr
    requires DistinctFree(v, Build(job, upto).news) && Exists(Build(job, upto).tr, t) && Read(job.tr, t) == 0
    ensures Extends(job.tr, SplicedTree(Build(job, upto), t))
  {
    hide Sound, Consistent, Shaped, InUse, Tracked, Build, Wiped, SameInFiles;
    var g := Build(job, upto);
    WipedSame(v);
    BuildTwins(job, job.tr, upto);
    assert forall b :: b in AllButLast(g.news) ==> b in g.news;
  }

  lemma ChainSpliced(v: Volume, g: Grown, t: Slot, offs: seq<nat>, path: seq<nat>, h: nat)
    requires 1 <= h <= |path| && offs == path[h - 1..] && |g.news| == |path| - h && g.news != [] && g.err == OK
    requires forall j :: 1 <= j < |g.news| ==> Read(g.tr, InBlock(g.news[j - 1], offs[j])) == g.news[j]
    requires Exists(g.tr, t) && (t.InBlock? ==> t.block in v.lv) && forall b :: b in g.news ==> b !in v.lv
    ensures Read(SplicedTree(g, t), t) == g.news[0]
    ensures forall i :: 1 <= i < |g.news| ==>
              Read(SplicedTree(g, t), InBlock(g.news[i - 1], path[h - 1 + i])) == g.news[i]
  {
    hide Read, Write;
    forall i | 1 <= i < |g.news|
      ensures Read(SplicedTree(g, t), InBlock(g.news[i - 1], path[h - 1 + i])) == g.news[i]
    {
      assert g.news[i - 1] in g.news && offs[i] == path[h - 1 + i];
    }
  }

  /** What w' is made of: a branch grown on the wiped volume and spliced into the hole. */
  lemma FramedParts(v: Volume, r: Request, w': Volume)
    requires Sound(v) && Path(v, r.ino, r.path) && Lookup(v.tr, r.ino, r.path) == 0 && Consistent(v.geo, v.st)
    requires Creatable(v.geo, v.n, v.st, v.tr, r) && Framed(v, r, w')
    requires Missing(v.tr, r) > 0 && Create(v.geo, v.n, v.st, v.tr, r).err == OK
    ensures var w, news := Wiped(v), Create(v.geo, v.n, v.st, v.tr, r).news;
            && Sound(w) && Path(w, r.ino, r.path) && Lookup(w.tr, r.ino, r.path) == 0
            && Creatable(v.geo, v.n, v.st, w.tr, r) && Missing(w.tr, r) == Missing(v.tr, r)
            && DistinctFree(v, news) && (forall b :: b in news ==> b !in v.lv && b != 0) && |news| == Missing(v.tr, r)
    ensures var w := Wiped(v);
            var t, g := Hole(w.tr, r), Build(JobFor(v.geo, v.n, v.st, w.tr, r), Missing(w.tr, r));
            && (t.InBlock? ==> t.block in v.lv) && Exists(g.tr, t)
            && g.err == OK && g.news == Create(v.geo, v.n, v.st, v.tr, r).news
            && w'.tr == SplicedTree(g, t) && Extends(w.tr, w'.tr)
  {
    hide Sound, Consistent, Shaped, ValidPath, SlotAt, Lookup, Goal, Roomy, Build, Write, Read, InUse, Tracked, LevelOf,
         Wiped, SameInFiles, SameLookups, NewOnly, StillUsed, HoleAt, DistinctFree, Extends;
    var w := Wiped(v);
    WipedSame(v);
    WipedSound(v);
    SameRequest(v, w.tr, r);
    NewDistinct(v, Create(v.geo, v.n, v.st, v.tr, r).news, w');
    HoleStays(v.geo, v.n, v.st, w.tr, r);
    HoleInFile(w, r);
    HoleReads(w.tr, r);
    SpliceExtends(v, JobFor(v.geo, v.n, v.st, w.tr, r), Missing(w.tr, r), Hole(w.tr, r));
  }

  /** The walk along the path of the block asked for reaches the last new array. */
  lemma LastReached(v: Volume, r: Request, w': Volume)
    requires Sound(v) && Path(v, r.ino, r.path) && Lookup(v.tr, r.ino, r.path) == 0 && Consistent(v.geo, v.st)
    requires Creatable(v.geo, v.n, v.st, v.tr, r) && Framed(v, r, w')
    requires Missing(v.tr, r) > 0 && Create(v.geo, v.n, v.st, v.tr, r).err == OK
    ensures |r.path| > 1
    ensures Lookup(w'.tr, r.ino, r.path[..|r.path| - 1]) == LastNew(Create(v.geo, v.n, v.st, v.tr, r))
  {
    hide Sound, Consistent, Shaped, ValidPath, SlotAt, Lookup, Goal, Roomy, Build, Write, Read, InUse, Tracked, LevelOf,
         Wiped, SameInFiles, SameLookups, NewOnly, StillUsed, HoleAt, Framed, Create, SplicedTree, Extends;
    FramedParts(v, r, w');
    var w := Wiped(v);
    var t, h, m := Hole(w.tr, r), HoleAt(w.tr, r.ino, r.path), Missing(w.tr, r);
    var job := JobFor(v.geo, v.n, v.st, w.tr, r);
    var g := Build(job, m);
    BuildChain(job, m);
    LookupStable(w.tr, w'.tr, r.ino, r.path[..h]);
    ChainSpliced(v, g, t, job.offs, r.path, h);
    assert forall i :: 0 <= i < |g.news| ==> g.news[i] in g.news;
    ChainWalk(w'.tr, r.ino, r.path, t, h, g.news, m - 1);
  }

  /** So after a creation that makes a pointer array all lookups are as they were exactly when
      the block that becomes the last array reads as zeros: of m arrays, the m-th free one at
      or after the goal. */
  lemma DeepExact(v: Volume, r: Request)
    requires Sound(v) && Path(v, r.ino, r.path) && Lookup(v.tr, r.ino, r.path) == 0
    requires Creatable(v.geo, v.n, v.st, v.tr, r) && Missing(v.tr, r) > 0 && Makes(v.geo, v.n, v.st, v.tr, r)
    ensures RoomFor(v.geo, v.n, v.st, v.tr, r) && Create(v.geo, v.n, v.st, v.tr, r).err == OK
    ensures SameLookups(v, Create(v.geo, v.n, v.st, v.tr, r).tr) <==>
              ReadsZero(v.tr, LastBlock(v.geo, v.n, v.st, v.tr, r))
  {
    hide Sound, Consistent, Shaped, HoleAt, SlotAt, Lookup, Goal, Hole, Roomy, Build, Create, Write, Read, Creatable,
         InUse, Tracked, Beside, Makes, LastBlock, RoomFor, BranchRoom;
    MakesExact(v, r);
    var g := Create(v.geo, v.n, v.st, v.tr, r);
    DeepLookups(v, r);
    forall k: nat | k < v.n
      ensures Path(v, r.ino, Neighbour(r, k)) && Lookup(v.tr, r.ino, Neighbour(r, k)) == 0
      ensures Beside(r, r.ino, Neighbour(r, k))
    {
      NeighbourHole(v, r, k);
    }
    if ReadsZero(v.tr, LastNew(g)) {
      forall ino, p | Path(v, ino, p) ensures Beside(r, ino, p) ==> Lookup(v.tr, ino, p) == 0 {
        if Beside(r, ino, p) { NeighbourHoles(v, r, ino, p); }
      }
    } else {
      var k :| Read(v.tr, InBlock(LastNew(g), k)) != 0;
      InArray(v, g, k);
      assert Lookup(g.tr, r.ino, Neighbour(r, k)) != Lookup(v.tr, r.ino, Neighbour(r, k));
    }
  }

  /** The path of the k-th block of the last array. */
  function Neighbour(r: Request, k: nat): (p: seq<nat>)
    requires r.path != []
    ensures p != [] && p[|p| - 1] == k
  {
    r.path[..|r.path| - 1] + [k]
  }

  lemma NeighbourHole(v: Volume, r: Request, k: nat)
    requires Path(v, r.ino, r.path) && Lookup(v.tr, r.ino, r.path) == 0 && Missing(v.tr, r) > 0 && k < v.n
    ensures Path(v, r.ino, Neighbour(r, k)) && Lookup(v.tr, r.ino, Neighbour(r, k)) == 0
    ensures Beside(r, r.ino, Neighbour(r, k))
  {
    var p := Neighbour(r, k);
    assert |r.path| > 1;
    assert p[..|p| - 1] == r.path[..|r.path| - 1];
    NeighbourHoles(v, r, r.ino, p);
  }

  lemma NeighbourHoles(v: Volume, r: Request, ino: nat, p: seq<nat>)
    requires r.path != [] && p != [] && Beside(r, ino, p) && Lookup(v.tr, r.ino, r.path) == 0 && Missing(v.tr, r) > 0
    ensures Lookup(v.tr, ino, p) == 0
  {
    assert r.path[..|r.path|] == r.path;
    assert SlotAt(v.tr, r.ino, r.path).None?;
  }

  lemma InArray(v: Volume, g: Grown, k: nat)
    requires Sound(v) && g.news != [] && Read(v.tr, InBlock(LastNew(g), k)) != 0
    ensures k < v.n
  {
  }

  /** On a volume whose free blocks read as zeros that is always so. */
  lemma BlankLast(v: Volume, r: Request)
    requires Sound(v) && v.blank && Path(v, r.ino, r.path) && Lookup(v.tr, r.ino, r.path) == 0
    requires Creatable(v.geo, v.n, v.st, v.tr, r)
    ensures LastReadsZero(v.geo, v.n, v.st, v.tr, r)
  {
    hide Consistent, Shaped, ValidPath, HoleAt, SlotAt, Lookup, Goal, Hole, Missing, RoomFor, Create, Write, Read,
         Creatable, InUse, Tracked, Linked, Padded, IsMeta, Wiped, Makes, LastBlock, BranchRoom;
    MakesExact(v, r);
    if Makes(v.geo, v.n, v.st, v.tr, r) {
      var w' := CreateFramed(v, r);
      var g := Create(v.geo, v.n, v.st, v.tr, r);
      assert g.news[|g.news| - 1] in g.news;
    }
  }
}
