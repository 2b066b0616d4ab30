/** Allocation of the missing part of a path, as values: where the search for a block
    starts, what the allocation of a branch does to bitmaps and arrays, and where the
    new branch is spliced in. */
module Branch {
  import opened Answers
  import opened Bits
  import opened BlockPath
  import opened BlockAllocator
  import opened BlockAllocatorLaws
  import opened FileTree

  /** The nearest non-hole before index k, or 0. */
  function Near(slots: seq<nat>, k: nat): (r: nat)
    requires k <= |slots|
    ensures r == 0 ==> forall j :: 0 <= j < k ==> slots[j] == 0
    ensures r != 0 ==> exists j :: 0 <= j < k && slots[j] == r && forall i :: j < i < k ==> slots[i] == 0
  {
    if k == 0 then 0 else if slots[k - 1] != 0 then slots[k - 1] else Near(slots, k - 1)
  }

  /** The pointer array a slot lies in. */
  function ArrayOf(tr: Tree, s: Slot): seq<nat>
    requires Exists(tr, s)
  {
    match s
    case InInode(i, _) => tr.inodes[i]
    case InBlock(b, _) => tr.blocks[b]
  }

  /** The slot i places after s in its array. */
  function Shift(s: Slot, i: nat): Slot {
    match s
    case InInode(ino, k) => InInode(ino, k + i)
    case InBlock(b, k) => InBlock(b, k + i)
  }

  /** The caller's place within a group. */
  function Colour(pid: nat, perGroup: nat): nat {
    MulMono(0, pid % 16, perGroup / 16);
    pid % 16 * (perGroup / 16)
  }

  /** The block to search from: the nearest mapped block of the same array, else the
      array's own block, else a place in the inode's group coloured by the caller. */
  function Goal(geo: Geometry, tr: Tree, s: Slot, group: nat, pid: nat): nat
    requires Exists(tr, s)
  {
    var near := Near(ArrayOf(tr, s), s.at);
    U32(if near != 0 then near
        else if s.InBlock? then s.block
        else geo.FirstBlock(group) + Colour(pid, geo.perGroup))
  }

  /** The length of the prefix of p that ends at the first hole. */
  function HoleAt(tr: Tree, ino: nat, p: seq<nat>): (j: nat)
    requires p != [] && Lookup(tr, ino, p) == 0
    ensures 1 <= j <= |p| && SlotAt(tr, ino, p[..j]).Some? && Read(tr, SlotAt(tr, ino, p[..j]).value) == 0
    decreases |p|
  {
    assert p[..|p|] == p;
    if SlotAt(tr, ino, p).Some? then |p|
    else
      var q := p[..|p| - 1];
      assert forall j :: 0 <= j <= |q| ==> q[..j] == p[..j];
      HoleAt(tr, ino, q)
  }

  /** What the outside decides about one allocation call. */
  datatype Env = Env(hasFree: bool, readable: bool)

  /** Every inode has its fifteen slots, every block holds n pointers. */
  predicate Shaped(n: nat, tr: Tree) {
    && (forall i :: i in tr.inodes ==> |tr.inodes[i]| == NSLOTS)
    && (forall b :: b in tr.blocks ==> |tr.blocks[b]| == n)
  }

  datatype Grown = Grown(st: State, tr: Tree, news: seq<nat>, count: nat, num: nat, err: int)

  /** The group the search runs in has a clear bit at or after the goal, unless the call
      is turned away before the search. */
  predicate HasRoom(geo: Geometry, st: State, goal: nat, e: Env)
    requires Consistent(geo, st)
  {
    var p := PlanOf(geo, st, goal, e.hasFree, e.readable);
    p.outcome in {Gate, NoCount, Unreadable} || HasZeroFrom(st.used[p.group], Target(geo, goal))
  }

  function Grant(geo: Geometry, st: State, goal: nat, e: Env, count: nat, err: int): (r: (State, Result))
    requires Consistent(geo, st)
    ensures Consistent(geo, r.0) && r.1.count <= (if r.1.err == OK && err != OK then 1 else count)
  {
    (Next(geo, st, goal, e.hasFree, e.readable),
     Answer(PlanOf(geo, st, goal, e.hasFree, e.readable), count, err))
  }

  function Begin(geo: Geometry, st: State, tr: Tree, goal: nat, e: Env, count: nat, err: int): (g: Grown)
    requires Consistent(geo, st)
    ensures Consistent(geo, g.st) && |g.news| == 1
  {
    var (st', a) := Grant(geo, st, goal, e, count, err);
    Grown(st', tr, [a.block], a.count, a.count, a.err)
  }

  /** One more level: the last new block becomes an empty array with one entry. */
  function Extend(geo: Geometry, n: nat, g: Grown, goal: nat, e: Env, at: nat): (g': Grown)
    requires Consistent(geo, g.st) && g.news != [] && at < n && Shaped(n, g.tr)
    ensures Consistent(geo, g'.st) && g'.news != []
    ensures Shaped(n, g'.tr) && g'.tr.inodes == g.tr.inodes && g.tr.blocks.Keys <= g'.tr.blocks.Keys
    ensures g'.err == OK ==> |g'.news| == |g.news| + 1
  {
    var (st', a) := Grant(geo, g.st, goal, e, g.count, g.err);
    if a.err != OK then g.(st := st', err := ENOMEM)
    else
      Grown(st', g.tr.(blocks := g.tr.blocks[g.news[|g.news| - 1] := OneEntry(n, at, a.block)]),
            g.news + [a.block], a.count, g.num + 1, a.err)
  }

  function OneEntry(n: nat, at: nat, v: nat): seq<nat>
    requires at < n
  {
    seq(n, k => if k == at then v else 0)
  }

  /** The inputs of one branch allocation; `offs` are the offsets from the hole on. */
  datatype Job = Job(geo: Geometry, n: nat, st: State, tr: Tree, goal: nat, env: nat -> Env, count: nat, err: int,
                     offs: seq<nat>)
  {
    predicate Ready() {
      Consistent(geo, st) && Shaped(n, tr) && forall k :: 1 <= k < |offs| ==> offs[k] < n
    }

    predicate Reach(upto: nat) {
      1 <= upto && (upto == 1 || upto <= |offs|)
    }
  }

  /** The loop of the branch allocation after the blocks numbered below `upto`. */
  function Build(job: Job, upto: nat): (g: Grown)
    requires job.Ready() && job.Reach(upto)
    ensures Consistent(job.geo, g.st) && g.news != []
    ensures Shaped(job.n, g.tr) && g.tr.inodes == job.tr.inodes && job.tr.blocks.Keys <= g.tr.blocks.Keys
    ensures g.err == OK ==> |g.news| == upto
    decreases upto
  {
    if upto == 1 then Begin(job.geo, job.st, job.tr, job.goal, job.env(0), job.count, job.err)
    else
      var g := Build(job, upto - 1);
      if g.err != OK then g
      else Extend(job.geo, job.n, g, job.goal, job.env(upto - 1), job.offs[upto - 1])
  }

  /** How far the source's loop runs for `missing` levels: one block short of the data
      block as soon as an array is missing. */
  function Rounds(missing: nat): nat {
    if missing <= 1 then 1 else missing
  }

  datatype Request = Request(ino: nat, path: seq<nat>, group: nat, pid: nat, env: nat -> Env, count: nat, err: int)

  predicate Creatable(geo: Geometry, n: nat, st: State, tr: Tree, r: Request) {
    && Consistent(geo, st) && Shaped(n, tr) && ValidPath(n, r.path) && r.ino in tr.inodes
    && Lookup(tr, r.ino, r.path) == 0
    && Exists(tr, Hole(tr, r))
  }

  function Hole(tr: Tree, r: Request): Slot
    requires r.path != [] && Lookup(tr, r.ino, r.path) == 0
  {
    SlotAt(tr, r.ino, r.path[..HoleAt(tr, r.ino, r.path)]).value
  }

  function Missing(tr: Tree, r: Request): nat
    requires r.path != [] && Lookup(tr, r.ino, r.path) == 0
  {
    |r.path| - HoleAt(tr, r.ino, r.path)
  }

  function Offsets(tr: Tree, r: Request): seq<nat>
    requires r.path != [] && Lookup(tr, r.ino, r.path) == 0
  {
    r.path[HoleAt(tr, r.ino, r.path) - 1..]
  }

  function GoalFor(geo: Geometry, tr: Tree, r: Request): nat
    requires r.path != [] && Lookup(tr, r.ino, r.path) == 0 && Exists(tr, Hole(tr, r))
  {
    Goal(geo, tr, Hole(tr, r), r.group, r.pid)
  }

  function JobFor(geo: Geometry, n: nat, st: State, tr: Tree, r: Request): (job: Job)
    requires Creatable(geo, n, st, tr, r)
    ensures job.Ready() && job.Reach(Rounds(Missing(tr, r)))
  {
    Job(geo, n, st, tr, GoalFor(geo, tr, r), r.env, r.count, r.err, Offsets(tr, r))
  }

  /** Growing the branch leaves the hole where it is. */
  lemma HoleStays(geo: Geometry, n: nat, st: State, tr: Tree, r: Request)
    requires Creatable(geo, n, st, tr, r)
    ensures Exists(Build(JobFor(geo, n, st, tr, r), Rounds(Missing(tr, r))).tr, Hole(tr, r))
  {
  }

  /** The array with the numbers from `first` on in `blks` slots from k on, as far as it goes. */
  function Filled(slots: seq<nat>, k: nat, first: nat, blks: nat): (s: seq<nat>)
    ensures |s| == |slots|
    ensures forall i :: 0 <= i < |slots| ==> s[i] == if k <= i < k + blks then first + (i - k) else slots[i]
  {
    seq(|slots|, i requires 0 <= i < |slots| => if k <= i < k + blks then first + (i - k) else slots[i])
  }

  function Spread(tr: Tree, t: Slot, first: nat, blks: nat): (tr': Tree)
    requires Exists(tr, t)
    ensures forall s :: Exists(tr', s) <==> Exists(tr, s)
    ensures tr'.inodes.Keys == tr.inodes.Keys && tr'.blocks.Keys == tr.blocks.Keys
  {
    match t
    case InInode(i, k) => tr.(inodes := tr.inodes[i := Filled(tr.inodes[i], k, first, blks)])
    case InBlock(b, k) => tr.(blocks := tr.blocks[b := Filled(tr.blocks[b], k, first, blks)])
  }

  /** Stores the first block of the branch in the hole. Where no array was missing and the
      allocation claims several blocks, the numbers after it go into the slots from the hole
      itself on. */
  function Splice(tr: Tree, t: Slot, first: nat, missing: nat, blks: nat): (tr': Tree)
    requires Exists(tr, t)
    ensures tr'.inodes.Keys == tr.inodes.Keys && forall s :: Exists(tr', s) <==> Exists(tr, s)
  {
    var spliced := Write(tr, t, first);
    if missing == 0 && 1 < blks then Spread(spliced, t, first + 1, blks) else spliced
  }

  /** The whole creation: grow a branch, then splice it into the hole. */
  function Create(geo: Geometry, n: nat, st: State, tr: Tree, r: Request): (g: Grown)
    requires Creatable(geo, n, st, tr, r)
    ensures Consistent(geo, g.st) && g.news != []
  {
    var g := Build(JobFor(geo, n, st, tr, r), Rounds(Missing(tr, r)));
    if g.err != OK then g
    else
      HoleStays(geo, n, st, tr, r);
      g.(tr := Splice(g.tr, Hole(tr, r), g.news[0], Missing(tr, r), g.num))
  }

  /** The allocation of the first block finds one outside the volume, which is no error when
      `err` was 0 before. */
  predicate Overruns(geo: Geometry, st: State, tr: Tree, r: Request)
    requires Consistent(geo, st) && r.path != [] && Lookup(tr, r.ino, r.path) == 0 && Exists(tr, Hole(tr, r))
  {
    PlanOf(geo, st, GoalFor(geo, tr, r), r.env(0).hasFree, r.env(0).readable).outcome == OutOfVolume
  }

  /** The allocation claims several blocks exactly when it has found a block outside the
      volume and the caller's variables say so: `err` is 0 and `count` is above 1. */
  lemma ClaimsExact(geo: Geometry, n: nat, st: State, tr: Tree, r: Request)
    requires Creatable(geo, n, st, tr, r) && Missing(tr, r) == 0
    ensures var g := Create(geo, n, st, tr, r);
            (g.err == OK && 1 < g.num) <==> (Overruns(geo, st, tr, r) && r.err == OK && 1 < r.count)
  {
    hide Shaped, ValidPath, Consistent, PlanOf, Splice, Hole, Lookup, GoalFor, Begin, HoleAt, SlotAt;
    BeginClaims(geo, st, tr, GoalFor(geo, tr, r), r.env(0), r.count, r.err);
    FirstRound(JobFor(geo, n, st, tr, r));
  }

  lemma FirstRound(job: Job)
    requires job.Ready()
    ensures Build(job, 1) == Begin(job.geo, job.st, job.tr, job.goal, job.env(0), job.count, job.err)
  {
  }

  lemma BeginClaims(geo: Geometry, st: State, tr: Tree, goal: nat, e: Env, count: nat, err: int)
    requires Consistent(geo, st)
    ensures var g := Begin(geo, st, tr, goal, e, count, err);
            (g.err == OK && 1 < g.num) <==>
            (PlanOf(geo, st, goal, e.hasFree, e.readable).outcome == OutOfVolume && err == OK && 1 < count)
  {
    hide PlanOf, After, Consistent;
    PlanBounds(geo, st, goal, e);
  }

  lemma PlanBounds(geo: Geometry, st: State, goal: nat, e: Env)
    requires Consistent(geo, st)
    ensures PlanOf(geo, st, goal, e.hasFree, e.readable).num <= 1
  {
  }

  /** Else the splice is one store. */
  lemma PlainSplice(geo: Geometry, n: nat, st: State, tr: Tree, r: Request)
    requires Creatable(geo, n, st, tr, r)
    requires Missing(tr, r) > 0 || r.err != OK || r.count <= 1 || !Overruns(geo, st, tr, r)
    ensures var g, t := Build(JobFor(geo, n, st, tr, r), Rounds(Missing(tr, r))), Hole(tr, r);
            && Exists(g.tr, t) && g.news != []
            && Create(geo, n, st, tr, r) == if g.err == OK then g.(tr := Write(g.tr, t, g.news[0])) else g
  {
    hide Shaped, ValidPath, Consistent, Overruns, Write, Spread, Hole, Lookup, Build;
    HoleStays(geo, n, st, tr, r);
    if Missing(tr, r) == 0 {
      ClaimsExact(geo, n, st, tr, r);
    }
  }
}
