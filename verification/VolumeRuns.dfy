/** The namespace on top of the inode allocator: the numbers new names get are the ones the
    bitmaps give out. */
module VolumeRuns {
  import opened Answers
  import opened DirectoryNames
  import opened NamespaceModel
  import opened NamespaceRuns
  import F = FreeCounts
  import opened InodeAllocator
  import opened InodeAllocatorLaws

  datatype State = State(fs: Fs, inodes: Inodes)

  /** The calls that come from the VFS. The two that make an inode carry what the allocator
      reads and what the directory layer answers. */
  datatype Call =
    | NewFile(dir: nat, name: string, request: Request, addErr: int)
    | NewDir(dir: nat, name: string, request: Request, makeErr: int, addErr: int)
    | Change(op: Op)

  /** Every inode of the namespace has its bit set. */
  ghost predicate Joined(v: Volume, s: State) {
    && Consistent(s.fs) && ValidInodes(v, s.inodes)
    && forall i: nat :: i in s.fs.nodes ==> InUse(v, s.inodes, i)
  }

  /** What the VFS sees to; that a new inode number is fresh is not part of it. */
  ghost predicate Permitted(v: Volume, s: State, c: Call) {
    match c
    case NewFile(d, n, r, _) => Fits(v, r) && !r.isDir && LiveDir(s.fs, d) && !IsDot(n) && n !in s.fs.dirs[d]
    case NewDir(d, n, r, _, _) => Fits(v, r) && r.isDir && LiveDir(s.fs, d) && !IsDot(n) && n !in s.fs.dirs[d]
    case Change(op) => !op.Create? && !op.Mkdir? && Allowed(s.fs, op)
  }

  /** The operation on the namespace a call comes to, once the allocator has answered. */
  function OpOf(c: Call, a: Allocated): Option<Op> {
    match c
    case NewFile(d, n, r, addErr) => if a.Ino? then Some(Create(d, n, a.ino, addErr)) else None
    case NewDir(d, n, r, makeErr, addErr) =>
      Some(if a.Ino? then Mkdir(d, n, Some(a.ino), OK, makeErr, addErr) else Mkdir(d, n, None, a.err, makeErr, addErr))
    case Change(op) => Some(op)
  }

  function AfterAlloc(v: Volume, s: State, c: Call): (Inodes, Allocated)
    requires Joined(v, s) && Permitted(v, s, c)
  {
    if c.Change? then (s.inodes, Allocated.Failed(OK)) else Alloc(v, s.inodes, c.request)
  }

  /** A failed allocation has an error to report. */
  lemma AllocFails(v: Volume, st: Inodes, r: Request)
    requires ValidInodes(v, st) && Fits(v, r) && Alloc(v, st, r).1.Failed?
    ensures Alloc(v, st, r).1.err != OK
  {
    hide Choose, Scan, Charge, Mark;
    ChooseInRange(v, st, r);
  }

  /** The numbers are fresh, so the operation is one the namespace allows. */
  lemma OpAllowed(v: Volume, s: State, c: Call)
    requires Joined(v, s) && Permitted(v, s, c)
    ensures var op := OpOf(c, AfterAlloc(v, s, c).1); op.Some? ==> Shaped(s.fs) && Allowed(s.fs, op.value)
  {
    hide Alloc, Counted, Rooted, Dotted, Aimed, Held, InUse;
    if !c.Change? {
      AllocFresh(v, s.inodes, c.request);
      var a := Alloc(v, s.inodes, c.request).1;
      if a.Failed? {
        AllocFails(v, s.inodes, c.request);
      } else {
        UsedIsPositive(v, Alloc(v, s.inodes, c.request).0, a.ino);
      }
    }
  }

  lemma UsedIsPositive(v: Volume, st: Inodes, ino: nat)
    requires ValidInodes(v, st) && InUse(v, st, ino)
    ensures ino != 0
  {
  }

  function Next(v: Volume, s: State, c: Call): (State, int)
    requires Joined(v, s) && Permitted(v, s, c)
  {
    OpAllowed(v, s, c);
    var (inodes, a) := AfterAlloc(v, s, c);
    var op := OpOf(c, a);
    if op.None? then (State(s.fs, inodes), a.err)
    else
      var (fs, err) := Step(s.fs, op.value);
      (State(fs, inodes), err)
  }

  /** A mkdir that fails after its inode has been allocated. */
  predicate FailsLate(c: Call, a: Allocated) {
    c.NewDir? && a.Ino? && (c.makeErr != OK || c.addErr != OK)
  }

  /** Every call keeps the namespace consistent and its inodes in use, with numbers from the
      allocator, unless it is a mkdir that fails late. */
  lemma NextKeeps(v: Volume, s: State, c: Call)
    requires Joined(v, s) && Permitted(v, s, c) && !FailsLate(c, AfterAlloc(v, s, c).1)
    ensures Joined(v, Next(v, s, c).0)
  {
    hide Alloc, Consistent, Allowed, Step, InUse, ValidInodes;
    OpAllowed(v, s, c);
    JoinedValid(v, s);
    var (inodes, a) := AfterAlloc(v, s, c);
    if !c.Change? {
      AllocFresh(v, s.inodes, c.request);
    }
    var op := OpOf(c, a);
    if op.Some? {
      StepExact(s.fs, op.value);
      StepNodes(s.fs, op.value);
    }
  }

  lemma JoinedValid(v: Volume, s: State)
    requires Joined(v, s)
    ensures ValidInodes(v, s.inodes) && Consistent(s.fs)
  {
  }

  /** An operation adds no inode but the one it is given. */
  lemma StepNodes(fs: Fs, op: Op)
    requires Shaped(fs) && Allowed(fs, op)
    ensures forall i: nat :: i in Step(fs, op).0.nodes ==>
              i in fs.nodes || (op.Create? && i == op.ino) || (op.Mkdir? && op.alloc == Some(i))
  {
    hide Shaped, Under, GoodVerdict;
  }

  /** calls lead from s to s', each permitted when its turn comes. */
  ghost predicate Leads(v: Volume, s: State, calls: seq<Call>, s': State)
    decreases |calls|
  {
    if calls == [] then s' == s
    else
      && Joined(v, s) && Permitted(v, s, calls[0]) && !FailsLate(calls[0], AfterAlloc(v, s, calls[0]).1)
      && Leads(v, Next(v, s, calls[0]).0, calls[1..], s')
  }

  /** Every run keeps namespace and bitmaps together. */
  lemma {:induction false} LeadsKeeps(v: Volume, s: State, calls: seq<Call>, s': State)
    requires Joined(v, s) && Leads(v, s, calls, s')
    ensures Joined(v, s')
    decreases |calls|
  {
    hide Joined, Permitted, AfterAlloc, Next, FailsLate;
    if calls != [] {
      NextKeeps(v, s, calls[0]);
      LeadsKeeps(v, Next(v, s, calls[0]).0, calls[1..], s');
    }
  }

  /** A bare root whose bit is set is where a run can start. */
  lemma JustRootJoined(v: Volume, inodes: Inodes, root: nat)
    requires root != 0 && ValidInodes(v, inodes) && InUse(v, inodes, root)
    ensures Joined(v, State(JustRoot(root), inodes))
  {
    JustRootConsistent(root);
  }

  /** Some group has a free inode, and for a file a free block as well. */
  ghost predicate HasGroup(v: Volume, s: State, c: Call)
    requires ValidInodes(v, s.inodes) && !c.Change? && Fits(v, c.request)
  {
    exists g :: 0 <= g < v.groups && F.Zeros(s.inodes.used[g]) > 0 && (c.NewDir? || c.request.freeBlocks[g] > 0)
  }

  /** What the directory layer answers: for a directory, first about its own first block. */
  function LayerError(c: Call): int
    requires !c.Change?
  {
    if c.NewDir? && c.makeErr != OK then c.makeErr else c.addErr
  }

  /** With exact counts, readable bitmaps and room in the inode cache, a name is made exactly
      when some group will do and the directory layer has no error; where no group will do,
      the answer is "no space" and the volume is as before, else it is the layer's. */
  lemma NewExact(v: Volume, s: State, c: Call)
    requires Joined(v, s) && Permitted(v, s, c) && Settled(v, s.inodes)
    requires !c.Change? && c.request.unreadable == {} && c.request.inserted
    ensures var (s', err) := Next(v, s, c);
            && (err == OK <==> HasGroup(v, s, c) && LayerError(c) == OK)
            && (err == OK ==> c.dir in s'.fs.dirs && c.name in s'.fs.dirs[c.dir]
                              && s'.fs.dirs[c.dir][c.name] !in s.fs.nodes)
            && (!HasGroup(v, s, c) ==> err == ENOSPC && s' == s)
            && (HasGroup(v, s, c) ==> err == LayerError(c))
            && Settled(v, s'.inodes)
  {
    hide Alloc, Counted, Rooted, Based, Dotted, Aimed, Held, InUse, F.Zeros, Settled;
    OpAllowed(v, s, c);
    AllocExact(v, s.inodes, c.request);
    AllocFresh(v, s.inodes, c.request);
    SettledKeeps(v, s.inodes, c.request);
    assert c.NewDir? ==> AddLinks(AddLinks(s.fs, c.dir, 1), c.dir, -1) == s.fs by { UpAndDown(s.fs, c.dir); }
  }

  /** Without any of that: the allocator's error is passed on and the namespace stays as it was;
      with a number the directory layer answers, and the name gets that number. */
  lemma NewAnswers(v: Volume, s: State, c: Call)
    requires Joined(v, s) && Permitted(v, s, c) && !c.Change?
    ensures var (s', err) := Next(v, s, c);
            var (inodes, a) := Alloc(v, s.inodes, c.request);
            && s'.inodes == inodes
            && (a.Failed? ==> s'.fs == s.fs && err == a.err)
            && (a.Ino? ==> err == LayerError(c))
            && (a.Ino? && err == OK ==> c.dir in s'.fs.dirs && c.name in s'.fs.dirs[c.dir]
                                        && s'.fs.dirs[c.dir][c.name] == a.ino)
  {
    hide Alloc, Counted, Rooted, Based, Dotted, Aimed, Held, InUse;
    OpAllowed(v, s, c);
    AllocFresh(v, s.inodes, c.request);
    assert c.NewDir? ==> AddLinks(AddLinks(s.fs, c.dir, 1), c.dir, -1) == s.fs by { UpAndDown(s.fs, c.dir); }
  }

  lemma UpAndDown(fs: Fs, d: nat)
    requires d in fs.nodes
    ensures AddLinks(AddLinks(fs, d, 1), d, -1) == fs
  {
    assert AddLinks(AddLinks(fs, d, 1), d, -1).nodes == fs.nodes;
  }
}
