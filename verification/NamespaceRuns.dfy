/** Whole runs of namespace operations. */
module NamespaceRuns {
  import opened Answers
  import opened DirectoryNames
  import opened NamespaceModel
  import opened NamespaceLaws

  /** An operation the VFS allows keeps the namespace consistent exactly when it is not a
      mkdir that fails after its inode has been allocated. */
  lemma StepExact(fs: Fs, op: Op)
    requires Consistent(fs) && Allowed(fs, op)
    ensures Consistent(Step(fs, op).0) <==> !LateFailure(op)
  {
    hide Counted, Rooted, Based, Dotted, Aimed, Held, StepCreate, StepMkdir, StepUnlink, StepRmdir, StepRename, Under;
    match op
    case Create(d, n, i, addErr) => CreateKeeps(fs, d, n, i, addErr);
    case Mkdir(_, _, _, _, _, _) => MkdirExact(fs, op);
    case Unlink(d, n) => UnlinkKeeps(fs, d, n);
    case Rmdir(d, n, v) => RmdirKeeps(fs, d, n, v);
    case Rename(d, n, e, m, v, addErr) =>
      if IsDir(fs, fs.dirs[d][n]) {
        RenameDirKeeps(fs, d, n, e, m, v, addErr);
      } else {
        RenameFileKeeps(fs, d, n, e, m, v, addErr);
      }
  }

  /** ops lead from fs to fs', each allowed when its turn comes. */
  ghost predicate Runs(fs: Fs, ops: seq<Op>, fs': Fs)
    decreases |ops|
  {
    if ops == [] then fs' == fs
    else Shaped(fs) && Allowed(fs, ops[0]) && !LateFailure(ops[0]) && Runs(Step(fs, ops[0]).0, ops[1..], fs')
  }

  /** Every run keeps the namespace consistent. */
  lemma {:induction false} RunKeeps(fs: Fs, ops: seq<Op>, fs': Fs)
    requires Consistent(fs) && Runs(fs, ops, fs')
    ensures Consistent(fs')
    decreases |ops|
  {
    hide Counted, Rooted, Based, Dotted, Aimed, Held, Step, Allowed;
    if ops != [] {
      StepExact(fs, ops[0]);
      RunKeeps(Step(fs, ops[0]).0, ops[1..], fs');
    }
  }

  /** A mounted volume's root alone. */
  function JustRoot(root: nat): Fs {
    Fs(root, map[root := Node(true, 2)], map[root := NewDots(root, root)])
  }

  lemma JustRootConsistent(root: nat)
    requires root != 0
    ensures Consistent(JustRoot(root))
  {
    var fs := JustRoot(root);
    assert Climbs(fs, root, 0);
    assert Children(fs, root) == {};
  }

  /** After any run from a bare root: a directory's link count is 2 plus the number of its
      child directories, a file's is the number of its entries, ".." names the directory
      that holds the one entry, and leads to the root. */
  lemma RunCounts(root: nat, ops: seq<Op>, fs: Fs, i: nat)
    requires root != 0 && Runs(JustRoot(root), ops, fs) && i in fs.nodes
    ensures fs.nodes[i].isDir && fs.nodes[i].nlink > 0 ==>
              && i in fs.dirs && fs.nodes[i].nlink == 2 + |Children(fs, i)| && ToRoot(fs, i)
              && (i != fs.root ==> ".." in fs.dirs[i] && exists n: string :: Entry(fs, Parent(fs, i), n, i))
    ensures !fs.nodes[i].isDir ==> fs.nodes[i].nlink == |Refs(fs, i)|
    ensures fs.nodes[i].isDir ==> forall d: nat, n: string :: Entry(fs, d, n, i) ==>
              i in fs.dirs && ".." in fs.dirs[i] && Parent(fs, i) == d
  {
    JustRootConsistent(root);
    RunKeeps(JustRoot(root), ops, fs);
  }

  /** The entries after i has moved from (d, n) to (e, m). */
  ghost predicate Moved(fs: Fs, d: nat, n: string, e: nat, m: string, i: nat, fs': Fs) {
    forall x: nat, k: string, j: nat :: Entry(fs', x, k, j) <==>
      (Entry(fs, x, k, j) && !(x == d && k == n) && !(x == e && k == m)) || (x == e && k == m && j == i)
  }

  /** A rename of a file takes away the old entry and the one in the way, and gives the new
      name the file; no other entry changes. */
  lemma RenameFileMoves(fs: Fs, d: nat, n: string, e: nat, m: string, v: Verdict)
    requires Consistent(fs) && Allowed(fs, Rename(d, n, e, m, v, OK)) && !IsDir(fs, fs.dirs[d][n])
    ensures Moved(fs, d, n, e, m, fs.dirs[d][n], Step(fs, Rename(d, n, e, m, v, OK)).0)
  {
    hide Counted, Rooted, Dotted, Aimed, Held, Refs, Children, Under, IsDir, UnlinkFile, LinkFile, Cleared,
        StepRename, IsDot;
    var i := fs.dirs[d][n];
    RenameFileIs(fs, d, n, e, m, v, OK);
    var fs1 := Cleared(fs, e, m);
    ClearedEntries(fs, e, m);
    UnlinkedEntries(fs1, d, n);
    var fs2 := UnlinkFile(fs1, d, n);
    LinkFileChange(fs2, e, m, i);
  }

  lemma UnlinkedEntries(fs: Fs, d: nat, n: string)
    requires Consistent(fs) && LiveDir(fs, d) && !IsDot(n) && n in fs.dirs[d] && fs.dirs[d][n] in fs.nodes
    requires !IsDir(fs, fs.dirs[d][n])
    ensures Consistent(UnlinkFile(fs, d, n))
    ensures forall x: nat, k: string, j: nat :: Entry(UnlinkFile(fs, d, n), x, k, j) <==>
              Entry(fs, x, k, j) && !(x == d && k == n)
    ensures forall x: nat :: LiveDir(UnlinkFile(fs, d, n), x) <==> LiveDir(fs, x)
    ensures forall x: nat :: IsDir(UnlinkFile(fs, d, n), x) <==> IsDir(fs, x)
    ensures UnlinkFile(fs, d, n).nodes.Keys == fs.nodes.Keys
    ensures forall x: nat :: x in fs.dirs ==>
              x in UnlinkFile(fs, d, n).dirs && UnlinkFile(fs, d, n).dirs[x].Keys <= fs.dirs[x].Keys
  {
    hide Rooted, Dotted, Aimed, Held;
    UnlinkFileKeeps(fs, d, n);
    EntryHere(fs, d, n);
    RefsIff(fs, fs.dirs[d][n]);
    assert (d, n) in Refs(fs, fs.dirs[d][n]);
    UnlinkFileChange(fs, d, n);
  }

  lemma ClearedEntries(fs: Fs, e: nat, m: string)
    requires Consistent(fs) && LiveDir(fs, e) && !IsDot(m)
    requires m in fs.dirs[e] ==> fs.dirs[e][m] in fs.nodes && !IsDir(fs, fs.dirs[e][m])
    ensures forall x: nat, k: string, j: nat :: Entry(Cleared(fs, e, m), x, k, j) <==>
              Entry(fs, x, k, j) && !(x == e && k == m)
  {
    if m in fs.dirs[e] { UnlinkedEntries(fs, e, m); }
  }

  lemma AimedAt(fs: Fs, d: nat, n: string)
    requires Shaped(fs) && LiveDir(fs, d) && n in fs.dirs[d] && Entry(fs, d, n, fs.dirs[d][n])
    ensures fs.dirs[d][n] in fs.nodes && fs.dirs[d][n] != fs.root
  {
    hide Based, Dotted, Held;
    var i := fs.dirs[d][n];
    assert Entry(fs, d, n, i);
  }

  /** A rename of a directory onto an empty one or a free name moves its one entry, and its
      ".." with it. */
  lemma RenameDirMoves(fs: Fs, d: nat, n: string, e: nat, m: string)
    requires Consistent(fs) && Allowed(fs, Rename(d, n, e, m, Empty, OK)) && IsDir(fs, fs.dirs[d][n])
    ensures var i, fs' := fs.dirs[d][n], Step(fs, Rename(d, n, e, m, Empty, OK)).0;
            && Moved(fs, d, n, e, m, i, fs')
            && i in fs'.dirs && ".." in fs'.dirs[i] && Parent(fs', i) == e
  {
    hide Counted, Rooted, Dotted, Aimed, Held, Refs, Children, Under, IsDir, RemoveDir, MoveDir, StepRename, IsDot,
        LiveDir;
    LiveInDirs(fs);
    var i := fs.dirs[d][n];
    RenameDirReady(fs, d, n, e, m);
    CountsTwo(fs, d);
    CountsTwo(fs, e);
    if m !in fs.dirs[e] {
      RenameDirFree(fs, d, n, e, m, Empty);
      MoveDirEntries(fs, d, n, e, m);
      MoveDirTables(fs, d, n, e, m);
      forall j: nat ensures !Entry(fs, e, m, j) { NoEntry(fs, e, m, j); }
    } else {
      var t := fs.dirs[e][m];
      RemoveDirKeeps(fs, e, m, fs.dirs[t]);
      RemoveLeavesMovable(fs, d, n, e, m);
      RenameDirOnto(fs, d, n, e, m, OK);
      EntryHere(fs, e, m);
      AimedAt(fs, e, m);
      RemoveDirChange(fs, e, m, fs.dirs[t]);
      var fs1 := RemoveDir(fs, e, m, fs.dirs[t]);
      CountsTwo(fs1, d);
      RemoveDirTables(fs, e, m, fs.dirs[t]);
      MoveDirEntries(fs1, d, n, e, m);
      MoveDirTables(fs1, d, n, e, m);
    }
  }

  /** A rename of a directory reports success whenever its emptiness test gives an answer; it
      has moved the entry exactly when the new name was free or named an empty directory, and
      else it has done nothing. */
  lemma RenameDirExact(fs: Fs, d: nat, n: string, e: nat, m: string, v: Verdict)
    requires Consistent(fs) && Allowed(fs, Rename(d, n, e, m, v, OK)) && IsDir(fs, fs.dirs[d][n]) && v != Stuck
    ensures var (fs', err) := Step(fs, Rename(d, n, e, m, v, OK));
            && err == OK
            && (Moved(fs, d, n, e, m, fs.dirs[d][n], fs') <==> FreeToTake(fs, e, m))
            && (!FreeToTake(fs, e, m) ==> fs' == fs)
  {
    hide Counted, Rooted, Based, Dotted, Aimed, Held, Under, LiveDir, StepRename, Moved;
    RenameDirReady(fs, d, n, e, m);
    RenameAnswers(fs, d, n, e, m, v);
    if FreeToTake(fs, e, m) {
      RenameDirMoves(fs, d, n, e, m);
    } else {
      RenameDirIdle(fs, d, n, e, m, v, OK);
      NotMoved(fs, d, n, e, m, fs.dirs[d][n]);
    }
  }

  /** The name is free, or names a directory with no names but the dots. */
  predicate FreeToTake(fs: Fs, e: nat, m: string)
    requires e in fs.dirs
  {
    m in fs.dirs[e] ==> fs.dirs[e][m] in fs.dirs && fs.dirs[fs.dirs[e][m]].Keys == {".", ".."}
  }

  lemma RenameAnswers(fs: Fs, d: nat, n: string, e: nat, m: string, v: Verdict)
    requires d in fs.dirs && d in fs.nodes && e in fs.dirs && e in fs.nodes && n in fs.dirs[d]
    requires var i := fs.dirs[d][n]; i in fs.nodes && fs.nodes[i].isDir && i in fs.dirs
    requires m in fs.dirs[e] ==> fs.dirs[e][m] in fs.nodes
    ensures StepRename(fs, d, n, e, m, v, OK).1 == OK
    ensures m !in fs.dirs[e] || v == Empty ==>
              StepRename(fs, d, n, e, m, v, OK) == StepRename(fs, d, n, e, m, Empty, OK)
  {
  }

  lemma NotMoved(fs: Fs, d: nat, n: string, e: nat, m: string, i: nat)
    requires e in fs.dirs && m in fs.dirs[e] && fs.dirs[e][m] != i
    ensures !Moved(fs, d, n, e, m, i, fs)
  {
    assert !Entry(fs, e, m, i);
  }

  /** A root with directories "a" and "b", and "c" in "b". */
  function ThreeDirs(root: nat): Fs
    requires root == 1
  {
    var fs := AddDir(AddDir(JustRoot(root), root, "a", 3), root, "b", 4);
    AddDir(fs, 4, "c", 5)
  }

  /** There a rename of "a" onto "b" is allowed, reports success and does nothing. */
  lemma RenameIdleExample(root: nat)
    requires root == 1
    ensures var fs, op := ThreeDirs(root), Rename(root, "a", root, "b", NotEmpty, OK);
            Consistent(fs) && Allowed(fs, op) && Step(fs, op) == (fs, OK)
  {
    hide Counted, Rooted, Based, Dotted, Aimed, Held, Under, ThreeDirs, Consistent;
    ThreeDirsConsistent(root);
    ThreeDirsTables(root);
    RootUnderNone(ThreeDirs(root), 3);
  }

  lemma ThreeDirsConsistent(root: nat)
    requires root == 1
    ensures Consistent(ThreeDirs(root)) && Shaped(ThreeDirs(root)) && Dotted(ThreeDirs(root))
  {
    hide Counted, Rooted, Based, Dotted, Aimed, Held, Consistent;
    JustRootConsistent(root);
    AddDirKeeps(JustRoot(root), root, "a", 3);
    AddDirKeeps(AddDir(JustRoot(root), root, "a", 3), root, "b", 4);
    AddDirKeeps(AddDir(AddDir(JustRoot(root), root, "a", 3), root, "b", 4), 4, "c", 5);
    ConsistentParts(ThreeDirs(root));
  }

  lemma ConsistentParts(fs: Fs)
    requires Consistent(fs)
    ensures Shaped(fs) && Dotted(fs)
  {
  }

  lemma ThreeDirsTables(root: nat)
    requires root == 1
    ensures var fs := ThreeDirs(root);
            && fs.root == root && LiveDir(fs, root) && IsDir(fs, 3) && IsDir(fs, 4) && 3 in fs.dirs && 4 in fs.dirs
            && "a" in fs.dirs[root] && fs.dirs[root]["a"] == 3 && "b" in fs.dirs[root] && fs.dirs[root]["b"] == 4
            && "c" in fs.dirs[4]
  {
  }

  /** The root lies below no other directory. */
  lemma RootUnderNone(fs: Fs, d: nat)
    requires Dotted(fs) && d != fs.root
    ensures !Under(fs, fs.root, d)
  {
    forall k: nat ensures !Passes(fs, fs.root, d, k) {
      RootStays(fs, d, k);
    }
  }

  lemma {:induction false} RootStays(fs: Fs, d: nat, k: nat)
    requires Dotted(fs) && d != fs.root
    ensures !Passes(fs, fs.root, d, k)
    decreases k
  {
    if k > 0 { RootStays(fs, d, k - 1); }
  }
}
