/** What each operation does to entries, tables and link counts, said without the functions
    that compute it. */
module NamespaceEffects {
  import opened Answers
  import opened DirectoryNames
  import opened NamespaceModel
  import opened NamespaceLaws
  import opened NamespaceRuns

  /** No inode outside `changed` comes, goes or changes. */
  ghost predicate OnlyNodes(fs: Fs, fs': Fs, changed: set<nat>) {
    && (forall j: nat :: j !in changed ==> (j in fs'.nodes <==> j in fs.nodes))
    && (forall j: nat :: j !in changed && j in fs.nodes ==> fs'.nodes[j] == fs.nodes[j])
  }

  /** No table outside `changed` comes, goes or changes. */
  ghost predicate OnlyTables(fs: Fs, fs': Fs, changed: set<nat>) {
    && fs'.root == fs.root
    && (forall x: nat :: x !in changed ==> (x in fs'.dirs <==> x in fs.dirs))
    && (forall x: nat :: x !in changed && x in fs.dirs ==> fs'.dirs[x] == fs.dirs[x])
  }

  /** The two tables agree on every name but n. */
  ghost predicate SameBut(t: map<string, nat>, t': map<string, nat>, n: string) {
    forall k: string :: k != n ==> (k in t' <==> k in t) && (k in t ==> t'[k] == t[k])
  }

  ghost predicate SameEntries(fs: Fs, fs': Fs) {
    forall x: nat, k: string, j: nat :: Entry(fs', x, k, j) <==> Entry(fs, x, k, j)
  }

  ghost predicate EntryMore(fs: Fs, fs': Fs, d: nat, n: string, i: nat) {
    forall x: nat, k: string, j: nat :: Entry(fs', x, k, j) <==> Entry(fs, x, k, j) || (x == d && k == n && j == i)
  }

  ghost predicate EntryLess(fs: Fs, fs': Fs, d: nat, n: string) {
    forall x: nat, k: string, j: nat :: Entry(fs', x, k, j) <==> Entry(fs, x, k, j) && !(x == d && k == n)
  }

  /** The inode is there with this type and count. */
  predicate NodeIs(fs: Fs, i: nat, isDir: bool, nlink: int) {
    i in fs.nodes && fs.nodes[i] == Node(isDir, nlink)
  }

  /** The name is bound to the inode, and the rest of the table is as before. */
  ghost predicate BoundIn(fs: Fs, fs': Fs, d: nat, n: string, i: nat) {
    && d in fs.dirs && d in fs'.dirs && n in fs'.dirs[d] && fs'.dirs[d][n] == i
    && SameBut(fs.dirs[d], fs'.dirs[d], n)
  }

  /** The name is gone, and the rest of the table is as before. */
  ghost predicate GoneFrom(fs: Fs, fs': Fs, d: nat, n: string) {
    d in fs.dirs && d in fs'.dirs && n !in fs'.dirs[d] && SameBut(fs.dirs[d], fs'.dirs[d], n)
  }

  /** A new file has one link and its entry; where the entry cannot be added, no link. */
  ghost predicate FileMade(fs: Fs, d: nat, n: string, i: nat, addErr: int, fs': Fs, err: int) {
    && err == addErr && OnlyNodes(fs, fs', {i}) && NodeIs(fs', i, false, if addErr == OK then 1 else 0)
    && (if addErr == OK
        then OnlyTables(fs, fs', {d}) && BoundIn(fs, fs', d, n, i) && EntryMore(fs, fs', d, n, i)
        else OnlyTables(fs, fs', {}) && SameEntries(fs, fs'))
  }

  /** A new directory has two links, its dots and its entry, and its parent counts one more;
      where it cannot be finished it has no link and no entry, and the parent counts it. */
  ghost predicate DirMade(fs: Fs, op: Op, fs': Fs, err: int)
    requires op.Mkdir?
  {
    var d, n := op.dir, op.name;
    var failure := if op.makeErr != OK then op.makeErr else op.addErr;
    if op.alloc.None? then fs' == fs && err == op.allocErr
    else
      var i := op.alloc.value;
      && err == failure && OnlyNodes(fs, fs', {d, i}) && d in fs.nodes
      && NodeIs(fs', d, true, fs.nodes[d].nlink + 1) && NodeIs(fs', i, true, if failure == OK then 2 else 0)
      && i in fs'.dirs
      && fs'.dirs[i] == (if op.makeErr != OK then map[] else map["." := i, ".." := d])
      && (if failure == OK
          then OnlyTables(fs, fs', {d, i}) && BoundIn(fs, fs', d, n, i) && EntryMore(fs, fs', d, n, i)
          else OnlyTables(fs, fs', {i}) && SameEntries(fs, fs'))
  }

  /** The entry of a file is gone and the file counts one less. */
  ghost predicate FileGone(fs: Fs, d: nat, n: string, fs': Fs, err: int)
    requires d in fs.dirs && n in fs.dirs[d] && fs.dirs[d][n] in fs.nodes
  {
    var i := fs.dirs[d][n];
    && err == OK && OnlyNodes(fs, fs', {i}) && NodeIs(fs', i, fs.nodes[i].isDir, fs.nodes[i].nlink - 1)
    && OnlyTables(fs, fs', {d}) && GoneFrom(fs, fs', d, n) && EntryLess(fs, fs', d, n)
  }

  /** The entry of an empty directory is gone, it has no names and no links left, and its
      parent counts one less; any other directory is refused. */
  ghost predicate DirGone(fs: Fs, d: nat, n: string, v: Verdict, fs': Fs, err: int)
    requires d in fs.dirs && d in fs.nodes && n in fs.dirs[d]
  {
    var i := fs.dirs[d][n];
    if v != Empty then fs' == fs && err == ENOTEMPTY
    else
      && err == OK && OnlyNodes(fs, fs', {i, d})
      && NodeIs(fs', i, true, 0) && NodeIs(fs', d, true, fs.nodes[d].nlink - 1)
      && OnlyTables(fs, fs', {i, d}) && i in fs'.dirs && fs'.dirs[i] == map[]
      && GoneFrom(fs, fs', d, n) && EntryLess(fs, fs', d, n)
  }

  /** The entry of a file has moved, and what was in the way counts one less. */
  ghost predicate FileMoved(fs: Fs, d: nat, n: string, e: nat, m: string, addErr: int, fs': Fs, err: int)
    requires d in fs.dirs && n in fs.dirs[d] && e in fs.dirs
  {
    if m !in fs.dirs[e] && addErr != OK then fs' == fs && err == addErr
    else
      && err == OK && Moved(fs, d, n, e, m, fs.dirs[d][n], fs') && OnlyTables(fs, fs', {d, e})
      && (m !in fs.dirs[e] ==> OnlyNodes(fs, fs', {}))
      && (m in fs.dirs[e] ==>
            var t := fs.dirs[e][m];
            && OnlyNodes(fs, fs', {t}) && t in fs.nodes
            && NodeIs(fs', t, fs.nodes[t].isDir, fs.nodes[t].nlink - 1))
  }

  /** By how much a directory's count changes when a child moves from d to e: onto a free name
      e counts one more; a directory in the way loses both its links; d counts one less. */
  function CountChange(fs: Fs, d: nat, e: nat, m: string, x: nat): int
    requires e in fs.dirs
  {
    (if m !in fs.dirs[e] && x == e then 1 else 0)
    - (if m in fs.dirs[e] && x == fs.dirs[e][m] then 2 else 0)
    - (if x == d then 1 else 0)
  }

  /** The entry of a directory has moved, and its ".." with it; or nothing has changed. */
  ghost predicate DirMoved(fs: Fs, d: nat, n: string, e: nat, m: string, v: Verdict, addErr: int, fs': Fs, err: int)
    requires d in fs.dirs && n in fs.dirs[d] && e in fs.dirs
  {
    var i := fs.dirs[d][n];
    if m in fs.dirs[e] && v != Empty then fs' == fs && err == OK
    else if m !in fs.dirs[e] && addErr != OK then fs' == fs && err == addErr
    else
      && err == OK && Moved(fs, d, n, e, m, i, fs') && OnlyTables(fs, fs', {d, e, i})
      && i in fs'.dirs && ".." in fs'.dirs[i] && fs'.dirs[i][".."] == e
      && fs'.nodes.Keys == fs.nodes.Keys
      && forall x: nat :: x in fs.nodes ==>
           NodeIs(fs', x, fs.nodes[x].isDir, fs.nodes[x].nlink + CountChange(fs, d, e, m, x))
  }

  /** op leads from fs to fs' and reports err. */
  ghost predicate Effects(fs: Fs, op: Op, fs': Fs, err: int)
    requires Shaped(fs) && Allowed(fs, op)
  {
    match op
    case Create(d, n, i, addErr) => FileMade(fs, d, n, i, addErr, fs', err)
    case Mkdir(_, _, _, _, _, _) => DirMade(fs, op, fs', err)
    case Unlink(d, n) => FileGone(fs, d, n, fs', err)
    case Rmdir(d, n, v) => DirGone(fs, d, n, v, fs', err)
    case Rename(d, n, e, m, v, addErr) =>
      if IsDir(fs, fs.dirs[d][n]) then DirMoved(fs, d, n, e, m, v, addErr, fs', err)
      else FileMoved(fs, d, n, e, m, addErr, fs', err)
  }

  lemma CreateEffect(fs: Fs, d: nat, n: string, i: nat, addErr: int)
    requires Consistent(fs) && Allowed(fs, Create(d, n, i, addErr))
    ensures var (fs', err) := StepCreate(fs, d, n, i, addErr); FileMade(fs, d, n, i, addErr, fs', err)
  {
    hide Counted, Rooted, Held, Dotted, Aimed;
  }

  lemma MkdirEffect(fs: Fs, op: Op)
    requires Consistent(fs) && Allowed(fs, op) && op.Mkdir?
    ensures var (fs', err) := Step(fs, op); DirMade(fs, op, fs', err)
  {
    hide Counted, Rooted, Held, Dotted, Aimed, StepMkdir, DirMade, LiveDir;
    LiveInDirs(fs);
    if op.alloc.None? {
      MkdirRefused(fs, op);
    } else if LateFailure(op) {
      MkdirLate(fs, op);
    } else {
      MkdirDone(fs, op);
    }
  }

  lemma MkdirRefused(fs: Fs, op: Op)
    requires op.Mkdir? && op.alloc.None? && op.dir in fs.dirs && op.dir in fs.nodes
    ensures DirMade(fs, op, fs, op.allocErr)
    ensures StepMkdir(fs, op.dir, op.name, op.alloc, op.allocErr, op.makeErr, op.addErr) == (fs, op.allocErr)
  {
    assert StepMkdir(fs, op.dir, op.name, op.alloc, op.allocErr, op.makeErr, op.addErr).0.nodes == fs.nodes;
  }

  lemma MkdirLate(fs: Fs, op: Op)
    requires Based(fs) && Allowed(fs, op) && LateFailure(op) && op.dir in fs.nodes && op.dir in fs.dirs
    ensures var (fs', err) := StepMkdir(fs, op.dir, op.name, op.alloc, op.allocErr, op.makeErr, op.addErr);
            DirMade(fs, op, fs', err)
  {
  }

  lemma MkdirDone(fs: Fs, op: Op)
    requires Based(fs) && Allowed(fs, op) && op.Mkdir? && op.alloc.Some? && !LateFailure(op)
    requires op.dir in fs.nodes && op.dir in fs.dirs
    ensures var (fs', err) := StepMkdir(fs, op.dir, op.name, op.alloc, op.allocErr, op.makeErr, op.addErr);
            DirMade(fs, op, fs', err)
  {
  }

  lemma UnlinkEffect(fs: Fs, d: nat, n: string)
    requires Consistent(fs) && Allowed(fs, Unlink(d, n))
    ensures var (fs', err) := StepUnlink(fs, d, n); FileGone(fs, d, n, fs', err)
  {
    hide Counted, Rooted, Held, Dotted, Aimed;
  }

  lemma RmdirEffect(fs: Fs, d: nat, n: string, v: Verdict)
    requires Consistent(fs) && Allowed(fs, Rmdir(d, n, v))
    ensures d in fs.dirs && d in fs.nodes && n in fs.dirs[d]
    ensures var (fs', err) := StepRmdir(fs, d, n, v); DirGone(fs, d, n, v, fs', err)
  {
    hide Rooted, Held, Dotted, Aimed, Counted, RemoveDir, Based, Refs, Children;
    if v == Empty {
      RmdirIs(fs, d, n);
      EntryHere(fs, d, n);
      AimedAt(fs, d, n);
      CountsTwo(fs, d);
      RemoveDirChange(fs, d, n, map[]);
      RemoveDirTables(fs, d, n, map[]);
      RemovedNodes(fs, d, n);
      LiveInDirs(fs);
    }
  }

  lemma RemovedNodes(fs: Fs, d: nat, n: string)
    requires Removable(fs, d, n) && fs.dirs[d][n] in fs.nodes && d != fs.dirs[d][n]
    ensures var fs' := RemoveDir(fs, d, n, map[]);
            NodeIs(fs', fs.dirs[d][n], true, 0) && NodeIs(fs', d, true, fs.nodes[d].nlink - 1) && fs'.root == fs.root
  {
  }

  lemma RenameFileEffect(fs: Fs, d: nat, n: string, e: nat, m: string, v: Verdict, addErr: int)
    requires Consistent(fs) && Allowed(fs, Rename(d, n, e, m, v, addErr)) && !IsDir(fs, fs.dirs[d][n])
    ensures var (fs', err) := Step(fs, Rename(d, n, e, m, v, addErr)); FileMoved(fs, d, n, e, m, addErr, fs', err)
  {
    hide Rooted, Held, Dotted, Aimed, Counted, Moved, Under, IsDot;
    if m in fs.dirs[e] || addErr == OK {
      RenameFileMoves(fs, d, n, e, m, v);
    }
  }

  lemma RenameDirEffect(fs: Fs, d: nat, n: string, e: nat, m: string, v: Verdict, addErr: int)
    requires Consistent(fs) && Allowed(fs, Rename(d, n, e, m, v, addErr)) && IsDir(fs, fs.dirs[d][n])
    ensures var (fs', err) := Step(fs, Rename(d, n, e, m, v, addErr)); DirMoved(fs, d, n, e, m, v, addErr, fs', err)
  {
    hide Rooted, Held, Dotted, Aimed, Counted, Moved, Under, IsDot, StepRename;
    RenameDirReady(fs, d, n, e, m);
    if if m in fs.dirs[e] then v == Empty else addErr == OK {
      RenameDirMoves(fs, d, n, e, m);
      RenameAnyError(fs, d, n, e, m, v, addErr);
      RenameDirCounts(fs, d, n, e, m);
    } else {
      RenameDirStays(fs, d, n, e, m, v, addErr);
    }
  }

  lemma RenameAnyError(fs: Fs, d: nat, n: string, e: nat, m: string, v: Verdict, addErr: int)
    requires d in fs.dirs && d in fs.nodes && e in fs.dirs && e in fs.nodes && n in fs.dirs[d]
    requires var i := fs.dirs[d][n]; i in fs.nodes && fs.nodes[i].isDir && i in fs.dirs
    requires m in fs.dirs[e] ==> fs.dirs[e][m] in fs.nodes
    requires if m in fs.dirs[e] then v == Empty else addErr == OK
    ensures StepRename(fs, d, n, e, m, v, addErr) == StepRename(fs, d, n, e, m, Empty, OK)
  {
  }

  lemma RenameDirStays(fs: Fs, d: nat, n: string, e: nat, m: string, v: Verdict, addErr: int)
    requires d in fs.dirs && d in fs.nodes && e in fs.dirs && e in fs.nodes && n in fs.dirs[d]
    requires var i := fs.dirs[d][n]; i in fs.nodes && fs.nodes[i].isDir && i in fs.dirs
    requires m in fs.dirs[e] ==> fs.dirs[e][m] in fs.nodes
    requires if m in fs.dirs[e] then v != Empty else addErr != OK
    ensures StepRename(fs, d, n, e, m, v, addErr) == (fs, if m in fs.dirs[e] then OK else addErr)
  {
  }

  lemma RenameDirCounts(fs: Fs, d: nat, n: string, e: nat, m: string)
    requires d in fs.dirs && d in fs.nodes && e in fs.dirs && e in fs.nodes && n in fs.dirs[d]
    requires var i := fs.dirs[d][n]; i in fs.nodes && fs.nodes[i].isDir && i in fs.dirs
    requires m in fs.dirs[e] ==> fs.dirs[e][m] in fs.nodes
    ensures var i := fs.dirs[d][n];
            var (fs', err) := StepRename(fs, d, n, e, m, Empty, OK);
            && err == OK && OnlyTables(fs, fs', {d, e, i}) && fs'.nodes.Keys == fs.nodes.Keys
            && forall x: nat :: x in fs.nodes ==>
                 NodeIs(fs', x, fs.nodes[x].isDir, fs.nodes[x].nlink + CountChange(fs, d, e, m, x))
  {
  }

  /** Every operation has exactly its effects. */
  lemma StepEffects(fs: Fs, op: Op)
    requires Consistent(fs) && Allowed(fs, op)
    ensures Effects(fs, op, Step(fs, op).0, Step(fs, op).1)
  {
    hide Consistent, Under, StepCreate, StepMkdir, StepUnlink, StepRmdir, StepRename;
    match op
    case Create(d, n, i, addErr) => CreateEffect(fs, d, n, i, addErr);
    case Mkdir(_, _, _, _, _, _) => MkdirEffect(fs, op);
    case Unlink(d, n) => UnlinkEffect(fs, d, n);
    case Rmdir(d, n, v) => RmdirEffect(fs, d, n, v);
    case Rename(d, n, e, m, v, addErr) =>
      if IsDir(fs, fs.dirs[d][n]) {
        RenameDirEffect(fs, d, n, e, m, v, addErr);
      } else {
        RenameFileEffect(fs, d, n, e, m, v, addErr);
      }
  }

  /** op is allowed in fs and has exactly its effects. */
  ghost predicate Achieves(fs: Fs, op: Op, fs': Fs, err: int) {
    Shaped(fs) && Allowed(fs, op) && Effects(fs, op, fs', err)
  }

  lemma StepAchieves(fs: Fs, op: Op)
    requires Consistent(fs) && Allowed(fs, op)
    ensures Achieves(fs, op, Step(fs, op).0, Step(fs, op).1)
  {
    hide Effects, Step, Allowed, Based, Dotted, Aimed, Held, Counted, Rooted;
    StepEffects(fs, op);
  }
}
