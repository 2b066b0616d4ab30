/** The namespace as inodes with link counts and directories with name tables, and what
    each operation does to it. */
module NamespaceModel {
  import opened Answers
  import opened DirectoryNames

  datatype Node = Node(isDir: bool, nlink: int)

  /** `dirs[d]`: the table of directory d, "." and ".." included. */
  datatype Fs = Fs(root: nat, nodes: map<nat, Node>, dirs: map<nat, map<string, nat>>)

  /** A directory that has not been removed. */
  predicate LiveDir(fs: Fs, d: nat) {
    d in fs.dirs && d in fs.nodes && fs.nodes[d].isDir && fs.nodes[d].nlink > 0
  }

  predicate IsDir(fs: Fs, i: nat) {
    i in fs.nodes && fs.nodes[i].isDir
  }

  /** The entries of live directories, the dots left out. */
  predicate Entry(fs: Fs, d: nat, n: string, i: nat) {
    LiveDir(fs, d) && n in fs.dirs[d] && !IsDot(n) && fs.dirs[d][n] == i
  }

  function Refs(fs: Fs, i: nat): set<(nat, string)> {
    set d, n | d in fs.dirs && n in fs.dirs[d] && Entry(fs, d, n, i) :: (d, n)
  }

  /** The names in d that are directories. */
  function Children(fs: Fs, d: nat): set<string>
    requires d in fs.dirs
  {
    set n | n in fs.dirs[d] && !IsDot(n) && IsDir(fs, fs.dirs[d][n])
  }

  function Parent(fs: Fs, d: nat): nat
    requires d in fs.dirs && ".." in fs.dirs[d]
  {
    fs.dirs[d][".."]
  }

  /** The root is live, directories have tables, counts are no less than 0. */
  ghost predicate Based(fs: Fs) {
    && LiveDir(fs, fs.root) && 0 !in fs.nodes
    && (forall d: nat :: d in fs.dirs <==> IsDir(fs, d))
    && (forall i: nat :: i in fs.nodes ==> fs.nodes[i].nlink >= 0)
  }

  /** In a live directory "." names the directory and ".." a live directory. */
  ghost predicate Dotted(fs: Fs) {
    && (forall d: nat :: LiveDir(fs, d) ==> "." in fs.dirs[d] && fs.dirs[d]["."] == d)
    && (forall d: nat :: LiveDir(fs, d) ==> ".." in fs.dirs[d] && LiveDir(fs, Parent(fs, d)))
    && LiveDir(fs, fs.root) && ".." in fs.dirs[fs.root] && Parent(fs, fs.root) == fs.root
  }

  /** An entry names an inode; where that is a directory, its ".." names the directory of
      the entry, and that directory has no other entry for it. */
  ghost predicate Aimed(fs: Fs) {
    && (forall d: nat, n: string, i: nat :: Entry(fs, d, n, i) ==> i in fs.nodes && i != fs.root)
    && (forall d: nat, n: string, i: nat :: Entry(fs, d, n, i) && IsDir(fs, i) ==>
          LiveDir(fs, i) && ".." in fs.dirs[i] && Parent(fs, i) == d)
    && (forall d: nat, n: string, n': string, i: nat ::
          Entry(fs, d, n, i) && Entry(fs, d, n', i) && IsDir(fs, i) ==> n == n')
  }

  /** A live directory other than the root has an entry in the directory its ".." names. */
  ghost predicate Held(fs: Fs) {
    forall d: nat :: LiveDir(fs, d) && d != fs.root ==>
      ".." in fs.dirs[d] && exists n: string :: Entry(fs, Parent(fs, d), n, d)
  }

  ghost predicate Shaped(fs: Fs) {
    Based(fs) && Dotted(fs) && Aimed(fs) && Held(fs)
  }

  /** A live directory counts itself, its entry and its child directories; a file counts
      its entries. */
  ghost predicate Counted(fs: Fs) {
    && (forall d: nat :: LiveDir(fs, d) ==> fs.nodes[d].nlink == 2 + |Children(fs, d)|)
    && (forall i: nat :: i in fs.nodes && !fs.nodes[i].isDir ==> fs.nodes[i].nlink == |Refs(fs, i)|)
  }

  /** Following ".." from x at most k times leads to the root. */
  ghost predicate Climbs(fs: Fs, x: nat, k: nat)
    decreases k
  {
    x == fs.root || (k > 0 && LiveDir(fs, x) && ".." in fs.dirs[x] && Climbs(fs, Parent(fs, x), k - 1))
  }

  /** Following ".." from x at most k times leads to d. */
  ghost predicate Passes(fs: Fs, x: nat, d: nat, k: nat)
    decreases k
  {
    x == d || (k > 0 && LiveDir(fs, x) && ".." in fs.dirs[x] && Passes(fs, Parent(fs, x), d, k - 1))
  }

  /** x is d or lies below it. */
  ghost predicate Under(fs: Fs, x: nat, d: nat) {
    exists k: nat :: Passes(fs, x, d, k)
  }

  ghost predicate ToRoot(fs: Fs, d: nat) {
    exists k: nat :: Climbs(fs, d, k)
  }

  ghost predicate Rooted(fs: Fs) {
    forall d: nat :: LiveDir(fs, d) ==> ToRoot(fs, d)
  }

  ghost predicate Consistent(fs: Fs) {
    Shaped(fs) && Counted(fs) && Rooted(fs)
  }

  // ----- operations

  /** The operations, with what the allocator, the disk and the emptiness test answer. */
  datatype Op =
    | Create(dir: nat, name: string, ino: nat, addErr: int)
    | Mkdir(dir: nat, name: string, alloc: Option<nat>, allocErr: int, makeErr: int, addErr: int)
    | Unlink(dir: nat, name: string)
    | Rmdir(dir: nat, name: string, verdict: Verdict)
    | Rename(dir: nat, name: string, newDir: nat, newName: string, verdict: Verdict, addErr: int)

  function AddLinks(fs: Fs, i: nat, delta: int): Fs
    requires i in fs.nodes
  {
    fs.(nodes := fs.nodes[i := fs.nodes[i].(nlink := fs.nodes[i].nlink + delta)])
  }

  function Bind(fs: Fs, d: nat, n: string, i: nat): Fs
    requires d in fs.dirs
  {
    var table: map<string, nat> := fs.dirs[d][n := i];
    fs.(dirs := fs.dirs[d := table])
  }

  function Unbind(fs: Fs, d: nat, n: string): Fs
    requires d in fs.dirs
  {
    fs.(dirs := fs.dirs[d := fs.dirs[d] - {n}])
  }

  predicate GoodVerdict(fs: Fs, d: nat, v: Verdict)
    requires d in fs.dirs
  {
    && (v == Empty ==> fs.dirs[d].Keys == {".", ".."})
    && (v == NotEmpty ==> fs.dirs[d].Keys != {".", ".."})
  }

  /** What the VFS sees to before it calls the driver: live parents, types that agree, an
      absent name where one is created, no move of a directory below itself. */
  ghost predicate Allowed(fs: Fs, op: Op) {
    LiveDir(fs, op.dir) && !IsDot(op.name) &&
    match op
    case Create(d, n, i, _) => n !in fs.dirs[d] && i != 0 && i !in fs.nodes
    case Mkdir(d, n, alloc, allocErr, _, _) =>
      && n !in fs.dirs[d] && (alloc.None? ==> allocErr != OK)
      && (alloc.Some? ==> alloc.value != 0 && alloc.value !in fs.nodes)
    case Unlink(d, n) => n in fs.dirs[d] && fs.dirs[d][n] in fs.nodes && !IsDir(fs, fs.dirs[d][n])
    case Rmdir(d, n, v) =>
      n in fs.dirs[d] && IsDir(fs, fs.dirs[d][n]) && fs.dirs[d][n] in fs.dirs && GoodVerdict(fs, fs.dirs[d][n], v)
    case Rename(d, n, e, m, v, _) =>
      && LiveDir(fs, e) && !IsDot(m) && n in fs.dirs[d] && fs.dirs[d][n] in fs.nodes && (d, n) != (e, m)
      && (IsDir(fs, fs.dirs[d][n]) ==> !Under(fs, e, fs.dirs[d][n]))
      && (m in fs.dirs[e] ==>
            && fs.dirs[e][m] in fs.nodes && fs.dirs[e][m] != fs.dirs[d][n]
            && (IsDir(fs, fs.dirs[e][m]) <==> IsDir(fs, fs.dirs[d][n]))
            && (IsDir(fs, fs.dirs[e][m]) ==> fs.dirs[e][m] in fs.dirs && GoodVerdict(fs, fs.dirs[e][m], v)))
  }

  /** Linking an inode that has been made for the name. */
  function StepCreate(fs: Fs, d: nat, n: string, i: nat, addErr: int): (Fs, int)
    requires d in fs.dirs
  {
    var made := fs.(nodes := fs.nodes[i := Node(false, 1)]);
    if addErr == OK then (Bind(made, d, n, i), OK) else (AddLinks(made, i, -1), addErr)
  }

  /** The parent's count is raised first, and only a failed inode allocation takes it back. */
  function StepMkdir(fs: Fs, d: nat, n: string, alloc: Option<nat>, allocErr: int, makeErr: int, addErr: int): (Fs, int)
    requires d in fs.dirs && d in fs.nodes
  {
    var raised := AddLinks(fs, d, 1);
    if alloc.None? then (AddLinks(raised, d, -1), allocErr)
    else
      var i := alloc.value;
      var made := raised.(nodes := raised.nodes[i := Node(true, 2)], dirs := raised.dirs[i := map[]]);
      if makeErr != OK then (AddLinks(AddLinks(made, i, -1), i, -1), makeErr)
      else
        var dotted := made.(dirs := made.dirs[i := NewDots(i, d)]);
        if addErr != OK then (AddLinks(AddLinks(dotted, i, -1), i, -1), addErr)
        else (Bind(dotted, d, n, i), OK)
  }

  function StepUnlink(fs: Fs, d: nat, n: string): (Fs, int)
    requires d in fs.dirs
  {
    if n !in fs.dirs[d] || fs.dirs[d][n] !in fs.nodes then (fs, ENOENT)
    else (AddLinks(Unbind(fs, d, n), fs.dirs[d][n], -1), OK)
  }

  function StepRmdir(fs: Fs, d: nat, n: string, v: Verdict): (Fs, int)
    requires d in fs.dirs && d in fs.nodes && n in fs.dirs[d]
  {
    var i := fs.dirs[d][n];
    if v != Empty then (fs, ENOTEMPTY)
    else
      var (fs1, err) := StepUnlink(fs, d, n);
      if err != OK then (fs1, err)
      else
        var fs2 := AddLinks(fs1.(dirs := fs1.dirs[i := map[]]), i, -1);
        (AddLinks(fs2, d, -1), OK)
  }

  /** The part of a rename after the new entry is in place: the old entry goes, ".." is
      turned when the directory changed, and the old parent loses a child. */
  function FinishRename(fs: Fs, d: nat, n: string, e: nat, i: nat): Fs
    requires d in fs.dirs && d in fs.nodes && i in fs.nodes && (fs.nodes[i].isDir && d != e ==> i in fs.dirs)
  {
    var gone := Unbind(fs, d, n);
    if !fs.nodes[i].isDir then gone
    else AddLinks(if d != e then Bind(gone, i, "..", e) else gone, d, -1)
  }

  /** Renaming onto a directory that is not empty reports success and does nothing. */
  function StepRename(fs: Fs, d: nat, n: string, e: nat, m: string, v: Verdict, addErr: int): (Fs, int)
    requires d in fs.dirs && d in fs.nodes && e in fs.dirs && e in fs.nodes && n in fs.dirs[d]
    requires var i := fs.dirs[d][n]; i in fs.nodes && (fs.nodes[i].isDir ==> i in fs.dirs)
    requires m in fs.dirs[e] ==> fs.dirs[e][m] in fs.nodes
  {
    var i := fs.dirs[d][n];
    var isDir := fs.nodes[i].isDir;
    if m in fs.dirs[e] then
      var t := fs.dirs[e][m];
      if isDir && v != Empty then (fs, OK)
      else
        var bound := Bind(fs, e, m, i);
        var dropped := if isDir then AddLinks(bound, t, -1) else bound;
        (FinishRename(AddLinks(dropped, t, -1), d, n, e, i), OK)
    else if addErr != OK then (fs, addErr)
    else
      var bound := Bind(fs, e, m, i);
      (FinishRename(if isDir then AddLinks(bound, e, 1) else bound, d, n, e, i), OK)
  }

  function Step(fs: Fs, op: Op): (Fs, int)
    requires Allowed(fs, op) && Shaped(fs)
  {
    match op
    case Create(d, n, i, addErr) => StepCreate(fs, d, n, i, addErr)
    case Mkdir(d, n, alloc, allocErr, makeErr, addErr) => StepMkdir(fs, d, n, alloc, allocErr, makeErr, addErr)
    case Unlink(d, n) => StepUnlink(fs, d, n)
    case Rmdir(d, n, v) => StepRmdir(fs, d, n, v)
    case Rename(d, n, e, m, v, addErr) => StepRename(fs, d, n, e, m, v, addErr)
  }

  /** The operation is one the VFS allows in fs, and it leads to fs' and reports err. */
  ghost predicate Does(fs: Fs, op: Op, fs': Fs, err: int) {
    Shaped(fs) && Allowed(fs, op) && (fs', err) == Step(fs, op)
  }

  /** What a name is bound to; a dentry without an inode is None. */
  function Lookup(fs: Fs, d: nat, n: string): Option<nat> {
    if d in fs.dirs && n in fs.dirs[d] then Some(fs.dirs[d][n]) else None
  }

  /** A mkdir that fails after its inode has been allocated. */
  predicate LateFailure(op: Op) {
    op.Mkdir? && op.alloc.Some? && (op.makeErr != OK || op.addErr != OK)
  }
}
