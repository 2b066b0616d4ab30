/** Every operation keeps link counts, ".." entries and the tree of directories, except a
    mkdir that fails late. Each operation is a sequence of six changes, each of which keeps
    the namespace consistent by itself. */
module NamespaceLaws {
  import opened Answers
  import opened DirectoryNames
  import opened NamespaceModel

  // ----- the six changes

  /** A new file without entries. */
  function NewFile(fs: Fs, i: nat): Fs {
    fs.(nodes := fs.nodes[i := Node(false, 0)])
  }

  /** One more entry for a file. */
  function LinkFile(fs: Fs, d: nat, n: string, i: nat): Fs
    requires d in fs.dirs && i in fs.nodes
  {
    AddLinks(Bind(fs, d, n, i), i, 1)
  }

  function UnlinkFile(fs: Fs, d: nat, n: string): Fs
    requires d in fs.dirs && n in fs.dirs[d] && fs.dirs[d][n] in fs.nodes
  {
    AddLinks(Unbind(fs, d, n), fs.dirs[d][n], -1)
  }

  /** A new empty directory in d. */
  function AddDir(fs: Fs, d: nat, n: string, i: nat): Fs
    requires d in fs.dirs && d in fs.nodes
  {
    var made := fs.(nodes := fs.nodes[i := Node(true, 2)], dirs := fs.dirs[i := NewDots(i, d)]);
    AddLinks(Bind(made, d, n, i), d, 1)
  }

  /** An empty directory leaves d; what is left in its table does not matter. */
  function RemoveDir(fs: Fs, d: nat, n: string, left: map<string, nat>): Fs
    requires d in fs.dirs && d in fs.nodes && n in fs.dirs[d] && fs.dirs[d][n] in fs.nodes
  {
    var i := fs.dirs[d][n];
    var gone := Unbind(fs, d, n);
    AddLinks(gone.(nodes := fs.nodes[i := Node(true, 0)], dirs := gone.dirs[i := left]), d, -1)
  }

  /** A directory moves from d to e. */
  function MoveDir(fs: Fs, d: nat, n: string, e: nat, m: string): Fs
    requires d in fs.dirs && d in fs.nodes && e in fs.dirs && e in fs.nodes
    requires n in fs.dirs[d] && fs.dirs[d][n] in fs.dirs
  {
    var i := fs.dirs[d][n];
    AddLinks(AddLinks(Bind(Unbind(Bind(fs, e, m, i), d, n), i, "..", e), e, 1), d, -1)
  }

  // ----- how entries, children and climbs change

  lemma RefsIff(fs: Fs, i: nat)
    ensures forall d: nat, n: string :: (d, n) in Refs(fs, i) <==> Entry(fs, d, n, i)
  {
  }

  /** Which way is up is the same for every directory live in both. */
  ghost predicate SameClimb(fs: Fs, fs': Fs) {
    && fs'.root == fs.root
    && forall d: nat :: LiveDir(fs', d) && LiveDir(fs, d) ==>
         ".." in fs'.dirs[d] && ".." in fs.dirs[d] && Parent(fs', d) == Parent(fs, d)
  }

  /** A climb in fs through directories that are still live is a climb in fs'. */
  lemma {:induction false} ClimbKept(fs: Fs, fs': Fs, x: nat, k: nat)
    requires SameClimb(fs, fs') && Dotted(fs') && Climbs(fs, x, k) && LiveDir(fs', x)
    ensures Climbs(fs', x, k)
    decreases k
  {
    if x != fs.root {
      ClimbKept(fs, fs', Parent(fs, x), k - 1);
    }
  }

  lemma RootedKept(fs: Fs, fs': Fs)
    requires Rooted(fs) && SameClimb(fs, fs') && Dotted(fs')
    ensures forall d: nat :: LiveDir(fs', d) && LiveDir(fs, d) ==> ToRoot(fs', d)
  {
    forall d: nat | LiveDir(fs', d) && LiveDir(fs, d)
      ensures ToRoot(fs', d)
    {
      var k: nat :| Climbs(fs, d, k);
      ClimbKept(fs, fs', d, k);
    }
  }

  /** No live directory but the root is its own parent. */
  lemma {:induction false} NotOwnParent(fs: Fs, x: nat, k: nat)
    requires LiveDir(fs, x) && ".." in fs.dirs[x] && Parent(fs, x) == x && x != fs.root
    ensures !Climbs(fs, x, k)
    decreases k
  {
    if k > 0 {
      NotOwnParent(fs, x, k - 1);
    }
  }

  // ----- files

  /** A change that touches no directory's dots and only entries of files. */
  ghost predicate FileChange(fs: Fs, fs': Fs, plus: set<(nat, string, nat)>, minus: set<(nat, string, nat)>) {
    && fs'.root == fs.root && fs'.dirs.Keys == fs.dirs.Keys
    && (forall x: nat :: LiveDir(fs', x) <==> LiveDir(fs, x))
    && (forall x: nat :: IsDir(fs', x) <==> IsDir(fs, x))
    && (forall x: nat :: x in fs.dirs ==> SameDots(fs.dirs[x], fs'.dirs[x]))
    && (forall x: nat :: x in fs.nodes ==> x in fs'.nodes)
    && (forall x: nat, m: string, j: nat ::
          Entry(fs', x, m, j) <==> (Entry(fs, x, m, j) && (x, m, j) !in minus) || (x, m, j) in plus)
    && (forall x, m, j :: (x, m, j) in plus || (x, m, j) in minus ==> j in fs'.nodes && !IsDir(fs, j))
  }

  predicate SameDots(t: map<string, nat>, t': map<string, nat>) {
    && ("." in t <==> "." in t') && (".." in t <==> ".." in t')
    && ("." in t ==> t["."] == t'["."]) && (".." in t ==> t[".."] == t'[".."])
  }

  lemma FileChangeShape(fs: Fs, fs': Fs, plus: set<(nat, string, nat)>, minus: set<(nat, string, nat)>)
    requires Shaped(fs) && Rooted(fs) && Based(fs') && FileChange(fs, fs', plus, minus)
    ensures Shaped(fs') && Rooted(fs')
  {
    hide LiveDir, IsDir, Entry;
    LiveInDirs(fs);
    LiveInDirs(fs');
    assert IsDir(fs, fs.root) by { LiveIsDir(fs, fs.root); }
    assert Dotted(fs');
    assert SameClimb(fs, fs');
    RootedKept(fs, fs');
    assert Aimed(fs') by {
      forall x: nat, m: string, j: nat | Entry(fs', x, m, j)
        ensures j in fs'.nodes && j != fs'.root
        ensures IsDir(fs', j) ==> Entry(fs, x, m, j)
      {
      }
    }
    forall x: nat | LiveDir(fs', x) && x != fs'.root
      ensures exists n: string :: Entry(fs', Parent(fs', x), n, x)
    {
      var n: string :| Entry(fs, Parent(fs, x), n, x);
      LiveIsDir(fs, x);
      assert Entry(fs', Parent(fs', x), n, x);
    }
  }

  lemma LiveInDirs(fs: Fs)
    ensures forall x: nat :: LiveDir(fs, x) ==> x in fs.dirs && x in fs.nodes
  {
  }

  lemma LiveIsDir(fs: Fs, x: nat)
    requires LiveDir(fs, x)
    ensures IsDir(fs, x)
  {
  }

  /** n names the directory i in d. */
  predicate Child(fs: Fs, d: nat, n: string, i: nat) {
    Entry(fs, d, n, i) && IsDir(fs, i)
  }

  lemma ChildrenIff(fs: Fs, d: nat)
    requires LiveDir(fs, d)
    ensures forall n: string :: n in Children(fs, d) <==> exists i: nat :: Child(fs, d, n, i)
    ensures forall n: string, i: nat :: Child(fs, d, n, i) ==> n in Children(fs, d)
  {
    forall n: string
      ensures n in Children(fs, d) <==> exists i: nat :: Child(fs, d, n, i)
    {
      if n in Children(fs, d) { assert Child(fs, d, n, fs.dirs[d][n]); }
    }
  }

  lemma SameChildren(fs: Fs, fs': Fs, d: nat)
    requires LiveDir(fs, d) && LiveDir(fs', d)
    requires forall n: string, i: nat :: Child(fs', d, n, i) <==> Child(fs, d, n, i)
    ensures Children(fs', d) == Children(fs, d)
  {
    hide Child;
    ChildrenIff(fs, d);
    ChildrenIff(fs', d);
  }

  lemma SameRefs(fs: Fs, fs': Fs, i: nat)
    requires forall d: nat, n: string :: Entry(fs', d, n, i) <==> Entry(fs, d, n, i)
    ensures Refs(fs', i) == Refs(fs, i)
  {
    hide Entry;
    RefsIff(fs, i);
    RefsIff(fs', i);
  }

  /** A change of entries of one file leaves every other count right. */
  lemma FileChangeCounts(fs: Fs, fs': Fs, plus: set<(nat, string, nat)>, minus: set<(nat, string, nat)>, i: nat)
    requires Counted(fs) && FileChange(fs, fs', plus, minus) && i in fs'.nodes && !IsDir(fs', i)
    requires forall x, m, j :: (x, m, j) in plus || (x, m, j) in minus ==> j == i
    requires forall x: nat :: x in fs'.nodes && x != i ==> x in fs.nodes && fs'.nodes[x] == fs.nodes[x]
    requires fs'.nodes[i].nlink == |Refs(fs', i)|
    ensures Counted(fs')
  {
    hide Entry, LiveDir, IsDir, Refs;
    LiveInDirs(fs);
    LiveInDirs(fs');
    forall x: nat | LiveDir(fs', x)
      ensures fs'.nodes[x].nlink == 2 + |Children(fs', x)|
    {
      LiveIsDir(fs', x);
      SameChildren(fs, fs', x);
    }
    forall j: nat | j in fs'.nodes && !fs'.nodes[j].isDir
      ensures fs'.nodes[j].nlink == |Refs(fs', j)|
    {
      if j != i { SameRefs(fs, fs', j); }
    }
  }

  /** A new inode without entries leaves everything right. */
  lemma NewFileKeeps(fs: Fs, i: nat)
    requires Consistent(fs) && i != 0 && i !in fs.nodes
    ensures Consistent(NewFile(fs, i))
  {
    hide Dotted, Held, Rooted, Counted;
    var fs' := NewFile(fs, i);
    assert FileChange(fs, fs', {}, {});
    FileChangeShape(fs, fs', {}, {});
    FileChangeCounts(fs, fs', {}, {}, i);
  }

  lemma LinkFileChange(fs: Fs, d: nat, n: string, i: nat)
    requires Based(fs) && LiveDir(fs, d) && !IsDot(n) && n !in fs.dirs[d] && i in fs.nodes && !IsDir(fs, i)
    ensures FileChange(fs, LinkFile(fs, d, n, i), {(d, n, i)}, {})
    ensures Based(LinkFile(fs, d, n, i)) && !IsDir(LinkFile(fs, d, n, i), i) && !Entry(fs, d, n, i)
  {
  }

  /** One more entry for a file, counted. */
  lemma LinkFileKeeps(fs: Fs, d: nat, n: string, i: nat)
    requires Consistent(fs) && LiveDir(fs, d) && !IsDot(n) && n !in fs.dirs[d] && i in fs.nodes && !IsDir(fs, i)
    ensures Consistent(LinkFile(fs, d, n, i))
  {
    hide Dotted, Held, Rooted, Aimed, Entry, Refs;
    var fs' := LinkFile(fs, d, n, i);
    LinkFileChange(fs, d, n, i);
    FileChangeShape(fs, fs', {(d, n, i)}, {});
    RefsPlus(fs, fs', i, d, n);
    FileChangeCounts(fs, fs', {(d, n, i)}, {}, i);
  }

  lemma RefsPlus(fs: Fs, fs': Fs, i: nat, d: nat, n: string)
    requires !Entry(fs, d, n, i)
    requires forall x: nat, m: string :: Entry(fs', x, m, i) <==> Entry(fs, x, m, i) || (x, m, i) in {(d, n, i)}
    ensures |Refs(fs', i)| == |Refs(fs, i)| + 1
  {
    hide Entry, Refs;
    RefsIff(fs, i);
    RefsIff(fs', i);
    forall p ensures p in Refs(fs', i) <==> p in Refs(fs, i) + {(d, n)} { assert p == (p.0, p.1); }
    assert Refs(fs', i) == Refs(fs, i) + {(d, n)} && (d, n) !in Refs(fs, i);
  }

  lemma UnlinkFileChange(fs: Fs, d: nat, n: string)
    requires Based(fs) && LiveDir(fs, d) && !IsDot(n) && n in fs.dirs[d] && fs.dirs[d][n] in fs.nodes
    requires !IsDir(fs, fs.dirs[d][n]) && fs.nodes[fs.dirs[d][n]].nlink > 0
    ensures var fs', i := UnlinkFile(fs, d, n), fs.dirs[d][n];
            && FileChange(fs, fs', {}, {(d, n, i)}) && Based(fs') && !IsDir(fs', i) && Entry(fs, d, n, i)
  {
  }

  /** One entry less for a file, counted. */
  lemma UnlinkFileKeeps(fs: Fs, d: nat, n: string)
    requires Consistent(fs) && LiveDir(fs, d) && !IsDot(n) && n in fs.dirs[d] && fs.dirs[d][n] in fs.nodes
    requires !IsDir(fs, fs.dirs[d][n])
    ensures Consistent(UnlinkFile(fs, d, n))
  {
    hide Dotted, Held, Rooted, Aimed, Entry, Refs;
    var fs', i := UnlinkFile(fs, d, n), fs.dirs[d][n];
    assert Entry(fs, d, n, i) by { EntryHere(fs, d, n); }
    RefsIff(fs, i);
    assert (d, n) in Refs(fs, i);
    UnlinkFileChange(fs, d, n);
    FileChangeShape(fs, fs', {}, {(d, n, i)});
    RefsMinus(fs, fs', i, d, n);
    FileChangeCounts(fs, fs', {}, {(d, n, i)}, i);
  }

  lemma EntryHere(fs: Fs, d: nat, n: string)
    requires LiveDir(fs, d) && !IsDot(n) && n in fs.dirs[d]
    ensures Entry(fs, d, n, fs.dirs[d][n])
  {
  }

  lemma RefsMinus(fs: Fs, fs': Fs, i: nat, d: nat, n: string)
    requires Entry(fs, d, n, i)
    requires forall x: nat, m: string :: Entry(fs', x, m, i) <==> Entry(fs, x, m, i) && (x, m, i) !in {(d, n, i)}
    ensures |Refs(fs', i)| == |Refs(fs, i)| - 1
  {
    hide Entry, Refs;
    RefsIff(fs, i);
    RefsIff(fs', i);
    forall p ensures p in Refs(fs', i) <==> p in Refs(fs, i) - {(d, n)} { assert p == (p.0, p.1); }
    assert Refs(fs', i) == Refs(fs, i) - {(d, n)} && (d, n) in Refs(fs, i);
  }

  // ----- directories

  lemma ChildrenPlus(fs: Fs, fs': Fs, d: nat, n: string, i: nat)
    requires LiveDir(fs, d) && LiveDir(fs', d) && n !in fs.dirs[d]
    requires forall m: string, j: nat :: Child(fs', d, m, j) <==> Child(fs, d, m, j) || (m == n && j == i)
    ensures |Children(fs', d)| == |Children(fs, d)| + 1
  {
    hide Child;
    ChildrenIff(fs, d);
    ChildrenIff(fs', d);
    assert Child(fs', d, n, i);
    assert Children(fs', d) == Children(fs, d) + {n};
  }

  lemma ChildrenMinus(fs: Fs, fs': Fs, d: nat, n: string, i: nat)
    requires LiveDir(fs, d) && LiveDir(fs', d) && Child(fs, d, n, i)
    requires forall m: string, j: nat :: Child(fs', d, m, j) <==> Child(fs, d, m, j) && !(m == n && j == i)
    requires forall j: nat :: Child(fs, d, n, j) ==> j == i
    ensures |Children(fs', d)| == |Children(fs, d)| - 1
  {
    hide Child;
    ChildrenIff(fs, d);
    ChildrenIff(fs', d);
    assert Children(fs', d) == Children(fs, d) - {n};
  }

  /** The facts the new directory changes. */
  lemma AddDirChange(fs: Fs, d: nat, n: string, i: nat)
    requires Based(fs) && LiveDir(fs, d) && !IsDot(n) && n !in fs.dirs[d] && i != 0 && i !in fs.nodes
    ensures var fs' := AddDir(fs, d, n, i);
            && Based(fs') && fs'.root == fs.root && LiveDir(fs', d) && LiveDir(fs', i) && d != i && i != fs.root
            && fs'.nodes[d].nlink == fs.nodes[d].nlink + 1 && fs'.nodes[i].nlink == 2
            && (forall x: nat :: LiveDir(fs', x) <==> LiveDir(fs, x) || x == i)
            && (forall x: nat :: IsDir(fs', x) <==> IsDir(fs, x) || x == i)
            && (forall x: nat :: LiveDir(fs, x) ==> x in fs'.dirs && SameDots(fs.dirs[x], fs'.dirs[x]) && x != i)
            && (forall x: nat :: x in fs.nodes ==> x in fs'.nodes && (x != d ==> fs'.nodes[x] == fs.nodes[x]))
            && (forall x: nat :: x in fs'.nodes ==> x in fs.nodes || x == i)
            && (forall x: nat, m: string, j: nat ::
                  Entry(fs', x, m, j) <==> Entry(fs, x, m, j) || (x == d && m == n && j == i))
            && (forall m: string, j: nat :: !Entry(fs', i, m, j))
            && "." in fs'.dirs[i] && ".." in fs'.dirs[i] && fs'.dirs[i]["."] == i && Parent(fs', i) == d
  {
  }

  lemma AddDirShape(fs: Fs, d: nat, n: string, i: nat)
    requires Shaped(fs) && Rooted(fs) && LiveDir(fs, d) && !IsDot(n) && n !in fs.dirs[d] && i != 0 && i !in fs.nodes
    ensures Shaped(AddDir(fs, d, n, i)) && Rooted(AddDir(fs, d, n, i))
  {
    hide LiveDir, IsDir, Entry, AddDir;
    LiveInDirs(fs);
    var fs' := AddDir(fs, d, n, i);
    AddDirChange(fs, d, n, i);
    LiveInDirs(fs');
    assert forall x: nat, m: string, j: nat :: Entry(fs, x, m, j) ==> j != i;
    assert Dotted(fs');
    assert Entry(fs', d, n, i);
    assert Aimed(fs');
    forall x: nat | LiveDir(fs', x) && x != fs'.root
      ensures exists n: string :: Entry(fs', Parent(fs', x), n, x)
    {
      if x != i {
        var m: string :| Entry(fs, Parent(fs, x), m, x);
        assert Entry(fs', Parent(fs', x), m, x);
      }
    }
    RootedKept(fs, fs');
    var k: nat :| Climbs(fs', d, k);
    assert Climbs(fs', i, k + 1);
  }

  /** A new directory, counted in its parent. */
  lemma AddDirKeeps(fs: Fs, d: nat, n: string, i: nat)
    requires Consistent(fs) && LiveDir(fs, d) && !IsDot(n) && n !in fs.dirs[d] && i != 0 && i !in fs.nodes
    ensures Consistent(AddDir(fs, d, n, i))
  {
    hide LiveDir, IsDir, Entry, AddDir, Dotted, Held, Rooted, Children, Refs;
    LiveInDirs(fs);
    var fs' := AddDir(fs, d, n, i);
    AddDirShape(fs, d, n, i);
    AddDirChange(fs, d, n, i);
    LiveInDirs(fs');
    forall x: nat | LiveDir(fs', x)
      ensures fs'.nodes[x].nlink == 2 + |Children(fs', x)|
    {
      if x == d {
        ChildrenPlus(fs, fs', d, n, i);
      } else if x == i {
        NoChildren(fs', i);
      } else {
        SameChildren(fs, fs', x);
      }
    }
    forall j: nat | j in fs'.nodes && !fs'.nodes[j].isDir
      ensures fs'.nodes[j].nlink == |Refs(fs', j)|
    {
      assert !IsDir(fs', j) by { NotDir(fs', j); }
      assert j != d by { LiveIsDir(fs', d); }
      SameRefs(fs, fs', j);
    }
  }

  lemma NotDir(fs: Fs, j: nat)
    requires j in fs.nodes && !fs.nodes[j].isDir
    ensures !IsDir(fs, j)
  {
  }

  lemma NoChildren(fs: Fs, d: nat)
    requires LiveDir(fs, d) && forall n: string, i: nat :: !Entry(fs, d, n, i)
    ensures Children(fs, d) == {}
  {
    ChildrenIff(fs, d);
  }

  /** d has an entry n for an empty directory. */
  ghost predicate Removable(fs: Fs, d: nat, n: string) {
    && LiveDir(fs, d) && !IsDot(n) && n in fs.dirs[d] && IsDir(fs, fs.dirs[d][n]) && fs.dirs[d][n] in fs.dirs
    && fs.dirs[fs.dirs[d][n]].Keys == {".", ".."}
  }

  lemma RemoveDirChange(fs: Fs, d: nat, n: string, left: map<string, nat>)
    requires Based(fs) && Removable(fs, d, n) && fs.nodes[d].nlink > 1 && fs.dirs[d][n] != fs.root
    ensures var fs', i := RemoveDir(fs, d, n, left), fs.dirs[d][n];
            && Based(fs') && fs'.root == fs.root && d != i && Entry(fs, d, n, i)
            && fs'.nodes[d].nlink == fs.nodes[d].nlink - 1
            && (forall x: nat :: LiveDir(fs', x) <==> LiveDir(fs, x) && x != i)
            && (forall x: nat :: IsDir(fs', x) <==> IsDir(fs, x))
            && (forall x: nat :: x in fs.dirs && x != i ==> x in fs'.dirs && SameDots(fs.dirs[x], fs'.dirs[x]))
            && (forall x: nat :: x in fs'.nodes <==> x in fs.nodes)
            && (forall x: nat :: x in fs.nodes && x != d && x != i ==> fs'.nodes[x] == fs.nodes[x])
            && (forall x: nat, m: string, j: nat :: Entry(fs', x, m, j) <==> Entry(fs, x, m, j) && !(x == d && m == n))
            && (forall m: string, j: nat :: !Entry(fs, i, m, j))
  {
    assert n !in {".", ".."};
  }

  lemma RemoveDirShape(fs: Fs, d: nat, n: string, left: map<string, nat>)
    requires Shaped(fs) && Rooted(fs) && Removable(fs, d, n) && fs.nodes[d].nlink > 1
    ensures fs.dirs[d][n] in fs.nodes
    ensures Shaped(RemoveDir(fs, d, n, left)) && Rooted(RemoveDir(fs, d, n, left))
  {
    hide LiveDir, IsDir, Entry, RemoveDir, IsDot;
    LiveInDirs(fs);
    DirInNodes(fs, fs.dirs[d][n]);
    assert Entry(fs, d, n, fs.dirs[d][n]) by { EntryHere(fs, d, n); }
    var fs', i := RemoveDir(fs, d, n, left), fs.dirs[d][n];
    RemoveDirChange(fs, d, n, left);
    LiveInDirs(fs');
    forall x: nat | LiveDir(fs, x) && x != i
      ensures Parent(fs, x) != i && x in fs'.dirs && SameDots(fs.dirs[x], fs'.dirs[x])
    {
      if x != fs.root {
        var m: string :| Entry(fs, Parent(fs, x), m, x);
      }
    }
    assert Dotted(fs');
    assert Aimed(fs') by {
      forall x: nat, m: string, j: nat | Entry(fs', x, m, j) && IsDir(fs', j)
        ensures LiveDir(fs', j) && Parent(fs', j) == x
      {
        assert j == i ==> x == d && m == n;
      }
    }
    forall x: nat | LiveDir(fs', x) && x != fs'.root
      ensures exists n: string :: Entry(fs', Parent(fs', x), n, x)
    {
      var m: string :| Entry(fs, Parent(fs, x), m, x);
      EntryIs(fs, Parent(fs, x), m, x);
      assert Entry(fs', Parent(fs', x), m, x);
    }
    RootedKept(fs, fs');
  }

  lemma DirInNodes(fs: Fs, i: nat)
    requires IsDir(fs, i)
    ensures i in fs.nodes && fs.nodes[i].isDir
  {
  }

  lemma EntryIs(fs: Fs, d: nat, n: string, i: nat)
    requires Entry(fs, d, n, i)
    ensures n in fs.dirs[d] && fs.dirs[d][n] == i && !IsDot(n)
  {
  }

  /** An empty directory less, counted in its parent. */
  lemma RemoveDirKeeps(fs: Fs, d: nat, n: string, left: map<string, nat>)
    requires Consistent(fs) && Removable(fs, d, n)
    ensures fs.dirs[d][n] in fs.nodes
    ensures Consistent(RemoveDir(fs, d, n, left)) && fs.nodes[fs.dirs[d][n]].nlink == 2
  {
    hide LiveDir, IsDir, Entry, RemoveDir, Dotted, Held, Rooted, Children, Refs;
    LiveInDirs(fs);
    DirInNodes(fs, fs.dirs[d][n]);
    assert Entry(fs, d, n, fs.dirs[d][n]) by { EntryHere(fs, d, n); }
    var fs', i := RemoveDir(fs, d, n, left), fs.dirs[d][n];
    assert Child(fs, d, n, i);
    ChildrenIff(fs, d);
    assert n in Children(fs, d);
    RemoveDirShape(fs, d, n, left);
    RemoveDirChange(fs, d, n, left);
    LiveInDirs(fs');
    NoChildren(fs, i);
    forall x: nat | LiveDir(fs', x)
      ensures fs'.nodes[x].nlink == 2 + |Children(fs', x)|
    {
      if x == d {
        forall j: nat | Child(fs, d, n, j) ensures j == i { EntryIs(fs, d, n, j); }
        ChildrenMinus(fs, fs', d, n, i);
      } else {
        SameChildren(fs, fs', x);
      }
    }
    forall j: nat | j in fs'.nodes && !fs'.nodes[j].isDir
      ensures fs'.nodes[j].nlink == |Refs(fs', j)|
    {
      NotDir(fs', j);
      LiveIsDir(fs, d);
      forall x: nat, m: string ensures Entry(fs', x, m, j) <==> Entry(fs, x, m, j) {
        if Entry(fs, d, n, j) { EntryIs(fs, d, n, j); }
      }
      SameRefs(fs, fs', j);
    }
  }

  /** d has an entry n for a directory that can move to e under the free name m. */
  ghost predicate Movable(fs: Fs, d: nat, n: string, e: nat, m: string) {
    && LiveDir(fs, d) && LiveDir(fs, e) && !IsDot(n) && !IsDot(m) && n in fs.dirs[d] && m !in fs.dirs[e]
    && IsDir(fs, fs.dirs[d][n]) && LiveDir(fs, fs.dirs[d][n]) && fs.dirs[d][n] != fs.root
    && ".." in fs.dirs[fs.dirs[d][n]] && !Under(fs, e, fs.dirs[d][n])
  }

  lemma MoveDirNodes(fs: Fs, d: nat, n: string, e: nat, m: string)
    requires Based(fs) && Movable(fs, d, n, e, m) && fs.nodes[d].nlink > 1
    ensures var fs' := MoveDir(fs, d, n, e, m);
            && Based(fs') && fs'.root == fs.root && fs'.dirs.Keys == fs.dirs.Keys
            && fs'.nodes[d].nlink == fs.nodes[d].nlink - (if d == e then 0 else 1)
            && fs'.nodes[e].nlink == fs.nodes[e].nlink + (if d == e then 0 else 1)
            && (forall x: nat :: LiveDir(fs', x) <==> LiveDir(fs, x))
            && (forall x: nat :: IsDir(fs', x) <==> IsDir(fs, x))
            && (forall x: nat :: x in fs'.nodes <==> x in fs.nodes)
            && (forall x: nat :: x in fs.nodes && x != d && x != e ==> fs'.nodes[x] == fs.nodes[x])
  {
  }

  lemma MoveDirTables(fs: Fs, d: nat, n: string, e: nat, m: string)
    requires Movable(fs, d, n, e, m) && fs.dirs[d][n] != d && fs.dirs[d][n] != e
    ensures var fs', i := MoveDir(fs, d, n, e, m), fs.dirs[d][n];
            && ".." in fs'.dirs[i] && Parent(fs', i) == e
            && (forall x: nat :: x in fs.dirs ==> x in fs'.dirs && (x != i ==> SameDots(fs.dirs[x], fs'.dirs[x])))
            && ("." in fs.dirs[i] ==> "." in fs'.dirs[i] && fs'.dirs[i]["."] == fs.dirs[i]["."])
  {
    hide Under;
  }

  lemma MoveDirEntries(fs: Fs, d: nat, n: string, e: nat, m: string)
    requires Based(fs) && Movable(fs, d, n, e, m) && fs.nodes[d].nlink > 1 && fs.dirs[d][n] != d && fs.dirs[d][n] != e
    ensures var fs', i := MoveDir(fs, d, n, e, m), fs.dirs[d][n];
            forall x: nat, k: string, j: nat :: Entry(fs', x, k, j) <==>
              (Entry(fs, x, k, j) && !(x == d && k == n)) || (x == e && k == m && j == i)
  {
    hide Under, IsDir, Parent;
    var fs', i := MoveDir(fs, d, n, e, m), fs.dirs[d][n];
    MoveDirNodes(fs, d, n, e, m);
    MoveDirLookups(fs, d, n, e, m);
  }

  lemma MoveDirLookups(fs: Fs, d: nat, n: string, e: nat, m: string)
    requires Movable(fs, d, n, e, m) && fs.dirs[d][n] != d && fs.dirs[d][n] != e
    ensures var fs', i := MoveDir(fs, d, n, e, m), fs.dirs[d][n];
            && fs'.dirs.Keys == fs.dirs.Keys && n !in (if d == e then {} else fs'.dirs[d].Keys)
            && (n != m || d != e ==> n !in fs'.dirs[d]) && m in fs'.dirs[e] && fs'.dirs[e][m] == i
            && forall x: nat, k: string :: x in fs.dirs && !IsDot(k) && !(x == d && k == n) && !(x == e && k == m) ==>
                 (k in fs'.dirs[x] <==> k in fs.dirs[x]) && (k in fs.dirs[x] ==> fs'.dirs[x][k] == fs.dirs[x][k])
  {
    hide Under, IsDir, Parent;
  }

  /** Where the way up from x does not lead through i, it is the same after i has moved. */
  lemma {:induction false} AvoidClimb(fs: Fs, fs': Fs, i: nat, x: nat, k: nat)
    requires fs'.root == fs.root && Climbs(fs, x, k) && !Under(fs, x, i)
    requires forall y: nat :: LiveDir(fs, y) && ".." in fs.dirs[y] && y != i ==>
               LiveDir(fs', y) && ".." in fs'.dirs[y] && Parent(fs', y) == Parent(fs, y)
    ensures Climbs(fs', x, k)
    decreases k
  {
    if x != fs.root {
      assert Passes(fs, i, i, 0);
      var p := Parent(fs, x);
      forall j: nat ensures !Passes(fs, p, i, j) {
        assert Passes(fs, p, i, j) ==> Passes(fs, x, i, j + 1);
      }
      AvoidClimb(fs, fs', i, p, k - 1);
    }
  }

  /** Moving i below e, which is not under i, leaves every directory a way to the root. */
  lemma {:induction false} MoveClimb(fs: Fs, fs': Fs, i: nat, e: nat, x: nat, k: nat)
    requires fs'.root == fs.root && Climbs(fs, x, k) && ToRoot(fs', e)
    requires LiveDir(fs', i) && ".." in fs'.dirs[i] && Parent(fs', i) == e
    requires forall y: nat :: LiveDir(fs, y) && ".." in fs.dirs[y] && y != i ==>
               LiveDir(fs', y) && ".." in fs'.dirs[y] && Parent(fs', y) == Parent(fs, y)
    ensures ToRoot(fs', x)
    decreases k
  {
    if x == fs.root {
      assert Climbs(fs', x, 0);
    } else if x == i {
      var j: nat :| Climbs(fs', e, j);
      assert Climbs(fs', i, j + 1);
    } else {
      MoveClimb(fs, fs', i, e, Parent(fs, x), k - 1);
      var j: nat :| Climbs(fs', Parent(fs, x), j);
      assert Climbs(fs', x, j + 1);
    }
  }

  lemma MoveDistinct(fs: Fs, d: nat, n: string, e: nat, m: string)
    requires Shaped(fs) && Rooted(fs) && Movable(fs, d, n, e, m)
    ensures fs.dirs[d][n] != d && fs.dirs[d][n] != e && Entry(fs, d, n, fs.dirs[d][n])
  {
    var i := fs.dirs[d][n];
    EntryHere(fs, d, n);
    assert Passes(fs, i, i, 0);
    if i == d {
      var k: nat :| Climbs(fs, d, k);
      NotOwnParent(fs, d, k);
    }
  }

  lemma MoveDirShape(fs: Fs, d: nat, n: string, e: nat, m: string)
    requires Shaped(fs) && Rooted(fs) && Movable(fs, d, n, e, m) && fs.nodes[d].nlink > 1
    ensures Shaped(MoveDir(fs, d, n, e, m)) && Rooted(MoveDir(fs, d, n, e, m))
  {
    hide LiveDir, IsDir, Entry, MoveDir, IsDot, Under;
    LiveInDirs(fs);
    var fs', i := MoveDir(fs, d, n, e, m), fs.dirs[d][n];
    MoveDistinct(fs, d, n, e, m);
    MoveDirNodes(fs, d, n, e, m);
    MoveDirTables(fs, d, n, e, m);
    MoveDirEntries(fs, d, n, e, m);
    LiveInDirs(fs');
    assert Dotted(fs');
    assert Aimed(fs') by {
      forall x: nat, k: string | Entry(fs, x, k, i) ensures x == d && k == n { }
    }
    forall x: nat | LiveDir(fs', x) && x != fs'.root
      ensures exists k: string :: Entry(fs', Parent(fs', x), k, x)
    {
      if x == i {
        assert Entry(fs', e, m, i);
      } else {
        var k: string :| Entry(fs, Parent(fs, x), k, x);
        EntryIs(fs, Parent(fs, x), k, x);
        assert Entry(fs', Parent(fs', x), k, x);
      }
    }
    var ke: nat :| Climbs(fs, e, ke);
    AvoidClimb(fs, fs', i, e, ke);
    forall x: nat | LiveDir(fs', x) ensures ToRoot(fs', x) {
      var k: nat :| Climbs(fs, x, k);
      MoveClimb(fs, fs', i, e, x, k);
    }
  }

  /** A directory under a new parent, counted in both. */
  lemma MoveDirKeeps(fs: Fs, d: nat, n: string, e: nat, m: string)
    requires Consistent(fs) && Movable(fs, d, n, e, m)
    ensures Consistent(MoveDir(fs, d, n, e, m))
  {
    hide LiveDir, IsDir, Entry, MoveDir, Dotted, Held, Rooted, Children, Refs, Under, IsDot;
    LiveInDirs(fs);
    var fs', i := MoveDir(fs, d, n, e, m), fs.dirs[d][n];
    MoveDistinct(fs, d, n, e, m);
    assert Child(fs, d, n, i);
    ChildrenIff(fs, d);
    MoveDirShape(fs, d, n, e, m);
    MoveDirNodes(fs, d, n, e, m);
    MoveDirEntries(fs, d, n, e, m);
    LiveInDirs(fs');
    forall j: nat | Child(fs, d, n, j) ensures j == i { EntryIs(fs, d, n, j); }
    forall j: nat ensures !Child(fs, e, m, j) { NoEntry(fs, e, m, j); }
    forall x: nat | LiveDir(fs', x)
      ensures fs'.nodes[x].nlink == 2 + |Children(fs', x)|
    {
      if x == d && d == e {
        ChildrenSwap(fs, fs', d, n, m, i);
      } else if x == d {
        ChildrenMinus(fs, fs', d, n, i);
      } else if x == e {
        ChildrenPlus(fs, fs', e, m, i);
      } else {
        SameChildren(fs, fs', x);
      }
    }
    forall j: nat | j in fs'.nodes && !fs'.nodes[j].isDir
      ensures fs'.nodes[j].nlink == |Refs(fs', j)|
    {
      NotDir(fs', j);
      LiveIsDir(fs, d);
      LiveIsDir(fs, e);
      forall x: nat, k: string ensures Entry(fs', x, k, j) <==> Entry(fs, x, k, j) {
        if Entry(fs, d, n, j) { EntryIs(fs, d, n, j); }
      }
      SameRefs(fs, fs', j);
    }
  }

  lemma NoEntry(fs: Fs, e: nat, m: string, j: nat)
    requires e in fs.dirs && m !in fs.dirs[e]
    ensures !Entry(fs, e, m, j)
  {
  }

  lemma ChildrenSwap(fs: Fs, fs': Fs, d: nat, n: string, m: string, i: nat)
    requires LiveDir(fs, d) && LiveDir(fs', d) && Child(fs, d, n, i) && n != m
    requires forall j: nat :: Child(fs, d, n, j) ==> j == i
    requires forall j: nat :: !Child(fs, d, m, j)
    requires forall k: string, j: nat :: Child(fs', d, k, j) <==> (Child(fs, d, k, j) && k != n) || (k == m && j == i)
    ensures |Children(fs', d)| == |Children(fs, d)|
  {
    hide Child;
    ChildrenIff(fs, d);
    ChildrenIff(fs', d);
    assert Child(fs', d, m, i) && m !in Children(fs, d) && n in Children(fs, d);
    assert Children(fs', d) == Children(fs, d) - {n} + {m};
  }

  // ----- the operations as sequences of changes

  /** Creating a file is a new inode and its entry, or no entry when that fails. */
  lemma CreateKeeps(fs: Fs, d: nat, n: string, i: nat, addErr: int)
    requires Consistent(fs) && Allowed(fs, Create(d, n, i, addErr))
    ensures Consistent(StepCreate(fs, d, n, i, addErr).0)
  {
    hide Consistent;
    var fs1 := NewFile(fs, i);
    NewFileKeeps(fs, i);
    if addErr == OK {
      LinkFileKeeps(fs1, d, n, i);
      assert StepCreate(fs, d, n, i, addErr).0 == LinkFile(fs1, d, n, i);
    } else {
      assert StepCreate(fs, d, n, i, addErr).0 == fs1;
    }
  }

  /** A mkdir keeps the namespace consistent exactly when it does not fail late. */
  lemma MkdirExact(fs: Fs, op: Op)
    requires Consistent(fs) && Allowed(fs, op) && op.Mkdir?
    ensures Consistent(Step(fs, op).0) <==> !LateFailure(op)
  {
    hide Counted, Rooted, Held, Aimed, Dotted, LiveDir;
    LiveInDirs(fs);
    var d, n := op.dir, op.name;
    var fs' := Step(fs, op).0;
    if op.alloc.None? {
      assert fs'.nodes == fs.nodes;
      assert fs' == fs;
    } else if !LateFailure(op) {
      AddDirKeeps(fs, d, n, op.alloc.value);
      var a := AddDir(fs, d, n, op.alloc.value);
      assert fs'.nodes == a.nodes && fs'.dirs == a.dirs;
      assert fs' == a;
    } else {
      LateMkdirMiscounts(fs, op);
    }
  }

  /** After a late failure the parent counts a child it does not have. */
  lemma LateMkdirMiscounts(fs: Fs, op: Op)
    requires Consistent(fs) && Allowed(fs, op) && LateFailure(op)
    ensures var fs' := Step(fs, op).0;
            && LiveDir(fs', op.dir) && Children(fs', op.dir) == Children(fs, op.dir)
            && fs'.nodes[op.dir].nlink == 2 + |Children(fs', op.dir)| + 1
            && !Consistent(fs')
  {
    hide Rooted, Held, Dotted;
    var d, fs' := op.dir, Step(fs, op).0;
    assert d != op.alloc.value;
    assert fs'.dirs[d] == fs.dirs[d];
    forall n: string | n in fs.dirs[d] && !IsDot(n)
      ensures IsDir(fs', fs.dirs[d][n]) <==> IsDir(fs, fs.dirs[d][n])
    {
      assert Entry(fs, d, n, fs.dirs[d][n]);
    }
    assert Children(fs', d) == Children(fs, d);
  }

  /** Unlinking a file takes away an entry and its count. */
  lemma UnlinkKeeps(fs: Fs, d: nat, n: string)
    requires Consistent(fs) && Allowed(fs, Unlink(d, n))
    ensures Consistent(StepUnlink(fs, d, n).0) && StepUnlink(fs, d, n).1 == OK
  {
    hide Consistent;
    UnlinkFileKeeps(fs, d, n);
  }

  lemma RmdirIs(fs: Fs, d: nat, n: string)
    requires Consistent(fs) && Allowed(fs, Rmdir(d, n, Empty))
    ensures d in fs.dirs && d in fs.nodes && Removable(fs, d, n) && fs.dirs[d][n] in fs.nodes && d != fs.dirs[d][n]
    ensures Consistent(RemoveDir(fs, d, n, map[]))
    ensures StepRmdir(fs, d, n, Empty) == (RemoveDir(fs, d, n, map[]), OK)
  {
    hide Consistent;
    RemoveDirKeeps(fs, d, n, map[]);
    RemoveOther(fs, d, n);
    var a, b := StepRmdir(fs, d, n, Empty).0, RemoveDir(fs, d, n, map[]);
    assert a.nodes == b.nodes && a.dirs == b.dirs;
    assert a == b;
  }

  /** Removing a directory is unlinking an empty one; otherwise nothing happens. */
  lemma RmdirKeeps(fs: Fs, d: nat, n: string, v: Verdict)
    requires Consistent(fs) && Allowed(fs, Rmdir(d, n, v))
    ensures d in fs.dirs && d in fs.nodes && Consistent(StepRmdir(fs, d, n, v).0)
    ensures StepRmdir(fs, d, n, v).1 == (if v == Empty then OK else ENOTEMPTY)
    ensures v != Empty ==> StepRmdir(fs, d, n, v).0 == fs
  {
    hide Consistent, RemoveDir;
    if v == Empty { RmdirIs(fs, d, n); }
  }

  lemma RemoveOther(fs: Fs, d: nat, n: string)
    requires Removable(fs, d, n)
    ensures fs.dirs[d][n] != d
  {
    assert n !in {".", ".."};
  }

  /** What is in the way of a file's new name is unlinked first. */
  function Cleared(fs: Fs, e: nat, m: string): Fs
    requires e in fs.dirs && (m in fs.dirs[e] ==> fs.dirs[e][m] in fs.nodes)
  {
    if m in fs.dirs[e] then UnlinkFile(fs, e, m) else fs
  }

  /** Renaming a file is unlinking what is in the way and moving the entry. */
  lemma RenameFileIs(fs: Fs, d: nat, n: string, e: nat, m: string, v: Verdict, addErr: int)
    requires Consistent(fs) && Allowed(fs, Rename(d, n, e, m, v, addErr)) && !IsDir(fs, fs.dirs[d][n])
    requires m in fs.dirs[e] || addErr == OK
    ensures d in fs.dirs && d in fs.nodes && e in fs.dirs && e in fs.nodes
    ensures var i, fs1 := fs.dirs[d][n], Cleared(fs, e, m);
            && d in fs1.dirs && n in fs1.dirs[d] && fs1.dirs[d][n] == i && i in fs1.nodes && !IsDir(fs1, i)
            && Consistent(fs1) && LiveDir(fs1, d) && LiveDir(fs1, e) && m !in fs1.dirs[e]
            && StepRename(fs, d, n, e, m, v, addErr).0 == LinkFile(UnlinkFile(fs1, d, n), e, m, i)
  {
    hide Consistent, Under;
    var i, fs1 := fs.dirs[d][n], Cleared(fs, e, m);
    if m in fs.dirs[e] { UnlinkFileKeeps(fs, e, m); }
    RenameFileTables(fs, d, n, e, m, i);
    var a, b := StepRename(fs, d, n, e, m, v, addErr).0, LinkFile(UnlinkFile(fs1, d, n), e, m, i);
    assert a.nodes == b.nodes;
    assert a == b;
  }

  /** So it keeps the namespace consistent, also when it fails. */
  lemma RenameFileKeeps(fs: Fs, d: nat, n: string, e: nat, m: string, v: Verdict, addErr: int)
    requires Consistent(fs) && Allowed(fs, Rename(d, n, e, m, v, addErr)) && !IsDir(fs, fs.dirs[d][n])
    ensures d in fs.dirs && d in fs.nodes && e in fs.dirs && e in fs.nodes
    ensures Consistent(StepRename(fs, d, n, e, m, v, addErr).0)
  {
    hide Consistent, Under, Cleared;
    if m in fs.dirs[e] || addErr == OK {
      RenameFileIs(fs, d, n, e, m, v, addErr);
      var fs1 := Cleared(fs, e, m);
      UnlinkFileKeeps(fs1, d, n);
      LinkFileKeeps(UnlinkFile(fs1, d, n), e, m, fs.dirs[d][n]);
    }
  }

  /** Binding first and unbinding later gives the tables of the other order. */
  lemma RenameFileTables(fs: Fs, d: nat, n: string, e: nat, m: string, i: nat)
    requires d in fs.dirs && e in fs.dirs && (d, n) != (e, m)
    ensures Unbind(Bind(fs, e, m, i), d, n).dirs == Bind(Unbind(fs, d, n), e, m, i).dirs
    ensures Unbind(Bind(fs, e, m, i), d, n).dirs == Bind(Unbind(Unbind(fs, e, m), d, n), e, m, i).dirs
  {
    assert fs.dirs[e][m := i] == (fs.dirs[e] - {m})[m := i];
    UnbindBind(fs, d, n, e, m, i);
    UnbindBind(Unbind(fs, e, m), d, n, e, m, i);
    assert Bind(Unbind(fs, e, m), e, m, i).dirs == Bind(fs, e, m, i).dirs;
  }

  lemma UnbindBind(fs: Fs, d: nat, n: string, e: nat, m: string, i: nat)
    requires d in fs.dirs && e in fs.dirs && (d, n) != (e, m)
    ensures Unbind(Bind(fs, e, m, i), d, n).dirs == Bind(Unbind(fs, d, n), e, m, i).dirs
  {
    TableSwap(fs.dirs[e], n, m, i);
  }

  lemma TableSwap(t: map<string, nat>, n: string, m: string, i: nat)
    ensures n != m ==> t[m := i] - {n} == (t - {n})[m := i] == (t - {m} - {n})[m := i]
  {
  }

  /** Renaming a directory is removing the empty one in the way and moving it. */
  lemma RenameDirKeeps(fs: Fs, d: nat, n: string, e: nat, m: string, v: Verdict, addErr: int)
    requires Consistent(fs) && Allowed(fs, Rename(d, n, e, m, v, addErr)) && IsDir(fs, fs.dirs[d][n])
    ensures d in fs.dirs && d in fs.nodes && e in fs.dirs && e in fs.nodes && fs.dirs[d][n] in fs.dirs
    ensures Consistent(StepRename(fs, d, n, e, m, v, addErr).0)
  {
    hide Consistent, Under, LiveDir, IsDir, RemoveDir, MoveDir, StepRename, IsDot;
    RenameDirReady(fs, d, n, e, m);
    if m !in fs.dirs[e] {
      if addErr == OK {
        MoveDirKeeps(fs, d, n, e, m);
        RenameDirFree(fs, d, n, e, m, v);
      } else {
        RenameDirIdle(fs, d, n, e, m, v, addErr);
      }
    } else if v == Empty {
      var t := fs.dirs[e][m];
      var left := fs.dirs[t];
      RemoveDirKeeps(fs, e, m, left);
      var fs1 := RemoveDir(fs, e, m, left);
      RemoveLeavesMovable(fs, d, n, e, m);
      MoveDirKeeps(fs1, d, n, e, m);
      RenameDirOnto(fs, d, n, e, m, addErr);
    } else {
      RenameDirIdle(fs, d, n, e, m, v, addErr);
    }
  }

  lemma RenameDirReady(fs: Fs, d: nat, n: string, e: nat, m: string)
    requires Consistent(fs) && LiveDir(fs, d) && LiveDir(fs, e) && !IsDot(n) && !IsDot(m)
    requires n in fs.dirs[d] && IsDir(fs, fs.dirs[d][n]) && !Under(fs, e, fs.dirs[d][n])
    ensures d in fs.dirs && d in fs.nodes && e in fs.dirs && e in fs.nodes && fs.dirs[d][n] in fs.dirs
    ensures m !in fs.dirs[e] ==> Movable(fs, d, n, e, m)
    ensures fs.dirs[d][n] in fs.nodes && fs.nodes[fs.dirs[d][n]].isDir
    ensures e != fs.dirs[d][n] && d != fs.dirs[d][n] && ".." in fs.dirs[fs.dirs[d][n]] && Parent(fs, fs.dirs[d][n]) == d
  {
    hide Counted, Held;
    assert Passes(fs, e, e, 0);
    EntryHere(fs, d, n);
    assert ToRoot(fs, d);
    var k: nat :| Climbs(fs, d, k);
    if fs.dirs[d][n] == d {
      NotOwnParent(fs, d, k);
    }
  }

  lemma RenameDirIdle(fs: Fs, d: nat, n: string, e: nat, m: string, v: Verdict, addErr: int)
    requires d in fs.dirs && d in fs.nodes && e in fs.dirs && e in fs.nodes && n in fs.dirs[d]
    requires var i := fs.dirs[d][n]; i in fs.nodes && fs.nodes[i].isDir && i in fs.dirs
    requires m in fs.dirs[e] ==> fs.dirs[e][m] in fs.nodes
    requires if m in fs.dirs[e] then v != Empty else addErr != OK
    ensures StepRename(fs, d, n, e, m, v, addErr).0 == fs
  {
  }

  lemma RenameDirFree(fs: Fs, d: nat, n: string, e: nat, m: string, v: Verdict)
    requires Consistent(fs) && Movable(fs, d, n, e, m)
    requires var i := fs.dirs[d][n]; i in fs.nodes && fs.nodes[i].isDir && i in fs.dirs
    requires d in fs.nodes && e in fs.nodes && d in fs.dirs && e in fs.dirs
    ensures StepRename(fs, d, n, e, m, v, OK).0 == MoveDir(fs, d, n, e, m)
  {
    hide Counted, Rooted, Held, Under, LiveDir, IsDir;
    MoveDistinct(fs, d, n, e, m);
    var i := fs.dirs[d][n];
    assert Parent(fs, i) == d;
    var a, b := StepRename(fs, d, n, e, m, v, OK).0, MoveDir(fs, d, n, e, m);
    assert a.nodes == b.nodes;
    assert fs.dirs[i][".." := d] == fs.dirs[i];
    assert a.dirs == b.dirs;
  }

  lemma {:induction false} PassesBack(fs: Fs, fs': Fs, x: nat, i: nat, k: nat)
    requires Passes(fs', x, i, k)
    requires forall y: nat :: LiveDir(fs', y) && ".." in fs'.dirs[y] ==>
               LiveDir(fs, y) && ".." in fs.dirs[y] && Parent(fs, y) == Parent(fs', y)
    ensures Passes(fs, x, i, k)
    decreases k
  {
    if x != i {
      PassesBack(fs, fs', Parent(fs', x), i, k - 1);
    }
  }

  /** With the empty directory out of the way the other one can move. */
  lemma RemoveLeavesMovable(fs: Fs, d: nat, n: string, e: nat, m: string)
    requires Consistent(fs) && LiveDir(fs, d) && !IsDot(n) && n in fs.dirs[d] && Removable(fs, e, m) && (d, n) != (e, m)
    requires fs.dirs[e][m] in fs.nodes && e in fs.nodes && fs.dirs[e][m] != fs.dirs[d][n]
    requires IsDir(fs, fs.dirs[d][n]) && !Under(fs, e, fs.dirs[d][n])
    ensures Movable(RemoveDir(fs, e, m, fs.dirs[fs.dirs[e][m]]), d, n, e, m)
    ensures d != fs.dirs[e][m] && e != fs.dirs[e][m] && fs.nodes[fs.dirs[e][m]].isDir
  {
    hide Counted, Rooted, Held, Under, LiveDir, IsDir, Refs, RemoveDir;
    LiveInDirs(fs);
    var i, t := fs.dirs[d][n], fs.dirs[e][m];
    assert d != t && e != t by { RemoveOther(fs, e, m); DotsOnly(fs, t, n); }
    DirInNodes(fs, t);
    EntryHere(fs, d, n);
    EntryHere(fs, e, m);
    CountsTwo(fs, e);
    var fs1 := RemoveDir(fs, e, m, fs.dirs[t]);
    RemoveDirChange(fs, e, m, fs.dirs[t]);
    RemoveDirTables(fs, e, m, fs.dirs[t]);
    LiveInDirs(fs1);
    UnderBack(fs, fs1, e, i);
  }

  lemma UnderBack(fs: Fs, fs': Fs, x: nat, i: nat)
    requires forall y: nat :: LiveDir(fs', y) && ".." in fs'.dirs[y] ==>
               LiveDir(fs, y) && ".." in fs.dirs[y] && Parent(fs, y) == Parent(fs', y)
    ensures Under(fs', x, i) ==> Under(fs, x, i)
  {
    forall k: nat | Passes(fs', x, i, k)
      ensures Under(fs, x, i)
    {
      PassesBack(fs, fs', x, i, k);
    }
  }

  lemma DotsOnly(fs: Fs, t: nat, n: string)
    requires t in fs.dirs && fs.dirs[t].Keys == {".", ".."} && !IsDot(n)
    ensures n !in fs.dirs[t]
  {
  }

  lemma CountsTwo(fs: Fs, e: nat)
    requires Counted(fs) && LiveDir(fs, e)
    ensures fs.nodes[e].nlink >= 2
  {
  }

  lemma RemoveDirTables(fs: Fs, e: nat, m: string, left: map<string, nat>)
    requires Removable(fs, e, m) && fs.dirs[e][m] in fs.nodes && e in fs.nodes && fs.dirs[e][m] != e
    ensures var fs', t := RemoveDir(fs, e, m, left), fs.dirs[e][m];
            && fs'.dirs.Keys == fs.dirs.Keys && fs'.dirs[e] == fs.dirs[e] - {m} && fs'.dirs[t] == left
            && forall x: nat :: x in fs.dirs && x != e && x != t ==> fs'.dirs[x] == fs.dirs[x]
  {
  }

  lemma RenameDirOnto(fs: Fs, d: nat, n: string, e: nat, m: string, addErr: int)
    requires d in fs.dirs && d in fs.nodes && e in fs.dirs && e in fs.nodes && n in fs.dirs[d] && m in fs.dirs[e]
    requires var i, t := fs.dirs[d][n], fs.dirs[e][m];
             && i in fs.dirs && i in fs.nodes && fs.nodes[i].isDir && ".." in fs.dirs[i] && Parent(fs, i) == d
             && t in fs.dirs && t in fs.nodes && fs.nodes[t] == Node(true, 2)
             && i != t && i != d && i != e && t != d && t != e && (d, n) != (e, m)
    requires !IsDot(n) && !IsDot(m)
    ensures var fs1 := RemoveDir(fs, e, m, fs.dirs[fs.dirs[e][m]]);
            && d in fs1.dirs && d in fs1.nodes && e in fs1.dirs && e in fs1.nodes && n in fs1.dirs[d]
            && fs1.dirs[d][n] in fs1.dirs
            && StepRename(fs, d, n, e, m, Empty, addErr).0 == MoveDir(fs1, d, n, e, m)
  {
    var i, t := fs.dirs[d][n], fs.dirs[e][m];
    var fs1 := RemoveDir(fs, e, m, fs.dirs[t]);
    OntoFreed(fs, e, m, t);
    OntoTables(fs, fs1, d, n, e, m, i);
    var a, b := StepRename(fs, d, n, e, m, Empty, addErr).0, MoveDir(fs1, d, n, e, m);
    assert a.nodes == b.nodes;
    assert a == b;
  }

  lemma OntoFreed(fs: Fs, e: nat, m: string, t: nat)
    requires e in fs.dirs && e in fs.nodes && m in fs.dirs[e]
    requires fs.dirs[e][m] == t && t in fs.nodes && t in fs.dirs && t != e
    ensures RemoveDir(fs, e, m, fs.dirs[t]).dirs == fs.dirs[e := fs.dirs[e] - {m}]
  {
  }

  /** The tables after binding over an entry are those after unbinding it first. */
  lemma OntoTables(fs: Fs, fs1: Fs, d: nat, n: string, e: nat, m: string, i: nat)
    requires d in fs.dirs && e in fs.dirs && i in fs.dirs && i != d && i != e && m in fs.dirs[e]
    requires fs1.dirs == fs.dirs[e := fs.dirs[e] - {m}]
    requires ".." in fs.dirs[i] && Parent(fs, i) == d
    ensures var gone, gone1 := Unbind(Bind(fs, e, m, i), d, n), Unbind(Bind(fs1, e, m, i), d, n);
            && gone.dirs == gone1.dirs
            && (if d != e then Bind(gone, i, "..", e) else gone).dirs == Bind(gone1, i, "..", e).dirs
  {
    assert (fs.dirs[e] - {m})[m := i] == fs.dirs[e][m := i];
    assert Bind(fs1, e, m, i).dirs == Bind(fs, e, m, i).dirs;
    assert fs.dirs[i][".." := d] == fs.dirs[i];
  }
}
