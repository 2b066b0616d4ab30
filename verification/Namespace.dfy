/** The namespace object: inodes with link counts and one directory object for each
    directory. Its operations hold record pointers across changes of the directories. */
module Namespace {
  import opened Answers
  import opened DirectoryLog
  import opened DirectoryInsert
  import opened DirectoryLaws
  import opened DirectoryNames
  import opened NamespaceModel
  import opened NamespaceLaws
  import opened NamespaceRuns
  import opened NamespaceEffects
  import S = DirectoryScan
  import D = Directory

  class Namespace {
    const layout: Layout
    const root: nat
    var nodes: map<nat, Node>
    var dirs: map<nat, D.Directory>

    /** Every directory is well formed, none shares its records with another, and "." and
        ".." stand where a new directory has them. */
    ghost predicate Valid()
      reads this`dirs, dirs.Values
    {
      && GoodLayout(layout)
      && (forall d, e :: d in dirs && e in dirs && dirs[d] == dirs[e] ==> d == e)
      && (forall d :: d in dirs ==> dirs[d].layout == layout && dirs[d].Valid() && DotsPlaced(dirs[d]))
    }

    static ghost predicate DotsPlaced(dir: D.Directory)
      requires dir.Valid()
      reads dir
    {
      "." in dir.Table() ==> Holds(dir.Now(), dir.starts, ".", 0) && Holds(dir.Now(), dir.starts, "..", 12)
    }

    /** What the records mean. */
    ghost function View(): (fs: Fs)
      requires Valid()
      reads this, dirs.Values
      ensures fs.root == root && fs.nodes == nodes && fs.dirs.Keys == dirs.Keys
    {
      Fs(root, nodes, map d | d in dirs :: dirs[d].Table())
    }

    /** o points at a live record of directory d with this name and inode. */
    ghost predicate Points(d: nat, o: nat, n: string, i: nat)
      reads this`dirs, dirs.Values
    {
      d in dirs && Holds(dirs[d].Now(), dirs[d].starts, n, o) && At(dirs[d].Now(), o).ino == i
    }

    /** A volume that holds nothing but its root. */
    constructor (layout: Layout, root: nat)
      requires GoodLayout(layout) && root != 0
      ensures Valid() && fresh(dirs.Values) && View() == JustRoot(root) && Consistent(View())
    {
      var dir := new D.Directory(layout);
      var err := dir.InitEmpty(root, root, OK);
      this.layout, this.root, nodes, dirs := layout, root, map[root := Node(true, 2)], map[root := dir];
      new;
      hide *;
      NewPlaced(dir, root, root);
      OneDirectory(dir);
      JustRootConsistent(root);
    }

    lemma OneDirectory(dir: D.Directory)
      requires GoodLayout(layout) && dirs == map[root := dir] && nodes == map[root := Node(true, 2)]
      requires dir.layout == layout && dir.Valid() && DotsPlaced(dir) && dir.Table() == NewDots(root, root)
      ensures Valid() && View() == JustRoot(root)
    {
      hide WellFormed, Names, Holds, NewDots;
      assert View().dirs == map[root := NewDots(root, root)];
    }

    lemma DotsHere(x: nat)
      requires Valid() && Dotted(View()) && LiveDir(View(), x)
      ensures HasDots(dirs[x].Now(), dirs[x].starts, x, Parent(View(), x))
    {
      var dir := dirs[x];
      assert "." in dir.Table();
      HoldsUnique(dir.Now(), dir.starts, ".");
      HoldsUnique(dir.Now(), dir.starts, "..");
    }

    lemma ViewAt(d: nat)
      requires Valid() && d in dirs
      ensures GoodLayout(layout) && dirs[d].layout == layout && dirs[d].Valid() && DotsPlaced(dirs[d])
      ensures View().dirs[d] == dirs[d].Table()
      ensures forall e :: e in dirs && e != d ==> dirs[e] != dirs[d]
    {
    }

    lemma NewPlaced(dir: D.Directory, self: nat, parent: nat)
      requires dir.Valid() && HasDots(dir.Now(), dir.starts, self, parent)
      ensures DotsPlaced(dir)
    {
      hide WellFormed, Names;
    }

    twostate lemma SameRecords(dir: D.Directory)
      requires dir.Now() == old(dir.Now()) && dir.starts == old(dir.starts)
      requires old(dir.Valid()) && old(DotsPlaced(dir))
      ensures dir.Valid() && DotsPlaced(dir) && dir.Table() == old(dir.Table())
    {
      hide WellFormed, Names;
    }

    // ----- one record changed

    /** The object of directory i alone has changed. */
    twostate lemma Refreshed(i: nat)
      requires old(Valid()) && dirs == old(dirs) && nodes == old(nodes) && i in dirs
      requires dirs[i].Valid() && DotsPlaced(dirs[i])
      requires forall d :: d in dirs && d != i ==> unchanged(dirs[d])
      ensures Valid() && View() == old(View()).(dirs := old(View()).dirs[i := dirs[i].Table()])
    {
      hide WellFormed, Names, Holds;
      assert View().dirs == old(View()).dirs[i := dirs[i].Table()];
    }

    /** Adds a name. No pointer is lost. */
    method Link(d: nat, n: string, i: nat, prepErr: int) returns (err: int)
      requires Valid() && d in dirs && GoodName(n) && !IsDot(n) && n !in View().dirs[d] && i != 0
      modifies dirs[d]
      ensures Valid() && err == prepErr
      ensures View() == if err == OK then Bind(old(View()), d, n, i) else old(View())
      ensures forall x, o, k, j :: old(Points(x, o, k, j)) ==> Points(x, o, k, j)
    {
      hide View, Names, WellFormed;
      ViewAt(d);
      err := dirs[d].AddLink(n, i, prepErr);
      Refreshed(d);
    }

    /** Deletes the record under a pointer. Pointers to other records are kept. */
    method Drop(d: nat, at: nat, n: string) returns (err: int)
      requires Valid() && !IsDot(n) && exists i :: Points(d, at, n, i)
      modifies dirs[d]
      ensures Valid() && err == OK && View() == Unbind(old(View()), d, n)
      ensures forall x, o, k, j :: old(Points(x, o, k, j)) && !(x == d && k == n) ==> Points(x, o, k, j)
    {
      hide View, Names, WellFormed;
      ViewAt(d);
      err := dirs[d].DeleteEntry(at);
      Refreshed(d);
    }

    /** Makes the record under a pointer name another inode. Every pointer is kept. */
    method Retarget(d: nat, at: nat, n: string, i: nat)
      requires Valid() && i != 0 && exists j :: Points(d, at, n, j)
      modifies dirs[d]
      ensures Valid() && View() == Bind(old(View()), d, n, i)
      ensures forall x, o, k, j :: old(Points(x, o, k, j)) && !(x == d && k == n) ==> Points(x, o, k, j)
    {
      hide View, Names, WellFormed;
      ViewAt(d);
      dirs[d].Relink(at, i);
      Refreshed(d);
    }

    /** Raises or lowers a link count. */
    method CountLink(i: nat, delta: int)
      requires Valid() && i in nodes
      modifies this`nodes
      ensures Valid() && View() == AddLinks(old(View()), i, delta)
      ensures forall x, o, k, j :: old(Points(x, o, k, j)) ==> Points(x, o, k, j)
    {
      hide Valid, Points, D.Directory.Valid, D.Directory.Table, DotsPlaced;
      nodes := nodes[i := nodes[i].(nlink := nodes[i].nlink + delta)];
    }

    // ----- the operations

    /** Enters a new inode i, made with one link, under the name n. */
    method Create(d: nat, n: string, i: nat, addErr: int) returns (err: int)
      requires Valid() && Shaped(View()) && GoodName(n)
      requires Allowed(View(), Op.Create(d, n, i, addErr))
      modifies this, dirs.Values
      ensures Valid() && Does(old(View()), Op.Create(d, n, i, addErr), View(), err)
      ensures old(Consistent(View())) ==> Consistent(View())
      ensures old(Consistent(View())) ==> Achieves(old(View()), Op.Create(d, n, i, addErr), View(), err)
    {
      hide Valid, View, Points, Consistent, Dotted, Aimed, Held, Achieves;
      if Consistent(View()) {
        StepExact(View(), Op.Create(d, n, i, addErr));
        StepAchieves(View(), Op.Create(d, n, i, addErr));
      }
      AddFile(i);
      err := Link(d, n, i, addErr);
      if err != OK {
        CountLink(i, -1);
      }
    }

    /** Makes an empty directory. The count of the parent is raised first. */
    method Mkdir(d: nat, n: string, alloc: Option<nat>, allocErr: int, makeErr: int, addErr: int) returns (err: int)
      requires Valid() && Shaped(View()) && GoodName(n)
      requires Allowed(View(), Op.Mkdir(d, n, alloc, allocErr, makeErr, addErr))
      modifies this, dirs.Values
      ensures Valid() && fresh(dirs.Values - old(dirs.Values))
      ensures Does(old(View()), Op.Mkdir(d, n, alloc, allocErr, makeErr, addErr), View(), err)
      ensures old(Consistent(View())) ==>
                (Consistent(View()) <==> !LateFailure(Op.Mkdir(d, n, alloc, allocErr, makeErr, addErr)))
      ensures old(Consistent(View())) ==>
                Achieves(old(View()), Op.Mkdir(d, n, alloc, allocErr, makeErr, addErr), View(), err)
    {
      hide Valid, View, Points, Consistent, Based, Dotted, Aimed, Held, IsDot, NewDots, Achieves;
      NotZero(View(), d);
      if alloc.Some? {
        NotInDirs(View(), alloc.value);
      }
      if Consistent(View()) {
        StepExact(View(), Op.Mkdir(d, n, alloc, allocErr, makeErr, addErr));
        StepAchieves(View(), Op.Mkdir(d, n, alloc, allocErr, makeErr, addErr));
      }
      CountLink(d, 1);
      if alloc.None? {
        CountLink(d, -1);
        return allocErr;
      }
      var i := alloc.value;
      ghost var raised := View();
      var dir := AddDirectory(i);
      CountLink(i, 1);
      assert View().nodes == raised.nodes[i := Node(true, 2)];
      err := Furnish(i, d, makeErr);
      if err == OK {
        err := Link(d, n, i, addErr);
      }
      if err != OK {
        CountLink(i, -1);
        CountLink(i, -1);
      }
    }

    /** A new inode with one link. */
    method AddFile(i: nat)
      requires Valid()
      modifies this`nodes
      ensures Valid() && View() == old(View()).(nodes := old(nodes)[i := Node(false, 1)])
      ensures forall x, o, k, j :: old(Points(x, o, k, j)) ==> Points(x, o, k, j)
    {
      hide Valid, Points, D.Directory.Valid, D.Directory.Table, DotsPlaced;
      nodes := nodes[i := Node(false, 1)];
    }

    /** A new inode with an object for its records. */
    method AddDirectory(i: nat) returns (dir: D.Directory)
      requires Valid() && i !in dirs && i !in nodes
      modifies this
      ensures Valid() && dirs == old(dirs)[i := dir] && fresh(dir)
      ensures View() == old(View()).(nodes := old(nodes)[i := Node(true, 1)], dirs := old(View()).dirs[i := map[]])
      ensures dir.size == 0
    {
      hide WellFormed, Names, Holds, GoodLayout, D.Directory.Valid, D.Directory.Table;
      dir := new D.Directory(layout);
      nodes, dirs := nodes[i := Node(true, 1)], dirs[i := dir];
      assert View().dirs == old(View()).dirs[i := map[]];
    }

    /** Gives a new directory its "." and "..". */
    method Furnish(i: nat, parent: nat, makeErr: int) returns (err: int)
      requires Valid() && i in dirs && dirs[i].size == 0 && i != 0 && parent != 0
      modifies dirs[i]
      ensures Valid() && err == makeErr
      ensures err != OK ==> View() == old(View())
      ensures err == OK ==> View() == old(View()).(dirs := old(View()).dirs[i := NewDots(i, parent)])
    {
      hide *;
      ViewAt(i);
      err := dirs[i].InitEmpty(i, parent, makeErr);
      if err == OK {
        NewPlaced(dirs[i], i, parent);
      } else {
        SameRecords(dirs[i]);
      }
      Refreshed(i);
    }

    /** Deletes the name n of inode i and lowers the count of i. */
    method Unlink(d: nat, n: string, i: nat) returns (err: int)
      requires Valid() && d in dirs && !IsDot(n) && i in nodes
      requires n in View().dirs[d] ==> View().dirs[d][n] == i
      modifies this`nodes, dirs[d]
      ensures Valid() && (View(), err) == StepUnlink(old(View()), d, n)
      ensures old(Consistent(View()) && Allowed(View(), Op.Unlink(d, n))) ==> Consistent(View())
      ensures old(Consistent(View()) && Allowed(View(), Op.Unlink(d, n))) ==>
                Achieves(old(View()), Op.Unlink(d, n), View(), err)
      ensures n !in old(View().dirs[d]) ==> err == ENOENT && View() == old(View())
    {
      hide Consistent, DotsPlaced, WellFormed, Names, Allowed, Valid, View, Points, Achieves;
      if Consistent(View()) && Allowed(View(), Op.Unlink(d, n)) {
        StepExact(View(), Op.Unlink(d, n));
        StepAchieves(View(), Op.Unlink(d, n));
      }
      var at := Seek(d, n);
      if at.None? {
        return ENOENT;
      }
      err := Drop(d, at.value, n);
      if err != OK {
        return;
      }
      CountLink(i, -1);
    }

    /** Asks whether a directory is empty. */
    method Probe(i: nat) returns (v: Verdict)
      requires Valid() && Dotted(View()) && LiveDir(View(), i)
      ensures GoodVerdict(View(), i, v)
      ensures v == Stuck ==> !S.NoDead(dirs[i].Now(), dirs[i].starts)
    {
      hide *;
      LiveInDirs(View());
      ViewAt(i);
      DotsHere(i);
      v := dirs[i].IsEmpty(i);
      VerdictGood(View(), i, v);
    }

    /** Sets the size of a removed directory to 0. */
    method Clear(i: nat)
      requires Valid() && i in dirs
      modifies dirs[i]
      ensures Valid() && View() == old(View()).(dirs := old(View()).dirs[i := map[]])
    {
      hide View, WellFormed, Names;
      ViewAt(i);
      dirs[i].Truncate();
      Refreshed(i);
    }

    /** Removes the empty directory i of the name n. `v` is what the emptiness test said. */
    method Rmdir(d: nat, n: string, i: nat) returns (err: int, v: Verdict)
      requires Valid() && Shaped(View()) && Allowed(View(), Op.Rmdir(d, n, Stuck)) && Lookup(View(), d, n) == Some(i)
      modifies this`nodes, dirs.Values
      ensures Valid() && Does(old(View()), Op.Rmdir(d, n, v), View(), err)
      ensures old(Consistent(View())) ==> Consistent(View())
      ensures v == Stuck ==> i in dirs && !S.NoDead(dirs[i].Now(), dirs[i].starts)
      ensures old(Consistent(View())) ==> Achieves(old(View()), Op.Rmdir(d, n, v), View(), err)
    {
      hide Valid, View, Consistent, Based, Dotted, Aimed, Held, S.NoDead, Achieves;
      ChildLives(View(), d, n);
      v := Probe(i);
      if Consistent(View()) {
        StepExact(View(), Op.Rmdir(d, n, v));
        StepAchieves(View(), Op.Rmdir(d, n, v));
      }
      err := ENOTEMPTY;
      if v == Empty {
        err := Unlink(d, n, i);
        if err == OK {
          Clear(i);
          CountLink(i, -1);
          CountLink(d, -1);
        }
      }
    }

    /** Moves the name n of inode i to the name m of directory e, where `target` is what m
        names now. The pointer to the old record and the one to ".." are taken before the
        new name is entered, and used after it. */
    method Rename(d: nat, n: string, i: nat, e: nat, m: string, target: Option<nat>, addErr: int)
      returns (err: int, v: Verdict)
      requires Valid() && Shaped(View()) && GoodName(m) && Allowed(View(), Op.Rename(d, n, e, m, Stuck, addErr))
      requires Lookup(View(), d, n) == Some(i) && Lookup(View(), e, m) == target
      modifies this`nodes, dirs.Values
      ensures Valid() && Does(old(View()), Op.Rename(d, n, e, m, v, addErr), View(), err)
      ensures old(Consistent(View())) ==> Consistent(View())
      ensures old(Consistent(View())) ==> Achieves(old(View()), Op.Rename(d, n, e, m, v, addErr), View(), err)
    {
      hide Valid, View, Points, Consistent, Shaped, Under, FinishRename, LiveDir, IsDot, Achieves;
      var at, dot;
      at, dot, v := Look(d, n, i, e, m, target, addErr);
      var isDir := nodes[i].isDir;
      if Consistent(View()) {
        StepExact(View(), Op.Rename(d, n, e, m, v, addErr));
        StepAchieves(View(), Op.Rename(d, n, e, m, v, addErr));
      }
      if target.Some? {
        var t := target.value;
        if isDir && v != Empty {
          return OK, v;
        }
        Replace(e, m, i, t, isDir);
      } else {
        err := Link(e, m, i, addErr);
        if err != OK {
          return;
        }
        if isDir {
          CountLink(e, 1);
        }
      }
      err := OK;
      FinishMove(d, at, n, i, dot, e);
    }

    /** What a rename reads before it writes: the pointers to the old record and to "..", and
        whether the directory in the way is empty. */
    method Look(d: nat, n: string, i: nat, e: nat, m: string, target: Option<nat>, addErr: int)
      returns (at: nat, dot: nat, v: Verdict)
      requires Valid() && Shaped(View()) && Allowed(View(), Op.Rename(d, n, e, m, Stuck, addErr))
      requires Lookup(View(), d, n) == Some(i) && Lookup(View(), e, m) == target
      ensures Valid() && Allowed(View(), Op.Rename(d, n, e, m, v, addErr))
      ensures i in nodes && i != 0 && e != 0 && d in nodes && e in nodes && d in dirs && e in dirs
      ensures Points(d, at, n, i) && (nodes[i].isDir ==> i in dirs && Points(i, dot, "..", d))
      ensures n != ".." && m != ".." && !IsDot(n) && !IsDot(m) && (target.Some? ==> target.value in nodes)
    {
      hide Valid, View, Points, Shaped, Based, Dotted, Aimed, Held, Under;
      NotZero(View(), i);
      NotZero(View(), e);
      at := FindPointer(d, n);
      dot := 0;
      if nodes[i].isDir {
        ChildLives(View(), d, n);
        dot := DotDotPointer(i);
        ParentOf(View(), d, n);
      }
      v := Empty;
      if target.Some? && nodes[i].isDir {
        ChildLives(View(), e, m);
        v := Probe(target.value);
      }
    }

    /** Turns the name m to inode i; the inode t it named loses its links. */
    method Replace(e: nat, m: string, i: nat, t: nat, isDir: bool)
      requires Valid() && e in dirs && m in View().dirs[e] && View().dirs[e][m] == t && t in nodes && i != 0
      modifies this`nodes, dirs[e]
      ensures Valid()
      ensures var bound := Bind(old(View()), e, m, i);
              View() == AddLinks(if isDir then AddLinks(bound, t, -1) else bound, t, -1)
      ensures forall x, o, k, j :: old(Points(x, o, k, j)) && !(x == e && k == m) ==> Points(x, o, k, j)
    {
      hide Valid, View, Points;
      var there := FindPointer(e, m);
      Retarget(e, there, m, i);
      if isDir {
        CountLink(t, -1);
      }
      CountLink(t, -1);
    }

    /** The old entry goes, ".." is turned when the directory changed, and the old parent
        loses a child. */
    method FinishMove(d: nat, at: nat, n: string, i: nat, dot: nat, e: nat)
      requires Valid() && d in nodes && i in nodes && e != 0 && !IsDot(n)
      requires d in dirs && Points(d, at, n, i) && (nodes[i].isDir ==> i in dirs && Points(i, dot, "..", d))
      modifies this`nodes, dirs.Values
      ensures Valid() && View() == FinishRename(old(View()), d, n, e, i)
    {
      hide Valid, View, Points;
      var isDir := nodes[i].isDir;
      var err := Drop(d, at, n);
      if isDir {
        if d != e {
          Retarget(i, dot, "..", e);
        }
        CountLink(d, -1);
      }
    }

    /** The pointer to the record of a name, if there is one. */
    method Seek(d: nat, n: string) returns (at: Option<nat>)
      requires Valid() && d in dirs
      ensures at.Some? <==> n in View().dirs[d]
      ensures at.Some? ==> Points(d, at.value, n, View().dirs[d][n])
    {
      hide View, WellFormed, Names;
      ViewAt(d);
      var r := dirs[d].FindEntry(n);
      at := if r.Hit? then Some(r.at) else None;
    }

    /** The pointer to the record of a name that is there. */
    method FindPointer(d: nat, n: string) returns (at: nat)
      requires Valid() && d in dirs && n in View().dirs[d]
      ensures Points(d, at, n, View().dirs[d][n])
    {
      hide View, WellFormed, Names;
      ViewAt(d);
      var r := dirs[d].FindEntry(n);
      at := r.at;
    }

    method DotDotPointer(i: nat) returns (dot: nat)
      requires Valid() && Dotted(View()) && LiveDir(View(), i)
      ensures Points(i, dot, "..", Parent(View(), i))
    {
      hide View, WellFormed, Names;
      ViewAt(i);
      DotsHere(i);
      dot := dirs[i].GetDotDot();
    }
  }

  lemma NotZero(fs: Fs, i: nat)
    requires Shaped(fs) && i in fs.nodes
    ensures i != 0
  {
  }

  lemma NotInDirs(fs: Fs, i: nat)
    requires Shaped(fs) && i !in fs.nodes
    ensures i !in fs.dirs
  {
  }

  lemma ParentOf(fs: Fs, d: nat, n: string)
    requires Shaped(fs) && LiveDir(fs, d) && !IsDot(n) && n in fs.dirs[d] && IsDir(fs, fs.dirs[d][n])
    ensures fs.dirs[d][n] in fs.dirs && ".." in fs.dirs[fs.dirs[d][n]] && Parent(fs, fs.dirs[d][n]) == d
  {
    hide Based, Dotted, Held;
    var i := fs.dirs[d][n];
    assert Entry(fs, d, n, i);
  }

  /** An entry for a directory names a live one. */
  lemma ChildLives(fs: Fs, d: nat, n: string)
    requires Shaped(fs) && LiveDir(fs, d) && !IsDot(n) && n in fs.dirs[d] && IsDir(fs, fs.dirs[d][n])
    ensures LiveDir(fs, fs.dirs[d][n]) && fs.dirs[d][n] in fs.dirs && Dotted(fs)
  {
    hide Based, Dotted, Held;
    var i := fs.dirs[d][n];
    assert Entry(fs, d, n, i);
  }

  lemma VerdictGood(fs: Fs, i: nat, v: Verdict)
    requires i in fs.dirs
    requires v == Empty ==> fs.dirs[i].Keys == {".", ".."}
    requires v == NotEmpty ==> fs.dirs[i].Keys != {".", ".."}
    ensures GoodVerdict(fs, i, v)
  {
  }
}
