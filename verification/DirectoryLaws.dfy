/** Operations in sequence: renaming while holding a record pointer, room after a deletion,
    new directories, and the entries "." and "..". */
module DirectoryLaws {
  import opened Answers
  import opened Bits
  import opened DirectoryNames
  import opened DirectoryLog
  import opened DirectoryInsert
  import opened DirectoryDelete

  /** Rename inside one directory to a new name: the pointer to the old record, taken
      before the insertion, still points at it, even when the insertion split that very
      record; deleting through it leaves the old table without the old name and with the
      new one. */
  lemma RenameToNew(l: Layout, d: Dir, starts: set<nat>, from: nat, name: string)
    requires WellFormed(l, d, starts) && from in starts && Live(d, from)
    requires GoodName(name) && name !in Names(d, starts)
    ensures var ino := At(d, from).ino;
            var d1 := Insert(l, d, name, ino, OK).0;
            var starts1 := InsertStarts(l, d, starts, name);
            var (d2, err) := Delete(l, d1, from);
            var starts2 := DeleteStarts(l, starts1, from);
            && from in starts1 && At(d1, from).ino == ino && At(d1, from).name == At(d, from).name
            && err == OK && WellFormed(l, d2, starts2)
            && Names(d2, starts2) == (Names(d, starts) - {At(d, from).name})[name := ino]
  {
    hide WellFormed, Insert, InsertStarts, Delete, DeleteStarts, Names, At;
    TiledOf(l, d, starts);
    var ino := At(d, from).ino;
    InsertExact(l, d, starts, name, ino, OK);
    var d1, starts1 := Insert(l, d, name, ino, OK).0, InsertStarts(l, d, starts, name);
    DeleteExact(l, d1, starts1, from);
    var n := Names(d, starts);
    assert At(d, from).name in n;
    assert n[name := ino] - {At(d, from).name} == (n - {At(d, from).name})[name := ino];
  }

  /** Rename inside one directory onto an existing name. */
  lemma RenameOnto(l: Layout, d: Dir, starts: set<nat>, from: nat, onto: nat)
    requires WellFormed(l, d, starts) && from in starts && Live(d, from)
    requires onto in starts && Live(d, onto) && from != onto
    ensures var ino := At(d, from).ino;
            var d1 := SetLink(d, onto, ino);
            var (d2, err) := Delete(l, d1, from);
            var starts2 := DeleteStarts(l, starts, from);
            && At(d1, from) == At(d, from) && err == OK && WellFormed(l, d2, starts2)
            && Names(d2, starts2) == (Names(d, starts) - {At(d, from).name})[At(d, onto).name := ino]
  {
    hide WellFormed, SetLink, Delete, DeleteStarts, Names, At;
    TiledOf(l, d, starts);
    var ino := At(d, from).ino;
    SetLinkExact(l, d, starts, onto, ino);
    DeleteExact(l, SetLink(d, onto, ino), starts, from);
    var n := Names(d, starts);
    assert At(d, from).name != At(d, onto).name;
    assert n[At(d, onto).name := ino] - {At(d, from).name} == (n - {At(d, from).name})[At(d, onto).name := ino];
  }

  lemma RecLenMono(a: nat, b: nat)
    requires a <= b
    ensures RecLen(a) <= RecLen(b)
  {
  }

  /** Right after a deletion a name no longer than the deleted one goes in without growth. */
  lemma NoGrowthAfterDelete(l: Layout, d: Dir, starts: set<nat>, o: nat, name: string, ino: nat)
    requires WellFormed(l, d, starts) && o in starts && Live(d, o)
    requires GoodName(name) && |name| <= |At(d, o).name| && ino != 0
    requires name !in Names(d, starts) || name == At(d, o).name
    ensures var d' := Delete(l, d, o).0;
            var (d'', err) := Insert(l, d', name, ino, OK);
            err == OK && d''.size == d.size
  {
    hide IsCut, Tiled, Distinct, Names, RecLen, Walk, BlockStart, Insert, StopFrom, InsertStarts;
    var d' := Delete(l, d, o).0;
    DeleteExact(l, d, starts, o);
    InsertExact(l, d', DeleteStarts(l, starts, o), name, ino, OK);
    WalkExact(l, d, starts, o);
    GrowsBy(l, d, starts, o);
    RecLenMono(|name|, |At(d, o).name|);
    match Walk(d, BlockStart(l, o), o, Leading)
    case Leading =>
      assert HasRoom(At(d', o), RecLen(|name|));
    case Before(p) =>
      MergedLength(l, d, starts, p, o);
      assert HasRoom(At(d', p), RecLen(|name|));
  }

  // ----- new directories

  /** A block of zeros with the two first records. `prepErr` as for an insertion. */
  function MakeEmpty(l: Layout, d: Dir, self: nat, parent: nat, prepErr: int): (Dir, int) {
    if prepErr != OK then (d, prepErr)
    else
      var cleared := map o | o in d.area && o >= l.block :: d.area[o];
      var dot := RecLen(1);
      (Dir(Reach(d.size, l.block),
           cleared[0 := Dirent(self, dot, ".")][dot := Dirent(parent, U16(l.block - dot), "..")]),
       OK)
  }

  /** The first record is ".", naming the directory itself, the second "..". */
  ghost predicate HasDots(d: Dir, starts: set<nat>, self: nat, parent: nat) {
    Holds(d, starts, ".", 0) && At(d, 0).ino == self && Holds(d, starts, "..", 12) && At(d, 12).ino == parent
  }

  /** A new directory binds exactly its two first names. */
  lemma MakeEmptyExact(l: Layout, d: Dir, self: nat, parent: nat)
    requires GoodLayout(l) && d.size == 0 && self != 0 && parent != 0
    ensures var (d', err) := MakeEmpty(l, d, self, parent, OK);
            && err == OK && d'.size == l.block && WellFormed(l, d', {0, 12})
            && Names(d', {0, 12}) == NewDots(self, parent)
            && HasDots(d', {0, 12}, self, parent)
  {
    hide IsCut, RecLen, At, MakeEmpty, GoodRecord, U16;
    var d' := MakeEmpty(l, d, self, parent, OK).0;
    TwoRecords(l, d, self, parent);
    TwoTile(l, d');
    var m := NewDots(self, parent);
    assert Holds(d', {0, 12}, ".", 0) && Holds(d', {0, 12}, "..", 12);
    NamesEqual(d', {0, 12}, m);
  }

  /** The first block of a new directory holds nothing but its two records, and no later block
      changes; a block that cannot be prepared changes nothing and the error is passed on. */
  lemma MakeEmptyWhole(l: Layout, d: Dir, self: nat, parent: nat, prepErr: int)
    requires GoodLayout(l)
    ensures var (d', err) := MakeEmpty(l, d, self, parent, prepErr);
            && err == prepErr
            && (prepErr != OK ==> d' == d)
            && (prepErr == OK ==>
                  && d'.size == (if d.size < l.block then l.block else d.size)
                  && At(d', 0) == Dirent(self, 12, ".") && At(d', 12) == Dirent(parent, l.block - 12, "..")
                  && (forall o: nat :: o < l.block && o != 0 && o != 12 ==> At(d', o) == Dirent(0, 0, ""))
                  && (forall o: nat :: o >= l.block ==> At(d', o) == At(d, o)))
  {
    U16Fits(l.block - 12);
    hide U16;
  }

  lemma TwoRecords(l: Layout, d: Dir, self: nat, parent: nat)
    requires GoodLayout(l) && d.size == 0 && self != 0 && parent != 0
    ensures var (d', err) := MakeEmpty(l, d, self, parent, OK);
            && err == OK && d'.size == l.block
            && At(d', 0) == Dirent(self, 12, ".") && At(d', 12) == Dirent(parent, l.block - 12, "..")
            && GoodRecord(At(d', 0)) && GoodRecord(At(d', 12))
  {
    U16Fits(l.block - 12);
    hide U16;
  }

  lemma TwoTile(l: Layout, d: Dir)
    requires GoodLayout(l) && d.size == l.block && Next(d, 0) == 12 && Next(d, 12) == l.block
    requires GoodRecord(At(d, 0)) && GoodRecord(At(d, 12))
    ensures Tiled(l, d, {0, 12})
  {
    hide IsCut, RecLen, At, GoodRecord;
    CutZero(l);
    CutNext(l, 0);
    forall c: nat | c < d.size && IsCut(l, c) ensures c == 0 {
      if 0 < c { CutGap(l, 0, c); }
    }
  }

  /** The record behind the first one, wherever the first one ends. */
  function DotDot(d: Dir): nat {
    At(d, 0).recLen
  }

  /** That record is the one of "..". */
  lemma DotDotExact(l: Layout, d: Dir, starts: set<nat>, self: nat, parent: nat)
    requires WellFormed(l, d, starts) && HasDots(d, starts, self, parent)
    ensures DotDot(d) == 12 && Holds(d, starts, "..", DotDot(d))
    ensures Names(d, starts)["."] == self && Names(d, starts)[".."] == parent
  {
    assert Next(d, 0) <= 12;
  }
}
