/** The scans over a whole directory: the emptiness test and enumeration. */
module DirectoryScan {
  import opened Answers
  import opened DirectoryLog
  import opened DirectoryInsert
  import opened DirectoryDelete
  import opened DirectoryLaws

  // ----- the emptiness test

  /** The record is "." of the directory itself or "..". */
  predicate DotRecord(r: Dirent, self: nat) {
    1 <= |r.name| <= 2 && r.name[0] == '.' && (if |r.name| < 2 then r.ino == self else r.name[1] == '.')
  }

  function EmptyInPage(d: Dir, self: nat, o: nat, end: int): Verdict
    decreases end + 1 - o
  {
    if o > end then Empty
    else if !Live(d, o) then Stuck
    else if !DotRecord(At(d, o), self) then NotEmpty
    else if At(d, o).recLen == 0 then Stuck
    else EmptyInPage(d, self, Next(d, o), end)
  }

  function EmptyFrom(l: Layout, d: Dir, self: nat, page: nat): Verdict
    requires l.page > 0
    decreases NumPages(l, d.size) - page
  {
    if page >= NumPages(l, d.size) then Empty
    else
      var v := EmptyInPage(d, self, PageStart(l, page), PageEnd(l, d.size, page) - RecLen(1));
      if v == Empty then EmptyFrom(l, d, self, page + 1) else v
  }

  ghost predicate Dots(d: Dir, starts: set<nat>, self: nat, lo: nat, hi: nat) {
    forall x :: x in starts && lo <= x < hi ==> Live(d, x) && DotRecord(At(d, x), self)
  }

  ghost predicate FirstOdd(d: Dir, starts: set<nat>, self: nat, lo: nat, hi: nat, x: nat) {
    x in starts && lo <= x < hi && Dots(d, starts, self, lo, x) && !(Live(d, x) && DotRecord(At(d, x), self))
  }

  /** The verdict is decided by the first record that is dead or no dot entry. */
  ghost predicate Judges(d: Dir, starts: set<nat>, self: nat, lo: nat, hi: nat, v: Verdict) {
    match v
    case Empty => Dots(d, starts, self, lo, hi)
    case NotEmpty => exists x :: FirstOdd(d, starts, self, lo, hi, x) && Live(d, x)
    case Stuck => exists x :: FirstOdd(d, starts, self, lo, hi, x) && !Live(d, x)
  }

  lemma {:induction false} EmptyInPageJudges(l: Layout, d: Dir, starts: set<nat>, self: nat, o: nat, hi: nat)
    requires WellFormed(l, d, starts) && hi <= d.size && (hi == d.size || hi in starts)
    requires o == hi || (o in starts && o < hi)
    ensures Judges(d, starts, self, o, hi, EmptyInPage(d, self, o, hi - RecLen(1)))
    decreases hi - o
  {
    hide IsCut, Distinct, DotRecord;
    assert RecLen(1) == 12;
    if o < hi {
      GrowsBy(l, d, starts, o);
      assert Next(d, o) <= hi;
      if Live(d, o) && DotRecord(At(d, o), self) {
        EmptyInPageJudges(l, d, starts, self, Next(d, o), hi);
        forall x | x in starts && o < x ensures Next(d, o) <= x { }
        DotsBefore(d, starts, self, o, hi, EmptyInPage(d, self, Next(d, o), hi - 12));
      } else {
        assert FirstOdd(d, starts, self, o, hi, o);
      }
    }
  }

  lemma DotsBefore(d: Dir, starts: set<nat>, self: nat, o: nat, hi: nat, v: Verdict)
    requires Live(d, o) && DotRecord(At(d, o), self)
    requires forall x :: x in starts && o < x ==> Next(d, o) <= x
    requires o <= Next(d, o) && Judges(d, starts, self, Next(d, o), hi, v)
    ensures Judges(d, starts, self, o, hi, v)
  {
    if v != Empty {
      var x :| FirstOdd(d, starts, self, Next(d, o), hi, x) && (Live(d, x) <==> v == NotEmpty);
      assert FirstOdd(d, starts, self, o, hi, x);
    }
  }

  lemma JudgesJoin(d: Dir, starts: set<nat>, self: nat, lo: nat, mid: nat, mid': nat, hi: nat, a: Verdict, b: Verdict)
    requires lo <= mid <= hi && (mid == mid' || (mid == hi && hi <= mid'))
    requires Judges(d, starts, self, lo, mid, a) && Judges(d, starts, self, mid', hi, b)
    ensures Judges(d, starts, self, lo, hi, if a == Empty then b else a)
  {
    if a != Empty {
      var x :| FirstOdd(d, starts, self, lo, mid, x) && (Live(d, x) <==> a == NotEmpty);
      assert FirstOdd(d, starts, self, lo, hi, x);
    } else if b != Empty {
      var x :| FirstOdd(d, starts, self, mid', hi, x) && (Live(d, x) <==> b == NotEmpty);
      assert FirstOdd(d, starts, self, lo, hi, x);
    }
  }

  lemma {:induction false} EmptyFromJudges(l: Layout, d: Dir, starts: set<nat>, self: nat, page: nat)
    requires WellFormed(l, d, starts)
    ensures Judges(d, starts, self, PageStart(l, page), d.size, EmptyFrom(l, d, self, page))
    decreases NumPages(l, d.size) - page
  {
    hide IsCut, PageStart, Tiled, Distinct, Judges, NumPages, EmptyInPage, PageEnd;
    PageCount(l, d.size, page);
    if page < NumPages(l, d.size) {
      var hi := PageEnd(l, d.size, page);
      PageRange(l, d, starts, page);
      EmptyInPageJudges(l, d, starts, self, PageStart(l, page), hi);
      EmptyFromJudges(l, d, starts, self, page + 1);
      JudgesJoin(d, starts, self, PageStart(l, page), hi, PageStart(l, page + 1), d.size,
                 EmptyInPage(d, self, PageStart(l, page), hi - RecLen(1)), EmptyFrom(l, d, self, page + 1));
    } else {
      JudgesNothing(d, starts, self, PageStart(l, page), d.size);
    }
  }

  lemma JudgesNothing(d: Dir, starts: set<nat>, self: nat, lo: nat, hi: nat)
    requires hi <= lo
    ensures Judges(d, starts, self, lo, hi, Empty)
  {
  }

  ghost predicate NoDead(d: Dir, starts: set<nat>) {
    forall o :: o in starts ==> Live(d, o)
  }

  /** An answer of the emptiness test is right: "empty" only when "." and ".." are the only
      names, "not empty" only when there is another; and without dead records it always
      answers. */
  lemma EmptyExact(l: Layout, d: Dir, starts: set<nat>, self: nat, parent: nat)
    requires WellFormed(l, d, starts) && HasDots(d, starts, self, parent)
    ensures EmptyFrom(l, d, self, 0) == Empty ==> Names(d, starts).Keys == {".", ".."}
    ensures EmptyFrom(l, d, self, 0) == NotEmpty ==> Names(d, starts).Keys != {".", ".."}
    ensures EmptyFrom(l, d, self, 0) == Stuck ==> !NoDead(d, starts)
  {
    hide IsCut, PageStart, Tiled, EmptyFrom;
    PageCut(l, 0);
    EmptyFromJudges(l, d, starts, self, 0);
    var names := Names(d, starts);
    HoldsUnique(d, starts, ".");
    HoldsUnique(d, starts, "..");
    forall x | x in starts && Live(d, x)
      ensures x < d.size && At(d, x).name in names
      ensures DotRecord(At(d, x), self) <==> At(d, x).name in {".", ".."}
    {
      InsideWF(l, d, starts, x);
      DotNames(d, starts, self, parent, x);
    }
    forall x | x in starts ensures x < d.size { InsideWF(l, d, starts, x); }
    if EmptyFrom(l, d, self, 0) == Empty {
      forall n | n in names ensures n in {".", ".."} {
        var o :| o in starts && Live(d, o) && At(d, o).name == n;
      }
    }
  }

  lemma DotNames(d: Dir, starts: set<nat>, self: nat, parent: nat, x: nat)
    requires Distinct(d, starts) && HasDots(d, starts, self, parent) && x in starts && Live(d, x)
    ensures DotRecord(At(d, x), self) <==> At(d, x).name in {".", ".."}
  {
    var n := At(d, x).name;
    assert |n| == 1 && n[0] == '.' ==> n == ".";
    assert |n| == 2 && n[0] == '.' && n[1] == '.' ==> n == "..";
  }

  /** With a dead record before any name but the dots, the test never returns. */
  lemma StuckExact(l: Layout, d: Dir, starts: set<nat>, self: nat)
    requires WellFormed(l, d, starts)
    ensures EmptyFrom(l, d, self, 0) == Stuck <==> exists x :: FirstOdd(d, starts, self, 0, d.size, x) && !Live(d, x)
  {
    hide IsCut, PageStart, Tiled, EmptyFrom;
    PageCut(l, 0);
    EmptyFromJudges(l, d, starts, self, 0);
    forall x, y | FirstOdd(d, starts, self, 0, d.size, x) && FirstOdd(d, starts, self, 0, d.size, y)
      ensures x == y
    {
    }
  }

  /** A deletion leaves a dead record exactly when the entry starts a block: there is no
      record before it in its block to merge it into. */
  lemma AliveExact(l: Layout, d: Dir, starts: set<nat>, o: nat)
    requires WellFormed(l, d, starts) && NoDead(d, starts) && o in starts
    ensures NoDead(Delete(l, d, o).0, DeleteStarts(l, starts, o)) <==> !IsCut(l, o)
  {
    hide Tiled, Delete, IsCut;
    DeleteExact(l, d, starts, o);
  }

  /** In a directory of one block that is the first entry. */
  lemma OneBlockStaysAlive(l: Layout, d: Dir, starts: set<nat>, o: nat)
    requires WellFormed(l, d, starts) && NoDead(d, starts) && d.size == l.block && o in starts && o != 0
    ensures !IsCut(l, o) && NoDead(Delete(l, d, o).0, DeleteStarts(l, starts, o))
  {
    hide Tiled, Delete, IsCut, NoDead;
    AliveExact(l, d, starts, o);
    InsideWF(l, d, starts, o);
    CutZero(l);
    if IsCut(l, o) { CutGap(l, 0, o); }
  }

  /** Where only the dots stand before the entry that starts a block, the emptiness test
      never returns once that entry is deleted. */
  lemma HeadSticks(l: Layout, d: Dir, starts: set<nat>, self: nat, o: nat)
    requires WellFormed(l, d, starts) && o in starts && Live(d, o) && IsCut(l, o) && Dots(d, starts, self, 0, o)
    ensures EmptyFrom(l, Delete(l, d, o).0, self, 0) == Stuck
  {
    hide Tiled, IsCut, EmptyFrom, DotRecord;
    DeleteExact(l, d, starts, o);
    WalkExact(l, d, starts, o);
    var d' := Delete(l, d, o).0;
    DeadHead(d, d', o);
    InsideWF(l, d, starts, o);
    assert FirstOdd(d', starts, self, 0, d'.size, o);
    StuckExact(l, d', starts, self);
  }

  /** Inode 12, a directory of two blocks, with the dots in the first and "b" in the second. */
  function TwoBlocks(): Dir {
    Dir(2048, map[0 := Dirent(12, 12, "."), 12 := Dirent(2, 1012, ".."), 1024 := Dirent(13, 1024, "b")])
  }

  /** Once "b" is deleted the emptiness test of that directory never returns. */
  lemma StuckExample(l: Layout, d: Dir)
    requires l == Layout(1024, 4096) && d == TwoBlocks()
    ensures WellFormed(l, d, {0, 12, 1024}) && EmptyFrom(l, Delete(l, d, 1024).0, 12, 0) == Stuck
  {
    hide At, TwoBlocks, RecLen, EmptyFrom, Delete;
    TwoBlocksRecords(d);
    TwoBlocksTile(l, d);
    HeadSticks(l, d, {0, 12, 1024}, 12, 1024);
  }

  lemma TwoBlocksRecords(d: Dir)
    requires d == TwoBlocks()
    ensures d.size == 2048 && At(d, 0) == Dirent(12, 12, ".") && At(d, 12) == Dirent(2, 1012, "..")
    ensures At(d, 1024) == Dirent(13, 1024, "b")
  {
  }

  lemma TwoBlocksTile(l: Layout, d: Dir)
    requires l == Layout(1024, 4096) && d == TwoBlocks()
    ensures WellFormed(l, d, {0, 12, 1024}) && IsCut(l, 1024)
  {
    hide At, TwoBlocks, RecLen, IsCut, GoodLayout, Distinct;
    TwoBlocksRecords(d);
    TwoBlocksCuts(l);
    TwoBlocksDistinct(d);
    assert RecLen(1) == 12 && RecLen(2) == 12 by { DotLengths(); }
  }

  lemma TwoBlocksCuts(l: Layout)
    requires l == Layout(1024, 4096)
    ensures GoodLayout(l) && IsCut(l, 1024) && IsCut(l, 2048)
    ensures forall c: nat {:trigger IsCut(l, c)} :: c < 2048 && IsCut(l, c) ==> c == 0 || c == 1024
  {
  }

  lemma TwoBlocksDistinct(d: Dir)
    requires d == TwoBlocks()
    ensures Distinct(d, {0, 12, 1024})
  {
    hide At, TwoBlocks;
    TwoBlocksRecords(d);
  }

  /** Adding "b" to that directory once more is no error: it goes into the slack of "..", and
      then there are two live records of that name. */
  lemma TwiceExample(l: Layout, d: Dir)
    requires l == Layout(1024, 4096) && d == TwoBlocks()
    ensures WellFormed(l, d, {0, 12, 1024}) && Holds(d, {0, 12, 1024}, "b", 1024)
    ensures var (d', err) := Insert(l, d, "b", 14, OK);
            && err == OK && At(d', 24) == Dirent(14, 1000, "b") && At(d', 1024) == Dirent(13, 1024, "b")
  {
    hide At, TwoBlocks, RecLen, WellFormed, StopFrom, Place;
    TwoBlocksRecords(d);
    TwoBlocksTile(l, d);
    TwoBlocksStop(l, d);
    TwoBlocksPlace(d, Reach(d.size, Next(d, 12)));
  }

  lemma TwoBlocksStop(l: Layout, d: Dir)
    requires l == Layout(1024, 4096) && d == TwoBlocks()
    ensures StopFrom(l, d, "b", 0) == Use(12)
  {
    hide At, TwoBlocks, RecLen, PageEnd, PageStart, NumPages, StopInPage;
    TwoBlocksRecords(d);
    PagesOne(l);
    TwoBlocksWalk(d);
    assert RecLen(1) == 12 by { DotLengths(); }
  }

  lemma TwoBlocksWalk(d: Dir)
    requires d == TwoBlocks()
    ensures StopInPage(d, "b", 0, 4084, 2048) == Use(12)
  {
    hide At, TwoBlocks, RecLen;
    TwoBlocksRecords(d);
    DotLengths();
    assert StopInPage(d, "b", 12, 4084, 2048) == Use(12);
  }

  lemma PagesOne(l: Layout)
    requires l == Layout(1024, 4096)
    ensures PageStart(l, 0) == 0 && PageEnd(l, 2048, 0) == 2048
  {
    hide PageStart, PageBytes;
    PageZero(l);
    PageOne(l);
  }

  lemma PageZero(l: Layout)
    ensures PageStart(l, 0) == 0
  {
  }

  lemma PageOne(l: Layout)
    requires l == Layout(1024, 4096)
    ensures PageBytes(l, 2048, 0) == 2048
  {
    hide PageStart;
    PageZero(l);
  }

  lemma TwoBlocksPlace(d: Dir, size: nat)
    requires d == TwoBlocks()
    ensures var d' := Dir(size, Place(d, 12, "b", 14));
            At(d', 24) == Dirent(14, 1000, "b") && At(d', 1024) == Dirent(13, 1024, "b")
  {
    hide RecLen;
    DotLengths();
  }

  /** An insertion leaves no dead record either. */
  lemma InsertStaysAlive(l: Layout, d: Dir, starts: set<nat>, name: string, ino: nat)
    requires WellFormed(l, d, starts) && NoDead(d, starts)
    requires GoodName(name) && name !in Names(d, starts) && ino != 0
    ensures NoDead(Insert(l, d, name, ino, OK).0, InsertStarts(l, d, starts, name))
  {
    hide WellFormed, StopFrom, RecLen, Names;
    GoodDir(l, d, starts);
    StopFits(l, d, starts, name);
    InsertExact(l, d, starts, name, ino, OK);
  }
}
