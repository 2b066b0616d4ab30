/** From which positions an enumeration goes on rightly. */
module DirectoryResume {
  import opened Bits
  import opened DirectoryLog
  import opened DirectoryInsert
  import opened DirectoryDelete
  import opened DirectoryRead

  /** No header, not even one that a deletion has left behind, reaches past its block. */
  ghost predicate Boxed(l: Layout, d: Dir) {
    forall o: nat, hi: nat {:trigger At(d, o), IsCut(l, hi)} ::
      At(d, o).recLen != 0 && o < hi && IsCut(l, hi) ==> Next(d, o) <= hi
  }

  /** A scan moves the position no further than the bytes it has before it. */
  lemma {:induction false} PageStays(l: Layout, d: Dir, o: nat, hi: nat, c: Cursor)
    requires Boxed(l, d) && IsCut(l, hi)
    ensures var r := EmitInPage(d, o, hi - MIN_REC, c);
            r.ok ==> r.pos <= c.pos + if o < hi then hi - o else 0
    decreases hi - o
  {
    hide IsCut;
    if o <= hi - MIN_REC && At(d, o).recLen != 0 {
      assert Next(d, o) <= hi;
      PageStays(l, d, Next(d, o), hi, c.(pos := c.pos + At(d, o).recLen));
      if c.budget > 0 {
        PageStays(l, d, Next(d, o), hi, Cursor(c.out + [EntryAt(d, o)], c.pos + At(d, o).recLen, c.budget - 1, c.ok));
      }
    }
  }

  /** Pages read from an offset other than 0 leave the position short of the end. */
  lemma {:induction false} PagesStay(l: Layout, d: Dir, starts: set<nat>, page: nat, offset: nat, c: Cursor)
    requires WellFormed(l, d, starts) && Boxed(l, d)
    ensures var r, left := EmitFrom(l, d, page, offset, c), d.size - PageStart(l, page);
            r.ok ==> && r.pos <= c.pos + (if left > 0 then left else 0)
                     && (left > 0 && offset > 0 ==> r.pos < c.pos + left)
    decreases NumPages(l, d.size) - page
  {
    hide IsCut, Tiled, Distinct, NumPages, PageEnd, PageStart, EmitInPage, Boxed;
    PageCount(l, d.size, page);
    if page < NumPages(l, d.size) && c.ok {
      var hi := PageEnd(l, d.size, page);
      PageRange(l, d, starts, page);
      PageEndCut(l, d, starts, page);
      PageStays(l, d, PageStart(l, page) + offset, hi, c);
      PagesStay(l, d, starts, page + 1, offset, EmitInPage(d, PageStart(l, page) + offset, hi - MIN_REC, c));
    }
  }

  lemma PageEndCut(l: Layout, d: Dir, starts: set<nat>, page: nat)
    requires WellFormed(l, d, starts) && PageStart(l, page) < d.size
    ensures IsCut(l, PageEnd(l, d.size, page))
  {
    hide IsCut, PageStart, PageEnd, Distinct;
    PageRange(l, d, starts, page);
    PageCut(l, page + 1);
  }

  /** The read gives all the remaining entries and ends at the end of the directory. */
  ghost predicate Rest(l: Layout, d: Dir, pos: nat, budget: nat)
    requires l.page > 0
  {
    var c := ReadDir(l, d, pos, budget);
    c.ok && c.pos == d.size && c.out == Entries(d, LiveFrom(d, pos, d.size))
  }

  /** A read from a record on that starts a page or lies in the last one gives all the
      remaining entries and ends at the end of the directory. */
  lemma ResumeRight(l: Layout, d: Dir, starts: set<nat>, pos: nat, budget: nat)
    requires WellFormed(l, d, starts) && pos in starts && |LiveFrom(d, pos, d.size)| <= budget
    requires Lo(pos, l.page) == 0 || d.size <= PageStart(l, Hi(pos, l.page) + 1)
    ensures Rest(l, d, pos, budget)
  {
    hide IsCut, Tiled, Distinct, NumPages, PageEnd, PageStart, EmitInPage, LiveFrom, Hi, Lo;
    var page := Hi(pos, l.page);
    var c := Cursor([], pos, budget, true);
    GrowsBy(l, d, starts, pos);
    PositionInPage(l, pos);
    InsideWF(l, d, starts, pos);
    PageCount(l, d.size, page);
    PageRange(l, d, starts, page);
    assert [] + Entries(d, LiveFrom(d, pos, d.size)) == Entries(d, LiveFrom(d, pos, d.size));
    if Lo(pos, l.page) == 0 {
      EmitPages(l, d, starts, page, c);
    } else {
      EmitPage(l, d, starts, pos, PageEnd(l, d.size, page), c);
      PageCount(l, d.size, page + 1);
      var c' := EmitInPage(d, pos, PageEnd(l, d.size, page) - MIN_REC, c);
      assert ReadDir(l, d, pos, budget) == EmitFrom(l, d, page + 1, Lo(pos, l.page), c');
    }
  }

  /** Whether it does: exactly when the record starts a page or lies in the last one. */
  lemma ResumeExact(l: Layout, d: Dir, starts: set<nat>, pos: nat, budget: nat)
    requires WellFormed(l, d, starts) && Boxed(l, d) && pos in starts
    requires |LiveFrom(d, pos, d.size)| <= budget
    ensures Rest(l, d, pos, budget) <==> Lo(pos, l.page) == 0 || d.size <= PageStart(l, Hi(pos, l.page) + 1)
  {
    hide IsCut, Tiled, Distinct, NumPages, PageEnd, PageStart, EmitInPage, LiveFrom, Hi, Lo, Boxed;
    var page, offset := Hi(pos, l.page), Lo(pos, l.page);
    if offset == 0 || d.size <= PageStart(l, page + 1) {
      ResumeRight(l, d, starts, pos, budget);
    } else {
      var c := Cursor([], pos, budget, true);
      GrowsBy(l, d, starts, pos);
      PositionInPage(l, pos);
      InsideWF(l, d, starts, pos);
      PageCount(l, d.size, page);
      PageRange(l, d, starts, page);
      PageEndCut(l, d, starts, page);
      var hi := PageEnd(l, d.size, page);
      PageStays(l, d, pos, hi, c);
      PagesStay(l, d, starts, page + 1, offset, EmitInPage(d, pos, hi - MIN_REC, c));
    }
  }

  lemma PositionInPage(l: Layout, pos: nat)
    requires l.page > 0
    ensures PageStart(l, Hi(pos, l.page)) + Lo(pos, l.page) == pos
    ensures PageStart(l, Hi(pos, l.page)) <= pos < PageStart(l, Hi(pos, l.page) + 1)
  {
    var p := l.page;
    assert pos == pos / p * p + pos % p;
    assert (pos / p + 1) * p == pos / p * p + p;
  }
}
