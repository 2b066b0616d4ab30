/** A directory object: its size and its record headers, overwritten in place. A pointer to
    a record is the byte offset at which the record starts. */
module Directory {
  import opened Answers
  import opened Bits
  import opened DirectoryNames
  import opened DirectoryLog
  import opened DirectoryInsert
  import opened DirectoryDelete
  import opened DirectoryLaws
  import opened DirectoryScan
  import opened DirectoryRead

  class Directory {
    const layout: Layout
    var size: nat
    var area: map<nat, Dirent>
    ghost var starts: set<nat>  // where the records start

    function Now(): Dir
      reads this
    {
      Dir(size, area)
    }

    ghost predicate Valid()
      reads this
    {
      WellFormed(layout, Now(), starts)
    }

    /** The live names and the inodes they name. */
    ghost function Table(): map<string, nat>
      requires Valid()
      reads this
    {
      Names(Now(), starts)
    }

    constructor (layout: Layout)
      requires GoodLayout(layout)
      ensures this.layout == layout && Now() == Dir(0, map[]) && Valid() && Table() == map[]
    {
      this.layout, this.size, this.area, this.starts := layout, 0, map[], {};
      new;
      CutZero(layout);
    }

    method FindEntry(name: string) returns (r: Scan)
      requires layout.page > 0
      ensures r == Find(layout, Now(), name)
      ensures Valid() && r.Hit? ==>
                name in Table() && Holds(Now(), starts, name, r.at) && Table()[name] == At(Now(), r.at).ino
      ensures Valid() && !r.Hit? ==> name !in Table()
    {
      hide FindInPage, FindFrom, WellFormed, Names, NumPages, PageEnd, PageStart, RecLen, Holds;
      if Valid() { FindExact(layout, Now(), starts, name); }
      var page := 0;
      while page < NumPages(layout, size)
        invariant Find(layout, Now(), name) == FindFrom(layout, Now(), name, page)
      {
        FindFromStep(layout, Now(), name, page);
        var end := PageEnd(layout, size, page) - RecLen(|name|);
        var o := PageStart(layout, page);
        r := ScanPage(name, o, end);
        if r != Miss {
          return;
        }
        page := page + 1;
      }
      FindFromStep(layout, Now(), name, page);
      r := Miss;
    }

    /** The records of one page, up to the last that could hold the name. */
    method ScanPage(name: string, start: nat, end: int) returns (r: Scan)
      ensures r == FindInPage(Now(), name, start, end)
    {
      var o := start;
      while o <= end
        invariant FindInPage(Now(), name, start, end) == FindInPage(Now(), name, o, end)
        decreases end + 1 - o
      {
        if At(Now(), o).recLen == 0 {
          return Corrupt;
        }
        if Matches(Now(), o, name) {
          return Hit(o);
        }
        o := o + At(Now(), o).recLen;
      }
      r := Miss;
    }

    /** The first place for a name, page by page; also one page past the last. */
    method FindPlace(name: string) returns (r: Stop)
      requires layout.page > 0
      ensures r == StopFrom(layout, Now(), name, 0)
    {
      hide StopInPage, StopFrom, NumPages, PageEnd, PageStart, RecLen;
      var page := 0;
      while page <= NumPages(layout, size)
        invariant StopFrom(layout, Now(), name, 0) == StopFrom(layout, Now(), name, page)
        decreases NumPages(layout, size) + 1 - page
      {
        StopFromStep(layout, Now(), name, page);
        var start := PageStart(layout, page);
        r := PlaceInPage(name, start, start + layout.page - RecLen(|name|), PageEnd(layout, size, page));
        if r != Past {
          return;
        }
        page := page + 1;
      }
      StopFromStep(layout, Now(), name, page);
      r := Past;
    }

    method PlaceInPage(name: string, start: nat, end: int, dirEnd: nat) returns (r: Stop)
      ensures r == StopInPage(Now(), name, start, end, dirEnd)
    {
      var need := RecLen(|name|);
      var o := start;
      while o <= end
        invariant StopInPage(Now(), name, start, end, dirEnd) == StopInPage(Now(), name, o, end, dirEnd)
        decreases end + 1 - o
      {
        if o == dirEnd {
          return Grow(o);
        }
        var dent := At(Now(), o);
        if dent.recLen == 0 {
          return Broken;
        }
        if Matches(Now(), o, name) {
          return Exists(o);
        }
        if dent.ino == 0 && need <= dent.recLen {
          return Use(o);
        }
        if RecLen(|dent.name|) + need <= dent.recLen {
          return Use(o);
        }
        o := o + dent.recLen;
      }
      r := Past;
    }

    /** Links an inode under a name. On success exactly the one binding is added, and no
        live record has moved. */
    method AddLink(name: string, ino: nat, prepErr: int) returns (err: int)
      requires layout.page > 0
      modifies this
      ensures (Now(), err) == Insert(layout, old(Now()), name, ino, prepErr)
      ensures old(Valid()) && GoodName(name) && name !in old(Table()) && ino != 0 ==>
                && Valid() && err == prepErr
                && Table() == (if err == OK then old(Table())[name := ino] else old(Table()))
                && KeepsLive(old(Now()), old(starts), Now(), starts)
    {
      hide StopFrom, WellFormed, Names, RecLen, KeepsLive, Inserted;
      ghost var before, starts0 := Now(), starts;
      if Valid() && GoodName(name) && name !in Table() && ino != 0 {
        InsertExact(layout, before, starts0, name, ino, prepErr);
        InsertedMeans(layout, before, starts0, name, ino);
      }
      var place := FindPlace(name);
      if place.Past? {
        return EINVAL;
      }
      if place.Broken? {
        return EIO;
      }
      if place.Exists? {
        return EEXIST;
      }
      var at, recLen := place.at, At(Now(), place.at).recLen;
      if place.Grow? {
        recLen := layout.block;
        area := area[at := Dirent(0, recLen, At(Now(), at).name)];
      }
      if prepErr != OK {
        return prepErr;
      }
      var dent := At(Now(), at);
      if dent.ino != 0 {
        var used := RecLen(|dent.name|);
        area := area[at + used := Dirent(ino, U16(recLen - used as int), name)];
        area := area[at := dent.(recLen := used)];
      } else {
        area := area[at := Dirent(ino, dent.recLen, name)];
      }
      if size < at + recLen {
        size := at + recLen;
      }
      assert size == Reach(before.size, at + recLen);
      starts := InsertStarts(layout, before, starts0, name);
      err := OK;
    }

    /** Deletes the record a pointer points at, by merging it into the one before it in its
        block, or by clearing its inode number where it starts the block. */
    method DeleteEntry(o: nat) returns (err: int)
      requires layout.block > 0
      modifies this
      ensures (Now(), err) == Delete(layout, old(Now()), o)
      ensures old(Valid()) && o in old(starts) && old(Live(Now(), o)) ==>
                && Valid() && err == OK && Table() == old(Table()) - {old(At(Now(), o)).name}
                && KeepsOthers(old(Now()), old(starts), o, Now(), starts)
    {
      hide Walk, WellFormed, Names, KeepsOthers, IsCut;
      ghost var before, starts0 := Now(), starts;
      if Valid() && o in starts && Live(Now(), o) {
        DeleteExact(layout, before, starts0, o);
      }
      var from := BlockStart(layout, o);
      var to := o + At(Now(), o).recLen;
      var pde: Prev := Leading;
      var dent := from;
      while dent < o
        invariant Now() == before && starts == starts0 && pde != Bad
        invariant Walk(before, from, o, Leading) == Walk(before, dent, o, pde)
        decreases o - dent
      {
        WalkStep(before, dent, o, pde);
        if At(Now(), dent).recLen == 0 {
          return EIO;
        }
        pde := Before(dent);
        dent := dent + At(Now(), dent).recLen;
      }
      WalkStep(before, dent, o, pde);
      if pde.Before? {
        area := area[pde.at := At(Now(), pde.at).(recLen := U16(to - pde.at as int))];
      }
      area := area[o := At(Now(), o).(ino := 0)];
      starts := DeleteStarts(layout, starts0, o);
      err := OK;
    }

    /** Makes the record a pointer points at name another inode. */
    method Relink(o: nat, ino: nat)
      modifies this
      ensures Now() == SetLink(old(Now()), o, ino) && starts == old(starts)
      ensures old(Valid()) && o in starts && old(Live(Now(), o)) && ino != 0 ==>
                && Valid() && Table() == old(Table())[old(At(Now(), o)).name := ino]
                && (forall x :: x in starts ==> At(Now(), x).name == old(At(Now(), x)).name
                                                && (Live(Now(), x) <==> old(Live(Now(), x))))
                && (forall x :: x != o ==> At(Now(), x) == old(At(Now(), x)))
    {
      hide WellFormed, Names;
      if Valid() && o in starts && Live(Now(), o) && ino != 0 {
        SetLinkExact(layout, Now(), starts, o, ino);
      }
      area := area[o := At(Now(), o).(ino := ino)];
    }

    /** Writes the two first records of a new directory. */
    method InitEmpty(self: nat, parent: nat, prepErr: int) returns (err: int)
      requires GoodLayout(layout)
      modifies this
      ensures (Now(), err) == MakeEmpty(layout, old(Now()), self, parent, prepErr)
      ensures err == prepErr && (err != OK ==> Now() == old(Now()) && starts == old(starts))
      ensures old(size) == 0 && self != 0 && parent != 0 && prepErr == OK ==>
                && err == OK && Valid() && Table() == NewDots(self, parent)
                && HasDots(Now(), starts, self, parent)
    {
      hide WellFormed, Names, HasDots, RecLen;
      if size == 0 && self != 0 && parent != 0 && prepErr == OK {
        MakeEmptyExact(layout, Now(), self, parent);
      }
      if prepErr != OK {
        return prepErr;
      }
      area := map o | o in area && o >= layout.block :: area[o];
      var dot := RecLen(1);
      area := area[0 := Dirent(self, dot, ".")];
      area := area[dot := Dirent(parent, U16(layout.block - dot as int), "..")];
      size := Reach(size, layout.block);
      starts := {0, 12};
      err := OK;
    }

    /** Sets the size to 0, as the removal of the directory does. */
    method Truncate()
      requires GoodLayout(layout)
      modifies this
      ensures Now() == old(Now()).(size := 0) && Valid() && Table() == map[]
    {
      size, starts := 0, {};
      CutZero(layout);
    }

    /** The pointer to the second record, which is "..". */
    method GetDotDot() returns (o: nat)
      ensures o == DotDot(Now())
      ensures forall self, parent :: Valid() && HasDots(Now(), starts, self, parent) ==>
                o == 12 && Holds(Now(), starts, "..", o) && Table()["."] == self && Table()[".."] == parent
    {
      forall self, parent | Valid() && HasDots(Now(), starts, self, parent)
        ensures DotDot(Now()) == 12 && Holds(Now(), starts, "..", DotDot(Now()))
        ensures Table()["."] == self && Table()[".."] == parent
      {
        DotDotExact(layout, Now(), starts, self, parent);
      }
      o := At(Now(), 0).recLen;
    }

    /** Whether only "." and ".." are left. The source's loop re-reads a dead record for
        ever; the model notices that it stands still. */
    method IsEmpty(self: nat) returns (v: Verdict)
      requires layout.page > 0
      ensures v == EmptyFrom(layout, Now(), self, 0)
      ensures forall parent :: Valid() && HasDots(Now(), starts, self, parent) ==>
                && (v == Empty ==> Table().Keys == {".", ".."})
                && (v == NotEmpty ==> Table().Keys != {".", ".."})
                && (v == Stuck ==> !NoDead(Now(), starts))
    {
      hide EmptyInPage, EmptyFrom, WellFormed, Names, HasDots, NumPages, PageStart, PageEnd, RecLen, NoDead;
      forall parent | Valid() && HasDots(Now(), starts, self, parent)
        ensures EmptyFrom(layout, Now(), self, 0) == Empty ==> Table().Keys == {".", ".."}
        ensures EmptyFrom(layout, Now(), self, 0) == NotEmpty ==> Table().Keys != {".", ".."}
        ensures EmptyFrom(layout, Now(), self, 0) == Stuck ==> !NoDead(Now(), starts)
      {
        EmptyExact(layout, Now(), starts, self, parent);
      }
      var page := 0;
      while page < NumPages(layout, size)
        invariant EmptyFrom(layout, Now(), self, 0) == EmptyFrom(layout, Now(), self, page)
      {
        EmptyFromStep(layout, Now(), self, page);
        v := EmptyPage(self, PageStart(layout, page), PageEnd(layout, size, page) - RecLen(1));
        if v != Empty {
          return;
        }
        page := page + 1;
      }
      EmptyFromStep(layout, Now(), self, page);
      v := Empty;
    }

    method EmptyPage(self: nat, start: nat, end: int) returns (v: Verdict)
      ensures v == EmptyInPage(Now(), self, start, end)
    {
      var o := start;
      while o <= end
        invariant EmptyInPage(Now(), self, start, end) == EmptyInPage(Now(), self, o, end)
        decreases end + 1 - o
      {
        var dent, was := At(Now(), o), o;
        if dent.ino != 0 {
          if !DotRecord(dent, self) {
            return NotEmpty;
          }
          o := o + dent.recLen;
        }
        if o == was {
          return Stuck;
        }
      }
      v := Empty;
    }

    /** Emits entries from position pos on to an emitter that accepts `budget` of them. */
    method ReadEntries(pos: nat, budget: nat) returns (c: Cursor)
      requires layout.page > 0
      ensures c == ReadDir(layout, Now(), pos, budget)
    {
      hide EmitInPage, EmitFrom, NumPages, PageStart, PageEnd, Hi, Lo;
      c := Cursor([], pos, budget, true);
      if size - MIN_REC < pos {
        return;
      }
      var offset := Lo(pos, layout.page);
      var page := Hi(pos, layout.page);
      while page < NumPages(layout, size)
        invariant c.ok && ReadDir(layout, Now(), pos, budget) == EmitFrom(layout, Now(), page, offset, c)
      {
        EmitFromStep(layout, Now(), page, offset, c);
        c := EmitPage(PageStart(layout, page) + offset, PageEnd(layout, size, page) - MIN_REC, c);
        page := page + 1;
        EmitFromStep(layout, Now(), page, offset, c);
        if !c.ok {
          return;
        }
      }
      EmitFromStep(layout, Now(), page, offset, c);
    }

    method EmitPage(start: nat, end: int, c0: Cursor) returns (c: Cursor)
      ensures c == EmitInPage(Now(), start, end, c0)
    {
      var o := start;
      c := c0;
      while o <= end
        invariant EmitInPage(Now(), start, end, c0) == EmitInPage(Now(), o, end, c)
        decreases end + 1 - o
      {
        var dent := At(Now(), o);
        if dent.recLen == 0 {
          return c.(ok := false);
        }
        if dent.ino != 0 {
          if c.budget == 0 {
            return;
          }
          c := c.(out := c.out + [(dent.name, dent.ino)], budget := c.budget - 1);
        }
        c := c.(pos := c.pos + dent.recLen);
        o := o + dent.recLen;
      }
    }
  }

  lemma WalkStep(d: Dir, x: nat, o: nat, prev: Prev)
    ensures Walk(d, x, o, prev) ==
              if x >= o then prev else if At(d, x).recLen == 0 then Bad else Walk(d, Next(d, x), o, Before(x))
  {
  }

  lemma EmptyFromStep(l: Layout, d: Dir, self: nat, page: nat)
    requires l.page > 0
    ensures EmptyFrom(l, d, self, page) ==
              if page >= NumPages(l, d.size) then Empty
              else
                var v := EmptyInPage(d, self, PageStart(l, page), PageEnd(l, d.size, page) - RecLen(1));
                if v == Empty then EmptyFrom(l, d, self, page + 1) else v
  {
  }

  lemma EmitFromStep(l: Layout, d: Dir, page: nat, offset: nat, c: Cursor)
    requires l.page > 0
    ensures EmitFrom(l, d, page, offset, c) ==
              if page >= NumPages(l, d.size) || !c.ok then c
              else EmitFrom(l, d, page + 1, offset,
                            EmitInPage(d, PageStart(l, page) + offset, PageEnd(l, d.size, page) - MIN_REC, c))
  {
  }

  lemma FindFromStep(l: Layout, d: Dir, name: string, page: nat)
    requires l.page > 0
    ensures FindFrom(l, d, name, page) ==
              if page >= NumPages(l, d.size) then Miss
              else
                var r := FindInPage(d, name, PageStart(l, page), PageEnd(l, d.size, page) - RecLen(|name|));
                if r == Miss then FindFrom(l, d, name, page + 1) else r
  {
  }

  lemma StopFromStep(l: Layout, d: Dir, name: string, page: nat)
    requires l.page > 0
    ensures StopFrom(l, d, name, page) ==
              if page > NumPages(l, d.size) then Past
              else
                var start := PageStart(l, page);
                var r := StopInPage(d, name, start, start + l.page - RecLen(|name|), PageEnd(l, d.size, page));
                if r == Past then StopFrom(l, d, name, page + 1) else r
  {
  }

  lemma InsertedMeans(l: Layout, d: Dir, starts: set<nat>, name: string, ino: nat)
    requires WellFormed(l, d, starts)
    ensures forall d', starts' :: Inserted(l, d, starts, name, ino, d', starts') ==>
              && WellFormed(l, d', starts') && Names(d', starts') == Names(d, starts)[name := ino]
              && KeepsLive(d, starts, d', starts')
  {
  }
}
