/** A record whose length is 0: what each scan does when it comes to one. */
module DirectoryCorrupt {
  import opened Answers
  import opened Bits
  import opened DirectoryLog
  import opened DirectoryInsert
  import opened DirectoryDelete
  import opened DirectoryScan
  import opened DirectoryRead

  /** From x the record lengths lead to c, where there is a length of 0. */
  ghost predicate Breaks(d: Dir, x: nat, c: nat)
    decreases c - x
  {
    if x < c then At(d, x).recLen > 0 && Breaks(d, Next(d, x), c) else x == c && At(d, c).recLen == 0
  }

  lemma {:induction false} FindBreaks(d: Dir, name: string, x: nat, c: nat, end: int)
    requires Breaks(d, x, c) && c <= end
    ensures var r := FindInPage(d, name, x, end);
            r == Corrupt || (r.Hit? && r.at < c && Matches(d, r.at, name))
    decreases c - x
  {
    hide Matches;
    if x < c {
      FindBreaks(d, name, Next(d, x), c, end);
    }
  }

  lemma {:induction false} StopBreaks(d: Dir, name: string, x: nat, c: nat, end: int, dirEnd: nat)
    requires Breaks(d, x, c) && c <= end && c < dirEnd
    ensures var r := StopInPage(d, name, x, end, dirEnd);
            || r == Broken
            || (r.Exists? && r.at < c && Matches(d, r.at, name))
            || (r.Use? && r.at < c && HasRoom(At(d, r.at), RecLen(|name|)))
    decreases c - x
  {
    hide Matches, HasRoom;
    if x < c {
      StopBreaks(d, name, Next(d, x), c, end, dirEnd);
    }
  }

  lemma {:induction false} WalkBreaks(d: Dir, x: nat, c: nat, o: nat, prev: Prev)
    requires Breaks(d, x, c) && c < o
    ensures Walk(d, x, o, prev) == Bad
    decreases c - x
  {
    if x < c {
      WalkBreaks(d, Next(d, x), c, o, Before(x));
    }
  }

  lemma {:induction false} EmitBreaks(d: Dir, x: nat, c: nat, end: int, cur: Cursor)
    requires Breaks(d, x, c) && c <= end && |LiveFrom(d, x, c)| <= cur.budget
    ensures EmitInPage(d, x, end, cur)
         == Cursor(cur.out + Entries(d, LiveFrom(d, x, c)), cur.pos + (c - x), cur.budget - |LiveFrom(d, x, c)|, false)
    decreases c - x
  {
    if x < c {
      var rest := LiveFrom(d, Next(d, x), c);
      var pos := cur.pos + At(d, x).recLen;
      var next := if Live(d, x) then Cursor(cur.out + [EntryAt(d, x)], pos, cur.budget - 1, cur.ok)
                  else cur.(pos := pos);
      EmitBreaks(d, Next(d, x), c, end, next);
      assert Live(d, x) ==> Entries(d, [x] + rest) == [EntryAt(d, x)] + Entries(d, rest);
    } else {
      assert Entries(d, []) == [];
    }
  }

  lemma {:induction false} EmptyBreaks(d: Dir, self: nat, x: nat, c: nat, end: int)
    requires Breaks(d, x, c) && c <= end
    ensures var r := EmptyInPage(d, self, x, end);
            r == Stuck || (r == NotEmpty && exists o: nat :: o <= c && Live(d, o) && !DotRecord(At(d, o), self))
    decreases c - x
  {
    hide DotRecord;
    if x < c {
      EmptyBreaks(d, self, Next(d, x), c, end);
    }
  }

  /** A length of 0 in the first page ends every scan that comes to it. A search reports it unless
      the name stands before it; an insertion fails and changes nothing unless the name or room for
      it stands before it; a read emits what stands before it and stops there; the emptiness test
      stands still unless another name than the dots comes first; and a deletion behind it in its
      block fails and changes nothing. */
  lemma BreakExact(l: Layout, d: Dir, c: nat, name: string, ino: nat, prepErr: int, budget: nat, self: nat)
    requires GoodLayout(l) && GoodName(name) && Breaks(d, 0, c)
    requires c + RecLen(|name|) <= d.size && c + RecLen(|name|) <= l.page
    ensures Find(l, d, name) == Corrupt || exists o: nat :: o < c && Matches(d, o, name)
    ensures || Insert(l, d, name, ino, prepErr) == (d, EIO)
            || exists o: nat :: o < c && (Matches(d, o, name) || HasRoom(At(d, o), RecLen(|name|)))
    ensures var offs := LiveFrom(d, 0, c);
            |offs| <= budget ==> ReadDir(l, d, 0, budget) == Cursor(Entries(d, offs), c, budget - |offs|, false)
    ensures var r := EmptyFrom(l, d, self, 0);
            r == Stuck || (r == NotEmpty && exists o: nat :: o <= c && Live(d, o) && !DotRecord(At(d, o), self))
    ensures forall o: nat :: c < o < l.block ==> Delete(l, d, o) == (d, EIO)
  {
    hide RecLen, Matches, HasRoom, LiveFrom, EmitInPage, FindInPage, StopInPage, Walk, NumPages, Entries,
         EmptyInPage, DotRecord, Live;
    PageCut(l, 0);
    PageCount(l, d.size, 0);
    var end := PageEnd(l, d.size, 0);
    FindBreaks(d, name, 0, c, end - RecLen(|name|));
    StopBreaks(d, name, 0, c, l.page - RecLen(|name|), end);
    EmptyBreaks(d, self, 0, c, end - RecLen(1));
    if |LiveFrom(d, 0, c)| <= budget {
      var start := Cursor([], 0, budget, true);
      assert c <= end - MIN_REC;
      EmitBreaks(d, 0, c, end - MIN_REC, start);
      DivModUnique(0, l.page, 0, 0);
      var stopped := EmitInPage(d, 0, end - MIN_REC, start);
      assert EmitFrom(l, d, 0, 0, start) == EmitFrom(l, d, 1, 0, stopped) == stopped;
    }
    forall o: nat | c < o < l.block
      ensures Delete(l, d, o) == (d, EIO)
    {
      DivModUnique(o, l.block, 0, o);
      WalkBreaks(d, 0, c, o, Leading);
    }
  }

  /** From x on there are k records of a length that leaves no room, and the last one ends behind
      `end`; none starts at `dirEnd`. */
  ghost predicate Steps(d: Dir, name: string, x: nat, k: nat, end: int, dirEnd: nat)
    decreases k
  {
    if k == 0 then x > end
    else
      && x <= end && x != dirEnd && At(d, x).recLen > 0 && !Matches(d, x, name)
      && !HasRoom(At(d, x), RecLen(|name|)) && Steps(d, name, Next(d, x), k - 1, end, dirEnd)
  }

  lemma {:induction false} StepsPast(d: Dir, name: string, x: nat, k: nat, end: int, dirEnd: nat)
    requires Steps(d, name, x, k, end, dirEnd)
    ensures StopInPage(d, name, x, end, dirEnd) == Past
    decreases k
  {
    hide Matches, HasRoom, RecLen;
    if k > 0 {
      StepsPast(d, name, Next(d, x), k - 1, end, dirEnd);
    }
  }

  /** Records of 500 bytes step over the end of a directory of one block. Where they step over the
      ends of all pages, also of the one past the directory, the answer is that the argument is
      invalid. */
  lemma SteppingExample(l: Layout, d: Dir, r: Dirent, name: string, ino: nat, prepErr: int)
    requires l == Layout(1024, 2048) && d.size == 1024 && |name| == 255 && |r.name| == 255
    requires r.ino != 0 && r.recLen == 500 && r.name != name
    requires At(d, 0) == At(d, 500) == At(d, 1000) == At(d, 1500) == r
    requires At(d, 2048) == At(d, 2548) == At(d, 3048) == At(d, 3548) == r
    ensures Insert(l, d, name, ino, prepErr) == (d, EINVAL)
  {
    hide At, StopInPage, StopFrom, Steps, Hi, Join;
    FourSteps(d, r, name, 0, 1784, 1024);
    FourSteps(d, r, name, 2048, 3832, 4096);
    StepsPast(d, name, 0, 4, 1784, 1024);
    StepsPast(d, name, 2048, 4, 3832, 4096);
    PastPages(l, d, name);
  }

  /** A directory of one block has one page, and the scan ends after the next one. */
  lemma PastPages(l: Layout, d: Dir, name: string)
    requires l == Layout(1024, 2048) && d.size == 1024 && |name| == 255
    requires StopInPage(d, name, 0, 1784, 1024) == Past && StopInPage(d, name, 2048, 3832, 4096) == Past
    ensures StopFrom(l, d, name, 0) == Past
  {
    hide StopInPage, StopFrom, NumPages, PageStart, PageEnd, RecLen;
    BlockPages(l, d.size);
    NeedOf(|name|);
    PastPage(l, d, name, 0);
    PastPage(l, d, name, 1);
    PastPage(l, d, name, 2);
  }

  lemma NeedOf(n: nat)
    requires n == 255
    ensures RecLen(n) == 264
  {
  }

  lemma BlockPages(l: Layout, size: nat)
    requires 0 < size < l.page && l.page == 2 * size
    ensures NumPages(l, size) == 1
    ensures PageStart(l, 0) == 0 && PageEnd(l, size, 0) == size
    ensures PageStart(l, 1) == l.page && PageEnd(l, size, 1) == 2 * l.page
  {
    hide NumPages;
    PageCount(l, size, 0);
    PageCount(l, size, 1);
  }

  lemma PastPage(l: Layout, d: Dir, name: string, page: nat)
    requires l.page > 0
    requires page <= NumPages(l, d.size) ==>
               var start := PageStart(l, page);
               StopInPage(d, name, start, start + l.page - RecLen(|name|), PageEnd(l, d.size, page)) == Past
    ensures page <= NumPages(l, d.size) ==> StopFrom(l, d, name, page) == StopFrom(l, d, name, page + 1)
    ensures page > NumPages(l, d.size) ==> StopFrom(l, d, name, page) == Past
  {
    hide StopInPage, NumPages, PageEnd, RecLen;
  }

  lemma FourSteps(d: Dir, r: Dirent, name: string, x: nat, end: int, dirEnd: nat)
    requires |name| == 255 && |r.name| == 255 && r.ino != 0 && r.recLen == 500 && r.name != name
    requires At(d, x) == At(d, x + 500) == At(d, x + 1000) == At(d, x + 1500) == r
    requires x + 1500 <= end < x + 2000 && dirEnd !in {x, x + 500, x + 1000, x + 1500}
    ensures Steps(d, name, x, 4, end, dirEnd)
  {
    hide At;
    assert Steps(d, name, x + 2000, 0, end, dirEnd);
    assert Steps(d, name, x + 1500, 1, end, dirEnd);
    assert Steps(d, name, x + 1000, 2, end, dirEnd);
    assert Steps(d, name, x + 500, 3, end, dirEnd);
  }
}
