/** Inserting a name: the first record with room takes it, and only when there is none
    the directory grows by a block. */
module DirectoryInsert {
  import opened Answers
  import opened Bits
  import opened DirectoryLog

  /** Where the scan stops: at a record to use, at the end of the directory, at a record of
      the same name, at a corrupt one, or at the end of the page. */
  datatype Stop = Use(at: nat) | Grow(at: nat) | Exists(at: nat) | Broken | Past

  /** A dead record that is long enough, or a live one with enough slack. */
  predicate HasRoom(r: Dirent, need: nat) {
    (r.ino == 0 && need <= r.recLen) || RecLen(|r.name|) + need <= r.recLen
  }

  function StopInPage(d: Dir, name: string, o: nat, end: int, dirEnd: nat): Stop
    decreases end + 1 - o
  {
    if o > end then Past
    else if o == dirEnd then Grow(o)
    else if At(d, o).recLen == 0 then Broken
    else if Matches(d, o, name) then Exists(o)
    else if HasRoom(At(d, o), RecLen(|name|)) then Use(o)
    else StopInPage(d, name, Next(d, o), end, dirEnd)
  }

  /** The scan of the pages from `page` on; the source also looks at the page after the
      last one. */
  function StopFrom(l: Layout, d: Dir, name: string, page: nat): Stop
    requires l.page > 0
    decreases NumPages(l, d.size) + 1 - page
  {
    if page > NumPages(l, d.size) then Past
    else
      var start := PageStart(l, page);
      var r := StopInPage(d, name, start, start + l.page - RecLen(|name|), PageEnd(l, d.size, page));
      if r == Past then StopFrom(l, d, name, page + 1) else r
  }

  /** The new header takes over the record at `at`, or its slack when it is live. */
  function Place(d: Dir, at: nat, name: string, ino: nat): map<nat, Dirent> {
    var r := At(d, at);
    if r.ino == 0 then d.area[at := Dirent(ino, r.recLen, name)]
    else
      var used := RecLen(|r.name|);
      d.area[at + used := Dirent(ino, U16(r.recLen - used), name)][at := r.(recLen := used)]
  }

  /** Writing up to byte `end` makes the directory reach at least that far. */
  function Reach(size: nat, end: nat): nat {
    if size < end then end else size
  }

  /** The directory and the error of an insertion. `prepErr` is what the preparation of
      the block for writing returns; 0 is success. */
  function Insert(l: Layout, d: Dir, name: string, ino: nat, prepErr: int): (r: (Dir, int))
    requires l.page > 0
  {
    match StopFrom(l, d, name, 0)
    case Past => (d, EINVAL)
    case Broken => (d, EIO)
    case Exists(_) => (d, EEXIST)
    case Use(at) =>
      if prepErr != OK then (d, prepErr)
      else (Dir(Reach(d.size, Next(d, at)), Place(d, at, name, ino)), OK)
    case Grow(at) =>
      var blank := d.area[at := Dirent(0, l.block, At(d, at).name)];
      if prepErr != OK then (d.(area := blank), prepErr)
      else (Dir(Reach(d.size, at + l.block), blank[at := Dirent(ino, l.block, name)]), OK)
  }

  // ----- the scan is first-fit

  /** Neither room for `need` bytes nor the name in the records of [lo, hi). */
  ghost predicate NoneIn(d: Dir, starts: set<nat>, name: string, lo: nat, hi: nat) {
    forall x :: x in starts && lo <= x < hi ==> !HasRoom(At(d, x), RecLen(|name|)) && !Matches(d, x, name)
  }

  /** What a scan of the records in [lo, hi) owes; hi is reached only when nothing fits. */
  ghost predicate Fits(d: Dir, starts: set<nat>, name: string, lo: nat, hi: nat, r: Stop) {
    match r
    case Use(at) => at in starts && lo <= at < hi && NoneIn(d, starts, name, lo, at)
                    && HasRoom(At(d, at), RecLen(|name|)) && !Matches(d, at, name)
    case Exists(at) => at in starts && lo <= at < hi && NoneIn(d, starts, name, lo, at) && Matches(d, at, name)
    case Grow(at) => at == hi == d.size && NoneIn(d, starts, name, lo, hi)
    case Past => NoneIn(d, starts, name, lo, hi)
    case Broken => false
  }

  /** `limit` is the end of the page, which the directory may not reach. */
  lemma {:induction false} StopInPageFits(
    l: Layout, d: Dir, starts: set<nat>, name: string, o: nat, hi: nat, limit: nat)
    requires WellFormed(l, d, starts) && hi <= d.size && hi <= limit
    requires (hi == d.size && hi + RecLen(|name|) <= limit) || (hi == limit && (hi == d.size || hi in starts))
    requires o == hi || (o in starts && o < hi)
    ensures var r := StopInPage(d, name, o, limit - RecLen(|name|), hi);
            Fits(d, starts, name, o, hi, r) && (r == Past ==> hi == limit) && (r.Grow? ==> hi < limit)
    decreases hi - o
  {
    hide RecLen, IsCut, Distinct, HasRoom, Matches, At;
    if o < hi {
      forall x | x in starts && o <= x < hi
        ensures x == o || Next(d, o) <= x
        ensures x > limit - RecLen(|name|) ==> !HasRoom(At(d, x), RecLen(|name|)) && !Matches(d, x, name)
      {
        assert Next(d, x) <= hi && Next(d, o) <= d.size;
        TooLate(d, x, name, limit);
      }
      if o <= limit - RecLen(|name|) && !Matches(d, o, name) && !HasRoom(At(d, o), RecLen(|name|)) {
        StopInPageFits(l, d, starts, name, Next(d, o), hi, limit);
      }
    }
  }

  /** A record too near the end of the page neither has room nor holds the name. */
  lemma TooLate(d: Dir, x: nat, name: string, limit: nat)
    requires GoodRecord(At(d, x)) && Next(d, x) <= limit
    ensures x > limit - RecLen(|name|) ==> !HasRoom(At(d, x), RecLen(|name|)) && !Matches(d, x, name)
  {
  }

  predicate GoodName(name: string) {
    1 <= |name| <= NAME_MAX
  }

  /** The scan always stops, at the first record that fits, or else at the directory's end. */
  lemma {:induction false} StopFromFits(l: Layout, d: Dir, starts: set<nat>, name: string, page: nat)
    requires WellFormed(l, d, starts) && GoodName(name)
    requires PageStart(l, page) <= d.size && page <= NumPages(l, d.size)
    ensures StopFrom(l, d, name, page) != Past
    ensures Fits(d, starts, name, PageStart(l, page), d.size, StopFrom(l, d, name, page))
    decreases NumPages(l, d.size) + 1 - page
  {
    hide IsCut, PageStart, Tiled, Distinct, NumPages, StopInPage, PageEnd, RecLen, Fits;
    var lo, hi, limit := PageStart(l, page), PageEnd(l, d.size, page), PageStart(l, page + 1);
    PageCount(l, d.size, page);
    PageShape(l, d, starts, name, page);
    StopInPageFits(l, d, starts, name, lo, hi, limit);
    var r := StopInPage(d, name, lo, limit - RecLen(|name|), hi);
    if r == Past {
      PageCount(l, d.size, page + 1);
      StopFromFits(l, d, starts, name, page + 1);
      FitsJoin(d, starts, name, lo, hi, d.size, StopFrom(l, d, name, page + 1));
    } else {
      FitsWiden(d, starts, name, lo, hi, d.size, r);
    }
  }

  /** The records of a page, and the room behind the directory's end on its last page. */
  lemma PageShape(l: Layout, d: Dir, starts: set<nat>, name: string, page: nat)
    requires WellFormed(l, d, starts) && GoodName(name) && PageStart(l, page) <= d.size
    ensures var lo, hi, limit := PageStart(l, page), PageEnd(l, d.size, page), PageStart(l, page + 1);
            && limit == lo + l.page && lo <= hi <= d.size && hi <= limit
            && ((hi == d.size && hi + RecLen(|name|) <= limit) || (hi == limit && (hi == d.size || hi in starts)))
            && (lo == hi || (lo in starts && lo < hi))
            && (hi == d.size < limit || hi == limit)
  {
    hide IsCut, PageStart, Distinct, RecLen;
    PageCut(l, page);
    PageCut(l, page + 1);
    if PageStart(l, page) < d.size {
      PageRange(l, d, starts, page);
    }
    if d.size < PageStart(l, page + 1) {
      CutGap(l, d.size, PageStart(l, page + 1));
    }
  }

  lemma FitsJoin(d: Dir, starts: set<nat>, name: string, lo: nat, mid: nat, hi: nat, r: Stop)
    requires lo <= mid <= hi && Fits(d, starts, name, lo, mid, Past) && Fits(d, starts, name, mid, hi, r)
    ensures Fits(d, starts, name, lo, hi, r)
  {
  }

  lemma FitsWiden(d: Dir, starts: set<nat>, name: string, lo: nat, hi: nat, hi': nat, r: Stop)
    requires hi <= hi' && r != Past && Fits(d, starts, name, lo, hi, r) && (r.Grow? ==> hi == hi')
    ensures Fits(d, starts, name, lo, hi', r)
  {
  }

  // ----- what placing a record does to the log

  /** No live record moves or changes its name or inode. */
  ghost predicate KeepsLive(d: Dir, starts: set<nat>, d': Dir, starts': set<nat>) {
    forall o :: o in starts && Live(d, o) ==>
      o in starts' && At(d', o).ino == At(d, o).ino && At(d', o).name == At(d, o).name
  }

  /** The directory after the insertion binds the new name and is as before otherwise. */
  ghost predicate Inserted(l: Layout, d: Dir, starts: set<nat>, name: string, ino: nat, d': Dir, starts': set<nat>) {
    && WellFormed(l, d', starts') && Distinct(d, starts)
    && Names(d', starts') == Names(d, starts)[name := ino]
    && KeepsLive(d, starts, d', starts')
  }

  /** The record at `at` is the only new live one and holds the new binding. */
  lemma OneMore(l: Layout, d: Dir, starts: set<nat>, name: string, ino: nat, d': Dir, starts': set<nat>, at: nat)
    requires WellFormed(l, d, starts) && Tiled(l, d', starts') && name !in Names(d, starts)
    requires KeepsLive(d, starts, d', starts') && Holds(d', starts', name, at) && At(d', at).ino == ino
    requires forall o :: o in starts' && Live(d', o) && o != at ==> o in starts && Live(d, o)
    ensures Inserted(l, d, starts, name, ino, d', starts')
  {
    hide Tiled;
    assert Distinct(d', starts') by {
      forall o, p | o in starts' && p in starts' && Live(d', o) && Live(d', p) && At(d', o).name == At(d', p).name
        ensures o == p
      {
        if o != at { assert At(d, o).name == At(d', o).name; }
        if p != at { assert At(d, p).name == At(d', p).name; }
      }
    }
    var m := Names(d, starts)[name := ino];
    forall n | n in m
      ensures exists o :: Holds(d', starts', n, o)
    {
      if n == name {
        assert Holds(d', starts', n, at);
      } else {
        var o :| o in starts && Live(d, o) && At(d, o).name == n;
        assert Holds(d', starts', n, o);
      }
    }
    NamesEqual(d', starts', m);
  }

  /** A change to one record that keeps its length and fits it keeps the tiling. */
  lemma SameTiling(l: Layout, d: Dir, starts: set<nat>, d': Dir, at: nat)
    requires Tiled(l, d, starts) && d'.size == d.size && At(d', at).recLen == At(d, at).recLen
    requires forall o :: o != at ==> At(d', o) == At(d, o)
    requires at in starts && Live(d', at) ==> GoodName(At(d', at).name) && RecLen(|At(d', at).name|) <= At(d, at).recLen
    ensures Tiled(l, d', starts)
  {
    hide RecLen, IsCut;
    assert forall o :: Next(d', o) == Next(d, o);
    forall o | o in starts
      ensures GoodRecord(At(d', o)) && Next(d', o) <= d.size && (Next(d', o) == d.size || Next(d', o) in starts)
    {
      assert Next(d, o) <= d.size;
    }
  }

  /** Cutting a record in two keeps the tiling. */
  lemma SplitTiling(l: Layout, d: Dir, starts: set<nat>, d': Dir, at: nat, cut: nat)
    requires Tiled(l, d, starts) && d'.size == d.size && at in starts && at < cut < Next(d, at)
    requires forall o :: o != at && o != cut ==> At(d', o) == At(d, o)
    requires Next(d', at) == cut && Next(d', cut) == Next(d, at)
    requires GoodRecord(At(d', at)) && GoodRecord(At(d', cut))
    ensures Tiled(l, d', starts + {cut}) && cut !in starts
  {
    hide RecLen, IsCut, GoodRecord, At;
    var starts' := starts + {cut};
    assert Next(d, at) <= d.size;
    forall o | o in starts
      ensures o <= at || cut < Next(d, at) <= o
      ensures o != at ==> Next(d', o) == Next(d, o)
      ensures Next(d, o) <= d.size && (Next(d, o) == d.size || Next(d, o) in starts) && GoodRecord(At(d, o))
      ensures o < at ==> Next(d, o) <= at
    {
      NextSame(d, d', o, at, cut);
    }
    forall o, p | o in starts' && p in starts' && o < p
      ensures Next(d', o) <= p
    {
    }
  }

  lemma NextSame(d: Dir, d': Dir, o: nat, at: nat, cut: nat)
    requires forall o :: o != at && o != cut ==> At(d', o) == At(d, o)
    ensures o != at && o != cut ==> Next(d', o) == Next(d, o)
  {
  }

  /** Reusing a dead record. */
  lemma PlaceDead(l: Layout, d: Dir, starts: set<nat>, at: nat, name: string, ino: nat)
    requires WellFormed(l, d, starts) && GoodName(name) && name !in Names(d, starts) && ino != 0
    requires at in starts && !Live(d, at) && RecLen(|name|) <= At(d, at).recLen
    ensures Inserted(l, d, starts, name, ino, d.(area := Place(d, at, name, ino)), starts)
  {
    hide RecLen, Names;
    var d' := d.(area := Place(d, at, name, ino));
    SameTiling(l, d, starts, d', at);
    OneMore(l, d, starts, name, ino, d', starts, at);
  }

  /** Splitting the slack off a live record. */
  lemma PlaceSlack(l: Layout, d: Dir, starts: set<nat>, at: nat, name: string, ino: nat)
    requires WellFormed(l, d, starts) && GoodName(name) && name !in Names(d, starts) && ino != 0
    requires at in starts && Live(d, at) && RecLen(|At(d, at).name|) + RecLen(|name|) <= At(d, at).recLen
    ensures Inserted(l, d, starts, name, ino, d.(area := Place(d, at, name, ino)),
                     starts + {at + RecLen(|At(d, at).name|)})
  {
    hide RecLen, Names, IsCut, Tiled, Place, At, GoodRecord, Next;
    var used := RecLen(|At(d, at).name|);
    var d' := d.(area := Place(d, at, name, ino));
    RecordFits(l, d, starts, at);
    SlackRecords(d, d', at, name, ino);
    SplitTiling(l, d, starts, d', at, at + used);
    OneMore(l, d, starts, name, ino, d', starts + {at + used}, at + used);
  }

  lemma SlackRecords(d: Dir, d': Dir, at: nat, name: string, ino: nat)
    requires Live(d, at) && GoodRecord(At(d, at)) && GoodName(name) && ino != 0
    requires RecLen(|At(d, at).name|) + RecLen(|name|) <= At(d, at).recLen < 0x1_0000
    requires d' == d.(area := Place(d, at, name, ino))
    ensures var used := RecLen(|At(d, at).name|);
            && Next(d', at) == at + used && Next(d', at + used) == Next(d, at) && at < at + used < Next(d, at)
            && GoodRecord(At(d', at)) && GoodRecord(At(d', at + used))
            && At(d', at).ino == At(d, at).ino && At(d', at).name == At(d, at).name
            && At(d', at + used).ino == ino && At(d', at + used).name == name && d'.size == d.size
            && forall o :: o != at && o != at + used ==> At(d', o) == At(d, o)
  {
    U16Fits(At(d, at).recLen - RecLen(|At(d, at).name|));
    hide RecLen, U16;
  }

  /** No record is longer than a block. */
  lemma RecordFits(l: Layout, d: Dir, starts: set<nat>, o: nat)
    requires WellFormed(l, d, starts) && o in starts
    ensures GoodRecord(At(d, o)) && At(d, o).recLen <= l.block < 0x1_0000
    ensures Next(d, o) <= o - o % l.block + l.block
  {
    CutBelow(l, o);
    CutNext(l, o - o % l.block);
    var c := o - o % l.block + l.block;
    assert Next(d, o) <= d.size;
    if c < d.size {
      assert c in starts;
    } else if d.size < c {
      CutGap(l, o - o % l.block, d.size);
    }
  }

  /** A new block at the end, in one record. */
  lemma PlaceBlock(l: Layout, d: Dir, starts: set<nat>, name: string, ino: nat, area: map<nat, Dirent>)
    requires WellFormed(l, d, starts) && GoodName(name) && name !in Names(d, starts) && ino != 0
    requires forall o :: o != d.size ==> (o in area <==> o in d.area) && (o in area ==> area[o] == d.area[o])
    requires d.size in area && area[d.size] == Dirent(ino, l.block, name)
    ensures Inserted(l, d, starts, name, ino, Dir(d.size + l.block, area), starts + {d.size})
  {
    hide RecLen, Names, IsCut, Tiled;
    var d', starts' := Dir(d.size + l.block, area), starts + {d.size};
    forall o | o in starts ensures o < d.size && At(d', o) == At(d, o) { InsideDir(l, d, starts, o); }
    GrowTiling(l, d, starts, d');
    OneMore(l, d, starts, name, ino, d', starts', d.size);
  }

  /** A record of one block behind the end keeps the tiling. */
  lemma GrowTiling(l: Layout, d: Dir, starts: set<nat>, d': Dir)
    requires GoodLayout(l) && Tiled(l, d, starts) && d'.size == d.size + l.block && Next(d', d.size) == d'.size
    requires GoodRecord(At(d', d.size))
    requires forall o :: o in starts ==> o < d.size && At(d', o) == At(d, o)
    ensures Tiled(l, d', starts + {d.size})
  {
    hide RecLen, IsCut, GoodRecord;
    CutNext(l, d.size);
    forall c: nat | c < d'.size && IsCut(l, c)
      ensures c in starts + {d.size}
    {
      if d.size < c { CutGap(l, d.size, c); }
    }
    forall o | o in starts
      ensures Next(d', o) == Next(d, o) <= d.size && GoodRecord(At(d', o))
      ensures Next(d, o) == d.size || Next(d, o) in starts
    {
    }
  }

  /** The record starts after an insertion. */
  ghost function InsertStarts(l: Layout, d: Dir, starts: set<nat>, name: string): set<nat>
    requires l.page > 0
  {
    match StopFrom(l, d, name, 0)
    case Use(at) => if Live(d, at) then starts + {at + RecLen(|At(d, at).name|)} else starts
    case Grow(at) => starts + {at}
    case _ => starts
  }

  /** The scan of a whole directory stops at the first record with room, or at the end. */
  lemma StopFits(l: Layout, d: Dir, starts: set<nat>, name: string)
    requires WellFormed(l, d, starts) && GoodName(name)
    ensures StopFrom(l, d, name, 0) != Past && Fits(d, starts, name, 0, d.size, StopFrom(l, d, name, 0))
  {
    hide WellFormed, StopFrom, Fits, NumPages, PageStart;
    assert GoodLayout(l) by { GoodDir(l, d, starts); }
    PageCut(l, 0);
    StopFromFits(l, d, starts, name, 0);
  }

  lemma GoodDir(l: Layout, d: Dir, starts: set<nat>)
    requires WellFormed(l, d, starts)
    ensures GoodLayout(l) && Distinct(d, starts)
  {
  }

  /** Inserting an absent name succeeds unless the block cannot be prepared: it adds exactly
      the one binding, moves no live record, and makes the directory longer, by one block,
      exactly when no record has room. A failed preparation changes nothing. */
  lemma InsertExact(l: Layout, d: Dir, starts: set<nat>, name: string, ino: nat, prepErr: int)
    requires WellFormed(l, d, starts) && GoodName(name) && name !in Names(d, starts) && ino != 0
    ensures var (d', err) := Insert(l, d, name, ino, prepErr);
            && err == prepErr
            && (prepErr == OK ==> Inserted(l, d, starts, name, ino, d', InsertStarts(l, d, starts, name)))
            && (prepErr == OK ==>
                  d'.size == if exists o :: o in starts && HasRoom(At(d, o), RecLen(|name|))
                             then d.size else d.size + l.block)
            && (prepErr != OK ==>
                  && WellFormed(l, d', starts) && d'.size == d.size
                  && Names(d', starts) == Names(d, starts) && KeepsLive(d, starts, d', starts))
  {
    hide WellFormed, StopFrom, Tiled, RecLen, Names, Place, Distinct, Inserted;
    GoodDir(l, d, starts);
    StopFits(l, d, starts, name);
    NotThere(d, starts, name);
    match StopFrom(l, d, name, 0)
    case Use(at) =>
      InsideWF(l, d, starts, at);
      if Live(d, at) { PlaceSlack(l, d, starts, at, name, ino); } else { PlaceDead(l, d, starts, at, name, ino); }
    case Grow(at) =>
      var blank := d.area[at := Dirent(0, l.block, At(d, at).name)];
      forall o | o in starts ensures o < d.size { InsideWF(l, d, starts, o); }
      if prepErr == OK {
        PlaceBlock(l, d, starts, name, ino, blank[at := Dirent(ino, l.block, name)]);
      } else {
        BeyondEnd(l, d, starts, d.(area := blank));
      }
  }

  lemma NotThere(d: Dir, starts: set<nat>, name: string)
    requires Distinct(d, starts) && name !in Names(d, starts)
    ensures forall o :: o in starts ==> !Matches(d, o, name)
  {
  }

  lemma InsideWF(l: Layout, d: Dir, starts: set<nat>, o: nat)
    requires WellFormed(l, d, starts) && o in starts
    ensures o < d.size && Next(d, o) <= d.size
  {
    InsideDir(l, d, starts, o);
  }

  /** Headers at or after the end of the directory are no part of it. */
  lemma BeyondEnd(l: Layout, d: Dir, starts: set<nat>, d': Dir)
    requires WellFormed(l, d, starts) && d'.size == d.size
    requires forall o: nat :: o < d.size ==> At(d', o) == At(d, o)
    ensures WellFormed(l, d', starts) && Names(d', starts) == Names(d, starts) && KeepsLive(d, starts, d', starts)
  {
    forall o | o in starts
      ensures At(d', o) == At(d, o) && Next(d', o) == Next(d, o)
    {
      InsideDir(l, d, starts, o);
    }
    forall n | n in Names(d, starts)
      ensures exists o :: Holds(d', starts, n, o)
    {
      var o :| o in starts && Live(d, o) && At(d, o).name == n;
      assert Holds(d', starts, n, o);
    }
    NamesEqual(d', starts, Names(d, starts));
  }

  /** Inserting a name that is live is refused exactly when no record before its own has
      room: the scan stops at the first record that fits. */
  lemma RefusalExact(l: Layout, d: Dir, starts: set<nat>, name: string, holder: nat)
    requires WellFormed(l, d, starts) && GoodName(name) && Holds(d, starts, name, holder)
    ensures StopFrom(l, d, name, 0).Exists? <==>
              (forall o :: o in starts && o < holder ==> !HasRoom(At(d, o), RecLen(|name|)))
  {
    hide StopFrom, Tiled, RecLen, HasRoom, At;
    StopFits(l, d, starts, name);
    InsideWF(l, d, starts, holder);
  }

  /** A refusal is the answer "exists" and changes nothing; where an earlier record has room the
      name goes in a second time, or the block cannot be prepared. */
  lemma RefusalAnswer(l: Layout, d: Dir, starts: set<nat>, name: string, holder: nat, ino: nat, prepErr: int)
    requires WellFormed(l, d, starts) && GoodName(name) && Holds(d, starts, name, holder)
    ensures (forall o :: o in starts && o < holder ==> !HasRoom(At(d, o), RecLen(|name|))) ==>
              Insert(l, d, name, ino, prepErr) == (d, EEXIST)
    ensures (exists o :: o in starts && o < holder && HasRoom(At(d, o), RecLen(|name|))) ==>
              Insert(l, d, name, ino, prepErr).1 == prepErr
  {
    hide StopFrom, Tiled, RecLen, HasRoom, At, Place;
    StopFits(l, d, starts, name);
    InsideWF(l, d, starts, holder);
  }

  /** A failed preparation changes no header inside the directory; one is written only when it
      was to grow, an empty record of a whole block just behind the end. */
  lemma FailedHeaders(l: Layout, d: Dir, starts: set<nat>, name: string, ino: nat, prepErr: int)
    requires WellFormed(l, d, starts) && GoodName(name) && name !in Names(d, starts) && prepErr != OK
    ensures var d' := Insert(l, d, name, ino, prepErr).0;
            && d'.size == d.size
            && (forall o :: o != d.size ==> At(d', o) == At(d, o))
            && (if exists o :: o in starts && HasRoom(At(d, o), RecLen(|name|)) then d' == d
                else At(d', d.size).ino == 0 && At(d', d.size).recLen == l.block)
  {
    hide StopFrom, Tiled, RecLen, HasRoom, Names, Distinct;
    GoodDir(l, d, starts);
    StopFits(l, d, starts, name);
    NotThere(d, starts, name);
    forall o | o in starts
      ensures o < d.size
    {
      InsideWF(l, d, starts, o);
    }
  }
}
