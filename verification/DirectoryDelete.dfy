/** Deleting and relinking through a record pointer, a new directory's two entries, and
    what a pointer held across an insertion still points at. */
module DirectoryDelete {
  import opened Answers
  import opened Bits
  import opened DirectoryLog
  import opened DirectoryInsert

  datatype Prev = Leading | Before(at: nat) | Bad

  /** The last record before o on the walk from x. */
  function Walk(d: Dir, x: nat, o: nat, prev: Prev): Prev
    decreases o - x
  {
    if x >= o then prev
    else if At(d, x).recLen == 0 then Bad
    else Walk(d, Next(d, x), o, Before(x))
  }

  function BlockStart(l: Layout, o: nat): (s: nat)
    requires l.block > 0
    ensures s <= o
  {
    CutBelow(l, o);
    o - o % l.block
  }

  function Delete(l: Layout, d: Dir, o: nat): (Dir, int)
    requires l.block > 0
  {
    match Walk(d, BlockStart(l, o), o, Leading)
    case Bad => (d, EIO)
    case Leading => (d.(area := d.area[o := At(d, o).(ino := 0)]), OK)
    case Before(p) =>
      var merged := d.area[p := At(d, p).(recLen := U16(Next(d, o) - p))];
      var r := At(d.(area := merged), o);
      (d.(area := merged[o := r.(ino := 0)]), OK)
  }

  function SetLink(d: Dir, o: nat, ino: nat): Dir {
    d.(area := d.area[o := At(d, o).(ino := ino)])
  }

  ghost function DeleteStarts(l: Layout, starts: set<nat>, o: nat): set<nat> {
    if IsCut(l, o) then starts else starts - {o}
  }

  lemma {:induction false} WalkFinds(l: Layout, d: Dir, starts: set<nat>, x: nat, o: nat, prev: Prev)
    requires WellFormed(l, d, starts) && x in starts && o in starts && x <= o
    requires prev.Bad? || (prev.Before? ==> prev.at in starts && Next(d, prev.at) == x)
    ensures x == o ==> Walk(d, x, o, prev) == prev
    ensures x < o ==> var w := Walk(d, x, o, prev); w.Before? && w.at in starts && Next(d, w.at) == o && x <= w.at < o
    decreases o - x
  {
    hide IsCut, GoodRecord;
    if x < o {
      assert Next(d, o) <= d.size && Next(d, x) <= o;
      GrowsBy(l, d, starts, o);
      GrowsBy(l, d, starts, x);
      WalkFinds(l, d, starts, Next(d, x), o, Before(x));
    }
  }

  lemma GrowsBy(l: Layout, d: Dir, starts: set<nat>, o: nat)
    requires WellFormed(l, d, starts) && o in starts
    ensures GoodRecord(At(d, o)) && Next(d, o) >= o + MIN_REC && o < d.size
  {
    assert Next(d, o) <= d.size;
  }

  /** The record before o in its block, when o does not start it. */
  lemma WalkExact(l: Layout, d: Dir, starts: set<nat>, o: nat)
    requires WellFormed(l, d, starts) && o in starts
    ensures var w := Walk(d, BlockStart(l, o), o, Leading);
            if IsCut(l, o) then w == Leading
            else w.Before? && w.at in starts && Next(d, w.at) == o && BlockStart(l, o) <= w.at < o
  {
    hide GoodRecord;
    CutBelow(l, o);
    GrowsBy(l, d, starts, o);
    assert BlockStart(l, o) in starts;
    WalkFinds(l, d, starts, BlockStart(l, o), o, Leading);
  }

  /** Live records other than o stay as they are. */
  ghost predicate KeepsOthers(d: Dir, starts: set<nat>, o: nat, d': Dir, starts': set<nat>) {
    && (forall x :: x in starts && x != o && Live(d, x) ==>
          x in starts' && At(d', x).ino == At(d, x).ino && At(d', x).name == At(d, x).name)
    && (forall x :: x in starts' && Live(d', x) ==> x in starts && x != o && Live(d, x))
  }

  lemma OneLess(l: Layout, d: Dir, starts: set<nat>, o: nat, d': Dir, starts': set<nat>)
    requires WellFormed(l, d, starts) && Tiled(l, d', starts') && o in starts && Live(d, o)
    requires KeepsOthers(d, starts, o, d', starts')
    ensures WellFormed(l, d', starts') && Names(d', starts') == Names(d, starts) - {At(d, o).name}
  {
    hide Tiled, GoodRecord;
    assert Distinct(d', starts');
    var m := Names(d, starts) - {At(d, o).name};
    forall n | n in m
      ensures exists x :: Holds(d', starts', n, x)
    {
      var x :| x in starts && Live(d, x) && At(d, x).name == n;
      assert Holds(d', starts', n, x);
    }
    NamesEqual(d', starts', m);
  }

  /** Merging a record into the one before it keeps the tiling. */
  lemma MergeTiling(l: Layout, d: Dir, starts: set<nat>, d': Dir, p: nat, o: nat)
    requires Tiled(l, d, starts) && d'.size == d.size && p in starts && o in starts && Next(d, p) == o && p < o
    requires !IsCut(l, o) && GoodRecord(At(d', p)) && Next(d', p) == Next(d, o)
    requires forall x :: x != p && x != o ==> At(d', x) == At(d, x)
    ensures Tiled(l, d', starts - {o})
  {
    hide IsCut, GoodRecord, At;
    assert Next(d, o) <= d.size;
    forall x | x in starts
      ensures x != p && x != o ==> Next(d', x) == Next(d, x)
      ensures Next(d, x) <= d.size && (Next(d, x) == d.size || Next(d, x) in starts) && GoodRecord(At(d, x))
      ensures x < p ==> Next(d, x) <= p
      ensures o < x ==> Next(d, o) <= x
      ensures x > p ==> x >= o
      ensures x != p ==> Next(d, x) != o
    {
      NextSame(d, d', x, p, o);
      SamePrev(l, d, starts, p, x, o);
    }
  }

  lemma SamePrev(l: Layout, d: Dir, starts: set<nat>, p: nat, x: nat, o: nat)
    requires Tiled(l, d, starts) && p in starts && x in starts && Next(d, p) == o && p < o
    ensures Next(d, x) == o ==> x == p
  {
    assert Next(d, x) <= d.size;
  }

  /** Deleting through the pointer to a live record removes exactly its binding, merges the
      record into the one before it in its block, and moves no other live record. */
  lemma DeleteExact(l: Layout, d: Dir, starts: set<nat>, o: nat)
    requires WellFormed(l, d, starts) && o in starts && Live(d, o)
    ensures var (d', err) := Delete(l, d, o);
            var starts' := DeleteStarts(l, starts, o);
            && err == OK && d'.size == d.size && WellFormed(l, d', starts')
            && Names(d', starts') == Names(d, starts) - {At(d, o).name}
            && KeepsOthers(d, starts, o, d', starts')
  {
    hide IsCut, RecLen, Names, WellFormed, Tiled, Distinct, Walk, BlockStart, At, Next, GoodRecord;
    TiledOf(l, d, starts);
    var d' := Delete(l, d, o).0;
    WalkExact(l, d, starts, o);
    match Walk(d, BlockStart(l, o), o, Leading)
    case Leading =>
      DeadHead(d, d', o);
      SameTiling(l, d, starts, d', o);
      OneLess(l, d, starts, o, d', starts);
    case Before(p) =>
      MergedLength(l, d, starts, p, o);
      DeadMerged(d, d', p, o);
      MergeTiling(l, d, starts, d', p, o);
      OneLess(l, d, starts, o, d', starts - {o});
  }

  /** The record before o in its block has taken o's bytes over, and no other header has changed. */
  ghost predicate MergedInto(l: Layout, d: Dir, starts: set<nat>, o: nat, d': Dir, p: nat) {
    && p in starts && p < o && Next(d, p) == o && l.block > 0 && p / l.block == o / l.block
    && At(d', p) == At(d, p).(recLen := At(d, p).recLen + At(d, o).recLen)
    && forall x :: x != p && x != o ==> At(d', x) == At(d, x)
  }

  /** Every header after a deletion: the record's own loses its inode number only, and its bytes
      go to the record before it in its block; when it starts the block nothing else changes. */
  lemma DeleteHeaders(l: Layout, d: Dir, starts: set<nat>, o: nat)
    requires WellFormed(l, d, starts) && o in starts && Live(d, o)
    ensures var d' := Delete(l, d, o).0;
            && At(d', o) == At(d, o).(ino := 0)
            && (IsCut(l, o) ==> forall x :: x != o ==> At(d', x) == At(d, x))
            && (!IsCut(l, o) ==> exists p :: MergedInto(l, d, starts, o, d', p))
  {
    hide IsCut, RecLen, Tiled, Distinct, Walk, BlockStart, Next, GoodRecord, U16;
    var d' := Delete(l, d, o).0;
    WalkExact(l, d, starts, o);
    match Walk(d, BlockStart(l, o), o, Leading)
    case Leading =>
    case Before(p) =>
      MergedLength(l, d, starts, p, o);
      SameBlock(l, o, p);
      assert MergedInto(l, d, starts, o, d', p);
  }

  lemma SameBlock(l: Layout, o: nat, p: nat)
    requires l.block > 0 && BlockStart(l, o) <= p <= o
    ensures p / l.block == o / l.block
  {
    DivModUnique(p, l.block, o / l.block, p - BlockStart(l, o));
  }

  lemma DeadHead(d: Dir, d': Dir, o: nat)
    requires d' == d.(area := d.area[o := At(d, o).(ino := 0)])
    ensures !Live(d', o) && At(d', o).recLen == At(d, o).recLen && forall x :: x != o ==> At(d', x) == At(d, x)
  {
  }

  lemma DeadMerged(d: Dir, d': Dir, p: nat, o: nat)
    requires p != o && GoodRecord(At(d, p)) && GoodRecord(At(d, o)) && Next(d, p) == o
    requires var merged := d.area[p := At(d, p).(recLen := U16(Next(d, o) - p))];
             d' == d.(area := merged[o := At(d.(area := merged), o).(ino := 0)])
    requires U16(Next(d, o) - p) == At(d, p).recLen + At(d, o).recLen
    ensures GoodRecord(At(d', p)) && Next(d', p) == Next(d, o)
    ensures At(d', p).ino == At(d, p).ino && At(d', p).name == At(d, p).name
    ensures forall x :: x != p && x != o ==> At(d', x) == At(d, x)
  {
    hide RecLen, U16;
  }

  lemma TiledOf(l: Layout, d: Dir, starts: set<nat>)
    requires WellFormed(l, d, starts)
    ensures GoodLayout(l) && Tiled(l, d, starts) && Distinct(d, starts)
  {
  }

  lemma MergedLength(l: Layout, d: Dir, starts: set<nat>, p: nat, o: nat)
    requires WellFormed(l, d, starts) && p in starts && o in starts && Next(d, p) == o && BlockStart(l, o) <= p
    ensures U16(Next(d, o) - p) == At(d, p).recLen + At(d, o).recLen
    ensures GoodRecord(At(d, p)) && GoodRecord(At(d, o))
  {
    hide RecLen, IsCut;
    RecordFits(l, d, starts, o);
    GrowsBy(l, d, starts, p);
    U16Fits(Next(d, o) - p);
  }

  lemma SetLinkHeaders(l: Layout, d: Dir, starts: set<nat>, o: nat, ino: nat)
    requires WellFormed(l, d, starts) && o in starts && Live(d, o) && ino != 0
    ensures var d' := SetLink(d, o, ino);
            && WellFormed(l, d', starts) && d'.size == d.size
            && At(d', o) == At(d, o).(ino := ino) && forall x :: x != o ==> At(d', x) == At(d, x)
  {
    hide IsCut, RecLen, Tiled;
    GrowsBy(l, d, starts, o);
    SameTiling(l, d, starts, SetLink(d, o, ino), o);
  }

  /** Relinking changes exactly one inode number. */
  lemma SetLinkExact(l: Layout, d: Dir, starts: set<nat>, o: nat, ino: nat)
    requires WellFormed(l, d, starts) && o in starts && Live(d, o) && ino != 0
    ensures var d' := SetLink(d, o, ino);
            && WellFormed(l, d', starts) && d'.size == d.size
            && Names(d', starts) == Names(d, starts)[At(d, o).name := ino]
            && (forall x :: x in starts ==> At(d', x).name == At(d, x).name && (Live(d', x) <==> Live(d, x)))
            && (forall x :: x != o ==> At(d', x) == At(d, x))
  {
    hide IsCut, RecLen, Tiled, SetLink, Names, At;
    var d' := SetLink(d, o, ino);
    SetLinkHeaders(l, d, starts, o, ino);
    var m := Names(d, starts)[At(d, o).name := ino];
    forall n | n in m
      ensures exists x :: Holds(d', starts, n, x)
    {
      if n == At(d, o).name {
        assert Holds(d', starts, n, o);
      } else {
        var x :| x in starts && Live(d, x) && At(d, x).name == n;
        assert Holds(d', starts, n, x);
      }
    }
    NamesEqual(d', starts, m);
  }
}
