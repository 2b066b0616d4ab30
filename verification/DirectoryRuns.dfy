/** Whole runs of changes to one directory: what they keep, and what the scans then answer. */
module DirectoryRuns {
  import opened Answers
  import opened Bits
  import opened DirectoryLog
  import opened DirectoryInsert
  import opened DirectoryDelete
  import opened DirectoryLaws
  import opened DirectoryScan
  import opened DirectoryResume
  import opened DirectoryRead

  datatype Change =
    | AddName(name: string, ino: nat, prepErr: int)
    | DropAt(at: nat)
    | TurnAt(at: nat, ino: nat)

  /** What the callers see to: an absent name to add, a live record to drop or turn. */
  ghost predicate Permitted(d: Dir, starts: set<nat>, c: Change)
    requires Distinct(d, starts)
  {
    match c
    case AddName(name, ino, _) => GoodName(name) && name !in Names(d, starts) && ino != 0
    case DropAt(o) => o in starts && Live(d, o)
    case TurnAt(o, ino) => o in starts && Live(d, o) && ino != 0
  }

  function Changed(l: Layout, d: Dir, c: Change): Dir
    requires l.page > 0 && l.block > 0
  {
    match c
    case AddName(name, ino, prepErr) => Insert(l, d, name, ino, prepErr).0
    case DropAt(o) => Delete(l, d, o).0
    case TurnAt(o, ino) => SetLink(d, o, ino)
  }

  ghost function ChangedStarts(l: Layout, d: Dir, starts: set<nat>, c: Change): set<nat>
    requires l.page > 0
  {
    match c
    case AddName(name, _, prepErr) => if prepErr == OK then InsertStarts(l, d, starts, name) else starts
    case DropAt(o) => DeleteStarts(l, starts, o)
    case TurnAt(_, _) => starts
  }

  lemma ChangeKeeps(l: Layout, d: Dir, starts: set<nat>, c: Change)
    requires WellFormed(l, d, starts) && Permitted(d, starts, c)
    ensures WellFormed(l, Changed(l, d, c), ChangedStarts(l, d, starts, c)) && Changed(l, d, c).size >= d.size
  {
    hide WellFormed, Insert, InsertStarts, Delete, DeleteStarts, SetLink, Names, Live;
    TiledOf(l, d, starts);
    match c
    case AddName(name, ino, prepErr) => InsertExact(l, d, starts, name, ino, prepErr);
    case DropAt(o) => DeleteExact(l, d, starts, o);
    case TurnAt(o, ino) => SetLinkExact(l, d, starts, o, ino);
  }

  /** cs lead from one directory to the other, each permitted when its turn comes. */
  ghost predicate Runs(l: Layout, d: Dir, starts: set<nat>, cs: seq<Change>, d': Dir, starts': set<nat>)
    decreases |cs|
  {
    if cs == [] then d' == d && starts' == starts
    else
      && WellFormed(l, d, starts) && Permitted(d, starts, cs[0])
      && Runs(l, Changed(l, d, cs[0]), ChangedStarts(l, d, starts, cs[0]), cs[1..], d', starts')
  }

  // ----- no header reaches past its block

  /** Headers that change outside the records do so only to fill a block. */
  lemma BoxedKept(l: Layout, d: Dir, d': Dir, starts': set<nat>)
    requires Boxed(l, d) && WellFormed(l, d', starts')
    requires forall o: nat :: o !in starts' ==>
               At(d', o).recLen == At(d, o).recLen || (IsCut(l, o) && At(d', o).recLen == l.block)
    ensures Boxed(l, d')
  {
    hide WellFormed, IsCut;
    forall o: nat, hi: nat | At(d', o).recLen != 0 && o < hi && IsCut(l, hi)
      ensures Next(d', o) <= hi
    {
      if o in starts' {
        RecordBoxed(l, d', starts', o, hi);
      } else if At(d', o).recLen == At(d, o).recLen {
        assert Next(d, o) <= hi;
      } else {
        CutGap(l, o, hi);
      }
    }
  }

  lemma RecordBoxed(l: Layout, d: Dir, starts: set<nat>, o: nat, hi: nat)
    requires WellFormed(l, d, starts) && o in starts && o < hi && IsCut(l, hi)
    ensures Next(d, o) <= hi
  {
    hide IsCut, Tiled, Distinct;
    RecordFits(l, d, starts, o);
    CutBelow(l, o);
    if hi > o { CutGap(l, o - o % l.block, hi); }
  }

  /** A directory without headers is boxed; so is a new one. */
  lemma NewBoxed(l: Layout, d: Dir, self: nat, parent: nat)
    requires GoodLayout(l) && self != 0 && parent != 0 && d == Dir(0, map[])
    ensures Boxed(l, d) && Boxed(l, MakeEmpty(l, d, self, parent, OK).0)
  {
    hide MakeEmpty, IsCut, RecLen;
    MakeEmptyExact(l, d, self, parent);
    var d' := MakeEmpty(l, d, self, parent, OK).0;
    forall o: nat | o !in {0, 12} ensures At(d', o).recLen == 0 { NewHeaders(l, d, self, parent, o); }
    BoxedKept(l, d, d', {0, 12});
  }

  lemma NewHeaders(l: Layout, d: Dir, self: nat, parent: nat, o: nat)
    requires d == Dir(0, map[]) && o != 0 && o != 12
    ensures At(MakeEmpty(l, d, self, parent, OK).0, o).recLen == 0
  {
  }

  lemma ChangeBoxed(l: Layout, d: Dir, starts: set<nat>, c: Change)
    requires WellFormed(l, d, starts) && Permitted(d, starts, c) && Boxed(l, d)
    ensures Boxed(l, Changed(l, d, c))
  {
    hide WellFormed, Insert, InsertStarts, Delete, DeleteStarts, SetLink, At, Boxed, Names;
    ChangeKeeps(l, d, starts, c);
    TiledOf(l, d, starts);
    match c {
      case AddName(name, ino, prepErr) => InsertHeaders(l, d, starts, name, ino, prepErr);
      case DropAt(o) => DeleteHeaders(l, d, starts, o);
      case TurnAt(o, ino) => TurnHeaders(l, d, o, ino);
    }
    BoxedKept(l, d, Changed(l, d, c), ChangedStarts(l, d, starts, c));
  }

  lemma InsertHeaders(l: Layout, d: Dir, starts: set<nat>, name: string, ino: nat, prepErr: int)
    requires WellFormed(l, d, starts) && GoodName(name)
    ensures var c := AddName(name, ino, prepErr);
            forall o: nat :: o !in ChangedStarts(l, d, starts, c) ==>
              At(Changed(l, d, c), o).recLen == At(d, o).recLen
              || (IsCut(l, o) && At(Changed(l, d, c), o).recLen == l.block)
  {
    hide StopFrom, RecLen, U16, Distinct, IsCut;
    StopFits(l, d, starts, name);
  }

  lemma DeleteHeaders(l: Layout, d: Dir, starts: set<nat>, o: nat)
    requires WellFormed(l, d, starts) && o in starts && Live(d, o)
    ensures forall x: nat :: x !in DeleteStarts(l, starts, o) ==> At(Delete(l, d, o).0, x).recLen == At(d, x).recLen
  {
    hide Walk, U16, Tiled, Distinct, BlockStart, IsCut;
    WalkExact(l, d, starts, o);
  }

  lemma TurnHeaders(l: Layout, d: Dir, o: nat, ino: nat)
    ensures forall x: nat :: At(SetLink(d, o, ino), x).recLen == At(d, x).recLen
  {
  }

  /** Over any run the directory stays well formed and no header reaches past its block. */
  lemma {:induction false} RunKeeps(l: Layout, d: Dir, starts: set<nat>, cs: seq<Change>, d': Dir, starts': set<nat>)
    requires WellFormed(l, d, starts) && Boxed(l, d) && Runs(l, d, starts, cs, d', starts')
    ensures WellFormed(l, d', starts') && Boxed(l, d') && d'.size >= d.size
    decreases |cs|
  {
    hide WellFormed, Boxed, Changed, ChangedStarts, Permitted;
    if cs != [] {
      TiledOf(l, d, starts);
      ChangeKeeps(l, d, starts, cs[0]);
      ChangeBoxed(l, d, starts, cs[0]);
      RunKeeps(l, Changed(l, d, cs[0]), ChangedStarts(l, d, starts, cs[0]), cs[1..], d', starts');
    }
  }

  /** After any run from a new directory, a read from a record on gives the rest exactly when
      the record starts a page or lies in the last one. */
  lemma RunResumes(
    l: Layout, self: nat, parent: nat, cs: seq<Change>, d': Dir, starts': set<nat>, pos: nat, budget: nat)
    requires GoodLayout(l) && self != 0 && parent != 0
    requires Runs(l, MakeEmpty(l, Dir(0, map[]), self, parent, OK).0, {0, 12}, cs, d', starts')
    requires pos in starts' && |LiveFrom(d', pos, d'.size)| <= budget
    ensures Rest(l, d', pos, budget) <==> Lo(pos, l.page) == 0 || d'.size <= PageStart(l, Hi(pos, l.page) + 1)
  {
    hide WellFormed, Boxed, Runs, MakeEmpty, Rest, PageStart, Hi, Lo;
    MakeEmptyExact(l, Dir(0, map[]), self, parent);
    NewBoxed(l, Dir(0, map[]), self, parent);
    RunKeeps(l, MakeEmpty(l, Dir(0, map[]), self, parent, OK).0, {0, 12}, cs, d', starts');
    ResumeExact(l, d', starts', pos, budget);
  }

  // ----- no dead record

  /** No deletion of the run is of an entry that starts a block. */
  predicate SparesHeads(l: Layout, cs: seq<Change>) {
    forall k :: 0 <= k < |cs| && cs[k].DropAt? ==> !IsCut(l, cs[k].at)
  }

  lemma ChangeStaysAlive(l: Layout, d: Dir, starts: set<nat>, c: Change)
    requires WellFormed(l, d, starts) && Permitted(d, starts, c) && NoDead(d, starts)
    requires c.DropAt? ==> !IsCut(l, c.at)
    ensures NoDead(Changed(l, d, c), ChangedStarts(l, d, starts, c))
  {
    hide WellFormed, Insert, InsertStarts, Delete, DeleteStarts, SetLink, Names, IsCut;
    TiledOf(l, d, starts);
    match c
    case AddName(name, ino, prepErr) =>
      InsertExact(l, d, starts, name, ino, prepErr);
      if prepErr == OK { InsertStaysAlive(l, d, starts, name, ino); }
    case DropAt(o) => AliveExact(l, d, starts, o);
    case TurnAt(o, ino) => SetLinkExact(l, d, starts, o, ino);
  }

  lemma {:induction false} RunStaysAlive(
    l: Layout, d: Dir, starts: set<nat>, cs: seq<Change>, d': Dir, starts': set<nat>)
    requires WellFormed(l, d, starts) && NoDead(d, starts) && Runs(l, d, starts, cs, d', starts') && SparesHeads(l, cs)
    ensures WellFormed(l, d', starts') && NoDead(d', starts') && d'.size >= d.size
    decreases |cs|
  {
    hide WellFormed, NoDead, Changed, ChangedStarts, Permitted, IsCut;
    if cs != [] {
      TiledOf(l, d, starts);
      ChangeKeeps(l, d, starts, cs[0]);
      ChangeStaysAlive(l, d, starts, cs[0]);
      RunStaysAlive(l, Changed(l, d, cs[0]), ChangedStarts(l, d, starts, cs[0]), cs[1..], d', starts');
    }
  }

  /** A run that ends with one block has spared the starts of blocks when it has spared the
      first entry. */
  lemma {:induction false} OneBlockSpares(
    l: Layout, d: Dir, starts: set<nat>, cs: seq<Change>, d': Dir, starts': set<nat>)
    requires WellFormed(l, d, starts) && Runs(l, d, starts, cs, d', starts') && d'.size == l.block
    requires forall k :: 0 <= k < |cs| && cs[k].DropAt? ==> cs[k].at != 0
    ensures SparesHeads(l, cs) && d.size <= d'.size
    decreases |cs|
  {
    hide WellFormed, Changed, ChangedStarts, IsCut, Names;
    if cs != [] {
      TiledOf(l, d, starts);
      ChangeKeeps(l, d, starts, cs[0]);
      OneBlockSpares(l, Changed(l, d, cs[0]), ChangedStarts(l, d, starts, cs[0]), cs[1..], d', starts');
      if cs[0].DropAt? { HeadIsFirst(l, d, starts, cs[0].at); }
      assert forall k :: 0 < k < |cs| ==> cs[k] == cs[1..][k - 1];
    }
  }

  lemma HeadIsFirst(l: Layout, d: Dir, starts: set<nat>, o: nat)
    requires WellFormed(l, d, starts) && o in starts && d.size <= l.block && o != 0
    ensures !IsCut(l, o)
  {
    hide IsCut, Tiled, Distinct;
    InsideWF(l, d, starts, o);
    CutZero(l);
    if IsCut(l, o) { CutGap(l, 0, o); }
  }

  /** After any run from a new directory that has stayed within one block and never deletes
      the first entry, ".", the emptiness test answers. */
  lemma OneBlockAnswers(l: Layout, self: nat, parent: nat, cs: seq<Change>, d': Dir, starts': set<nat>)
    requires GoodLayout(l) && self != 0 && parent != 0 && d'.size == l.block
    requires Runs(l, MakeEmpty(l, Dir(0, map[]), self, parent, OK).0, {0, 12}, cs, d', starts')
    requires forall k :: 0 <= k < |cs| && cs[k].DropAt? ==> cs[k].at != 0
    ensures EmptyFrom(l, d', self, 0) != Stuck
  {
    hide WellFormed, Runs, MakeEmpty, EmptyFrom, FirstOdd, Judges;
    var d := MakeEmpty(l, Dir(0, map[]), self, parent, OK).0;
    MakeEmptyExact(l, Dir(0, map[]), self, parent);
    NewAlive(d, self, parent);
    OneBlockSpares(l, d, {0, 12}, cs, d', starts');
    RunStaysAlive(l, d, {0, 12}, cs, d', starts');
    AliveAnswers(l, d', starts', self);
  }

  lemma NewAlive(d: Dir, self: nat, parent: nat)
    requires HasDots(d, {0, 12}, self, parent)
    ensures NoDead(d, {0, 12})
  {
  }

  lemma AliveAnswers(l: Layout, d: Dir, starts: set<nat>, self: nat)
    requires WellFormed(l, d, starts) && NoDead(d, starts)
    ensures EmptyFrom(l, d, self, 0) != Stuck
  {
    hide WellFormed, EmptyFrom;
    StuckExact(l, d, starts, self);
  }
}
