/** Enumeration: what a caller with room for so many entries is given, and where the next
    call goes on. */
module DirectoryRead {
  import opened Bits
  import opened DirectoryLog
  import opened DirectoryInsert
  import opened DirectoryDelete

  type Entry = (string, nat)

  /** The entries emitted, the position, the entries the emitter still accepts, and whether
      no corrupt record was met. */
  datatype Cursor = Cursor(out: seq<Entry>, pos: nat, budget: nat, ok: bool)

  function EntryAt(d: Dir, o: nat): Entry {
    (At(d, o).name, At(d, o).ino)
  }

  /** A refusal leaves the page without moving the position. */
  function EmitInPage(d: Dir, o: nat, end: int, c: Cursor): Cursor
    decreases end + 1 - o
  {
    if o > end then c
    else if At(d, o).recLen == 0 then c.(ok := false)
    else if !Live(d, o) then EmitInPage(d, Next(d, o), end, c.(pos := c.pos + At(d, o).recLen))
    else if c.budget == 0 then c
    else EmitInPage(d, Next(d, o), end,
                    Cursor(c.out + [EntryAt(d, o)], c.pos + At(d, o).recLen, c.budget - 1, c.ok))
  }

  /** The offset a read starts with is used again in every later page. */
  function EmitFrom(l: Layout, d: Dir, page: nat, offset: nat, c: Cursor): Cursor
    requires l.page > 0
    decreases NumPages(l, d.size) - page
  {
    if page >= NumPages(l, d.size) || !c.ok then c
    else EmitFrom(l, d, page + 1, offset,
                  EmitInPage(d, PageStart(l, page) + offset, PageEnd(l, d.size, page) - MIN_REC, c))
  }

  function ReadDir(l: Layout, d: Dir, pos: nat, budget: nat): Cursor
    requires l.page > 0
  {
    var c := Cursor([], pos, budget, true);
    if d.size - MIN_REC < pos then c else EmitFrom(l, d, Hi(pos, l.page), Lo(pos, l.page), c)
  }

  // ----- one pass from the start

  /** The live records of [lo, hi) in order. */
  function LiveFrom(d: Dir, lo: nat, hi: nat): seq<nat>
    decreases hi - lo
  {
    if lo >= hi || At(d, lo).recLen == 0 then []
    else (if Live(d, lo) then [lo] else []) + LiveFrom(d, Next(d, lo), hi)
  }

  function Entries(d: Dir, offs: seq<nat>): seq<Entry> {
    seq(|offs|, i requires 0 <= i < |offs| => EntryAt(d, offs[i]))
  }

  predicate Ascending(s: seq<nat>) {
    forall i, j :: 0 <= i < j < |s| ==> s[i] < s[j]
  }

  /** They are all the live records there, each once. */
  lemma {:induction false} LiveFromExact(l: Layout, d: Dir, starts: set<nat>, lo: nat, hi: nat)
    requires WellFormed(l, d, starts) && hi <= d.size && (hi == d.size || hi in starts)
    requires lo == hi || (lo in starts && lo < hi)
    ensures Ascending(LiveFrom(d, lo, hi))
    ensures forall x :: x in LiveFrom(d, lo, hi) <==> x in starts && lo <= x < hi && Live(d, x)
    decreases hi - lo
  {
    hide IsCut, Distinct;
    if lo < hi {
      GrowsBy(l, d, starts, lo);
      assert Next(d, lo) <= hi;
      LiveFromExact(l, d, starts, Next(d, lo), hi);
      var rest := LiveFrom(d, Next(d, lo), hi);
      assert forall i :: 0 <= i < |rest| ==> rest[i] in rest;
    }
  }

  lemma {:induction false} LiveFromJoin(l: Layout, d: Dir, starts: set<nat>, lo: nat, mid: nat, hi: nat)
    requires WellFormed(l, d, starts) && mid <= hi <= d.size && (mid == d.size || mid in starts)
    requires lo == mid || (lo in starts && lo < mid)
    ensures LiveFrom(d, lo, mid) + LiveFrom(d, mid, hi) == LiveFrom(d, lo, hi)
    decreases mid - lo
  {
    hide IsCut, Distinct;
    if lo < mid {
      GrowsBy(l, d, starts, lo);
      assert Next(d, lo) <= mid;
      LiveFromJoin(l, d, starts, Next(d, lo), mid, hi);
    }
  }

  lemma {:induction false} EmitPage(l: Layout, d: Dir, starts: set<nat>, o: nat, hi: nat, c: Cursor)
    requires WellFormed(l, d, starts) && hi <= d.size && (hi == d.size || hi in starts)
    requires o == hi || (o in starts && o < hi)
    requires |LiveFrom(d, o, hi)| <= c.budget && c.ok
    ensures EmitInPage(d, o, hi - MIN_REC, c)
         == Cursor(c.out + Entries(d, LiveFrom(d, o, hi)), c.pos + (hi - o), c.budget - |LiveFrom(d, o, hi)|, true)
    decreases hi - o
  {
    hide IsCut, Distinct;
    if o < hi {
      GrowsBy(l, d, starts, o);
      assert Next(d, o) <= hi;
      var rest := LiveFrom(d, Next(d, o), hi);
      var c' := if Live(d, o) then Cursor(c.out + [EntryAt(d, o)], c.pos + At(d, o).recLen, c.budget - 1, true)
                else c.(pos := c.pos + At(d, o).recLen);
      EmitPage(l, d, starts, Next(d, o), hi, c');
      assert Live(d, o) ==> Entries(d, [o] + rest) == [EntryAt(d, o)] + Entries(d, rest);
    } else {
      assert Entries(d, []) == [];
    }
  }

  lemma {:induction false} EmitPages(l: Layout, d: Dir, starts: set<nat>, page: nat, c: Cursor)
    requires WellFormed(l, d, starts) && PageStart(l, page) <= d.size
    requires |LiveFrom(d, PageStart(l, page), d.size)| <= c.budget && c.ok && c.pos == PageStart(l, page)
    ensures var r := EmitFrom(l, d, page, 0, c);
            r.ok && r.pos == d.size && r.out == c.out + Entries(d, LiveFrom(d, PageStart(l, page), d.size))
    decreases NumPages(l, d.size) - page
  {
    hide IsCut, Tiled, Distinct, NumPages, PageEnd, PageStart, EmitInPage, LiveFrom;
    PageCount(l, d.size, page);
    var lo := PageStart(l, page);
    if page < NumPages(l, d.size) {
      var hi := PageEnd(l, d.size, page);
      PageRange(l, d, starts, page);
      LiveFromJoin(l, d, starts, lo, hi, d.size);
      EmitPage(l, d, starts, lo, hi, c);
      var c' := EmitInPage(d, lo, hi - MIN_REC, c);
      var a, b := LiveFrom(d, lo, hi), LiveFrom(d, hi, d.size);
      assert Entries(d, a) + Entries(d, b) == Entries(d, a + b);
      if hi == PageStart(l, page + 1) {
        EmitPages(l, d, starts, page + 1, c');
      } else {
        PageCount(l, d.size, page + 1);
        NothingLive(d, d.size);
      }
    } else {
      NothingLive(d, d.size);
    }
  }

  lemma NothingLive(d: Dir, o: nat)
    ensures LiveFrom(d, o, o) == [] && Entries(d, []) == []
  {
  }

  /** A read from position 0 with an emitter that never refuses gives every live entry
      exactly once, in record order, and ends at the directory's size. */
  lemma ReadAll(l: Layout, d: Dir, starts: set<nat>, budget: nat)
    requires WellFormed(l, d, starts) && |LiveFrom(d, 0, d.size)| <= budget
    ensures var c := ReadDir(l, d, 0, budget);
            && c.ok && c.pos == d.size && c.out == Entries(d, LiveFrom(d, 0, d.size))
            && Ascending(LiveFrom(d, 0, d.size))
            && forall x :: x in LiveFrom(d, 0, d.size) <==> x in starts && Live(d, x)
  {
    hide IsCut, Tiled, Distinct, NumPages, PageEnd, PageStart, EmitFrom, LiveFrom, Hi, Lo;
    PageCut(l, 0);
    DivModZero(l.page);
    if d.size > 0 {
      FirstRecord(l, d, starts);
      LiveFromExact(l, d, starts, 0, d.size);
      EmitPages(l, d, starts, 0, Cursor([], 0, budget, true));
    } else {
      NothingLive(d, 0);
      LiveFromExact(l, d, starts, 0, 0);
    }
    forall x | x in starts ensures x < d.size { InsideWF(l, d, starts, x); }
  }

  /** Its entries are the bindings of the table, each once: with as many as the table has names,
      and each of them one of the table's. */
  lemma ReadTable(l: Layout, d: Dir, starts: set<nat>, budget: nat)
    requires WellFormed(l, d, starts) && |LiveFrom(d, 0, d.size)| <= budget
    ensures var out, names := ReadDir(l, d, 0, budget).out, Names(d, starts);
            && (forall k :: 0 <= k < |out| ==> out[k].0 in names && names[out[k].0] == out[k].1)
            && (forall n :: n in names ==> exists k :: 0 <= k < |out| && out[k] == (n, names[n]))
            && (forall j, k :: 0 <= j < k < |out| ==> out[j].0 != out[k].0)
  {
    hide WellFormed, ReadDir, LiveFrom, Names, Live, At;
    GoodDir(l, d, starts);
    ReadAll(l, d, starts, budget);
    var offs, names := LiveFrom(d, 0, d.size), Names(d, starts);
    var out := ReadDir(l, d, 0, budget).out;
    assert forall k :: 0 <= k < |out| ==> out[k] == (At(d, offs[k]).name, At(d, offs[k]).ino) && offs[k] in offs;
    forall n | n in names ensures exists k :: 0 <= k < |out| && out[k] == (n, names[n]) {
      var o :| o in starts && Live(d, o) && At(d, o).name == n;
      assert o in offs;
      var k :| 0 <= k < |offs| && offs[k] == o;
      assert out[k] == (n, names[n]);
    }
    forall j, k | 0 <= j < k < |out| ensures out[j].0 != out[k].0 {
      SameRecord(d, starts, offs[j], offs[k]);
    }
  }

  lemma SameRecord(d: Dir, starts: set<nat>, o: nat, p: nat)
    requires Distinct(d, starts) && o in starts && p in starts && Live(d, o) && Live(d, p)
    ensures At(d, o).name == At(d, p).name ==> o == p
  {
  }

  lemma DivModZero(n: nat)
    requires n > 0
    ensures Hi(0, n) == 0 && Lo(0, n) == 0
  {
  }

  lemma FirstRecord(l: Layout, d: Dir, starts: set<nat>)
    requires WellFormed(l, d, starts) && d.size > 0
    ensures 0 in starts && d.size >= l.block
  {
    CutZero(l);
    CutGap(l, 0, d.size);
  }

  // ----- refusals

  /** Within a page, going on where a refusal stopped gives what a more patient emitter
      would have been given at once. */
  lemma {:induction false} ResumeInPage(d: Dir, o: nat, end: int, out: seq<Entry>, b1: nat, b2: nat)
    ensures var c1 := EmitInPage(d, o, end, Cursor(out, o, b1, true));
            var c2 := EmitInPage(d, c1.pos, end, c1.(budget := b2));
            var c := EmitInPage(d, o, end, Cursor(out, o, b1 + b2, true));
            c1.ok ==> c2.out == c.out && c2.pos == c.pos && c2.ok == c.ok
    decreases end + 1 - o
  {
    if o <= end && At(d, o).recLen != 0 {
      if !Live(d, o) {
        ResumeInPage(d, Next(d, o), end, out, b1, b2);
      } else if b1 > 0 {
        ResumeInPage(d, Next(d, o), end, out + [EntryAt(d, o)], b1 - 1, b2);
      }
    }
  }

  lemma {:induction false} EmitAppends(d: Dir, o: nat, end: int, c: Cursor)
    ensures var r := EmitInPage(d, o, end, c);
            r == EmitInPage(d, o, end, c.(out := [])).(out := c.out + EmitInPage(d, o, end, c.(out := [])).out)
    decreases end + 1 - o
  {
    if o <= end && At(d, o).recLen != 0 {
      if !Live(d, o) {
        EmitAppends(d, Next(d, o), end, c.(pos := c.pos + At(d, o).recLen));
      } else if c.budget > 0 {
        var e := [EntryAt(d, o)];
        EmitAppends(d, Next(d, o), end, Cursor(c.out + e, c.pos + At(d, o).recLen, c.budget - 1, c.ok));
        EmitAppends(d, Next(d, o), end, Cursor([] + e, c.pos + At(d, o).recLen, c.budget - 1, c.ok));
      }
    }
  }

  /** A read of a directory that fits one page is the scan of that page. */
  lemma OnePage(l: Layout, d: Dir, pos: nat, budget: nat)
    requires l.page > 0 && 0 < d.size <= l.page
    ensures ReadDir(l, d, pos, budget) == EmitInPage(d, pos, d.size - MIN_REC, Cursor([], pos, budget, true))
  {
    hide NumPages, EmitInPage, Hi, Lo;
    PageCount(l, d.size, 0);
    PageCount(l, d.size, 1);
    JoinDigits(l.page, 0, 0, 1);
    assert PageStart(l, 0) == 0 && PageStart(l, 1) == l.page;
    if pos <= d.size - MIN_REC {
      JoinDigits(l.page, 0, pos, 1);
      assert Join(l.page, 0, pos) == pos;
      var c := Cursor([], pos, budget, true);
      var c' := EmitInPage(d, pos, d.size - MIN_REC, c);
      assert PageEnd(l, d.size, 0) == d.size;
      assert EmitFrom(l, d, 1, pos, c') == c';
      assert EmitFrom(l, d, 0, pos, c) == EmitFrom(l, d, 1, pos, c');
    } else {
      EmitPast(d, pos, d.size - MIN_REC, Cursor([], pos, budget, true));
    }
  }

  lemma EmitPast(d: Dir, o: nat, end: int, c: Cursor)
    requires o > end
    ensures EmitInPage(d, o, end, c) == c
  {
  }

  /** In a directory of one page, the pieces read with refusals in between join to what one
      read with the sum of the room gives, and end at the same position. */
  lemma ReadResumes(l: Layout, d: Dir, pos: nat, b1: nat, b2: nat)
    requires l.page > 0 && 0 < d.size <= l.page
    requires ReadDir(l, d, pos, b1).ok
    ensures var c1 := ReadDir(l, d, pos, b1);
            var c2 := ReadDir(l, d, c1.pos, b2);
            var c := ReadDir(l, d, pos, b1 + b2);
            c1.out + c2.out == c.out && c2.pos == c.pos && c2.ok == c.ok
  {
    hide EmitInPage, ReadDir;
    OnePage(l, d, pos, b1);
    OnePage(l, d, pos, b1 + b2);
    var c1 := ReadDir(l, d, pos, b1);
    OnePage(l, d, c1.pos, b2);
    ResumeInPage(d, pos, d.size - MIN_REC, [], b1, b2);
    EmitAppends(d, c1.pos, d.size - MIN_REC, c1.(budget := b2));
  }

  /** Two pages of one block each: ".", ".." and "a" fill the first, "b" the second. */
  function TwoPages(): Dir {
    Dir(2048, map[0 := Dirent(2, 12, "."), 12 := Dirent(2, 12, ".."), 24 := Dirent(11, 1000, "a"),
                  1024 := Dirent(12, 1024, "b")])
  }

  lemma TwoPagesRecords(d: Dir)
    requires d == TwoPages()
    ensures d.size == 2048 && At(d, 0) == Dirent(2, 12, ".") && At(d, 12) == Dirent(2, 12, "..")
    ensures At(d, 24) == Dirent(11, 1000, "a") && At(d, 1024) == Dirent(12, 1024, "b") && At(d, 1036).recLen == 0
  {
  }

  lemma TwoPagesTile(l: Layout, d: Dir)
    requires l == Layout(1024, 1024) && d == TwoPages()
    ensures WellFormed(l, d, {0, 12, 24, 1024})
  {
    hide At, TwoPages, RecLen;
    TwoPagesRecords(d);
    assert RecLen(1) == 12 && RecLen(2) == 12 by { DotLengths(); }
  }

  lemma TwoPagesNumbers(l: Layout, size: nat)
    requires l.page == 1024 && size == 2048
    ensures NumPages(l, size) == 2 && PageEnd(l, size, 0) == 1024 && PageEnd(l, size, 1) == 2048
    ensures PageStart(l, 0) == 0 && PageStart(l, 1) == 1024
  {
  }

  lemma OffsetsInPage(page: nat)
    requires page == 1024
    ensures Hi(0, page) == 0 && Lo(0, page) == 0 && Hi(12, page) == 0 && Lo(12, page) == 12
  {
  }

  /** The scans of the pages of that directory, for a caller with room for one entry and
      for the one that comes back. */
  lemma TwoPagesScans(d: Dir)
    requires d == TwoPages()
    ensures var b, g := Cursor([(".", 2)], 12, 0, true), Cursor([("..", 2), ("a", 11)], 1024, 7, true);
            && EmitInPage(d, 0, 1012, Cursor([], 0, 1, true)) == b
            && EmitInPage(d, 1024, 2036, b) == b
            && EmitInPage(d, 12, 1012, Cursor([], 12, 9, true)) == g
            && EmitInPage(d, 1036, 2036, g) == g.(ok := false)
  {
    hide At, TwoPages;
    TwoPagesRecords(d);
    var b, g := Cursor([(".", 2)], 12, 0, true), Cursor([("..", 2), ("a", 11)], 1024, 7, true);
    assert EmitInPage(d, 12, 1012, b) == b;
    assert EmitInPage(d, 1024, 1012, g) == g;
    assert EmitInPage(d, 24, 1012, Cursor([("..", 2)], 24, 8, true)) == g;
  }

  /** Across pages the promise fails: a caller that took one entry of these two pages and
      comes back for the rest is told of an I/O error before "b", for the read then looks
      for a record twelve bytes into the second page. */
  lemma ResumeAcrossPagesFails(l: Layout, d: Dir)
    requires l == Layout(1024, 1024) && d == TwoPages()
    ensures WellFormed(l, d, {0, 12, 24, 1024})
    ensures ReadDir(l, d, 0, 1) == Cursor([(".", 2)], 12, 0, true)
    ensures ReadDir(l, d, 12, 9) == Cursor([("..", 2), ("a", 11)], 1024, 7, false)
  {
    hide WellFormed, EmitInPage, At, TwoPages, NumPages, PageEnd, PageStart, Hi, Lo;
    TwoPagesRecords(d);
    TwoPagesTile(l, d);
    TwoPagesScans(d);
    TwoPagesNumbers(l, d.size);
    OffsetsInPage(l.page);
    var b, g := Cursor([(".", 2)], 12, 0, true), Cursor([("..", 2), ("a", 11)], 1024, 7, true);
    assert EmitFrom(l, d, 2, 0, b) == b;
    assert EmitFrom(l, d, 1, 0, b) == b;
    assert EmitFrom(l, d, 2, 12, g.(ok := false)) == g.(ok := false);
    assert EmitFrom(l, d, 1, 12, g) == g.(ok := false);
  }
}
