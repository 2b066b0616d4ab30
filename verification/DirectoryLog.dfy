/** A directory as a log of records: a byte area cut into blocks, each block tiled by
    records of varying length. The area is given by the record headers at byte offsets. */
module DirectoryLog {
  import opened Bits

  const MIN_REC: nat := 12
  const NAME_MAX: nat := 255

  /** A record header with its name; inode 0 marks a dead record. */
  datatype Dirent = Dirent(ino: nat, recLen: nat, name: string)

  /** Blocks divide pages; both are multiples of four. */
  datatype Layout = Layout(block: nat, page: nat)

  /** `area[o]`: the header at byte o of the directory; bytes never written read as 0. */
  datatype Dir = Dir(size: nat, area: map<nat, Dirent>)

  function At(d: Dir, o: nat): Dirent {
    if o in d.area then d.area[o] else Dirent(0, 0, "")
  }

  /** The bytes a record with a name of this length needs. */
  function RecLen(nameLen: nat): (r: nat)
    ensures nameLen + 8 <= r < nameLen + 12 && r % 4 == 0
  {
    (nameLen + 8 + 3) / 4 * 4
  }

  lemma DotLengths()
    ensures RecLen(1) == 12 && RecLen(2) == 12
  {
  }

  predicate Live(d: Dir, o: nat) {
    At(d, o).ino != 0
  }

  /** The record can hold what it holds. */
  predicate GoodRecord(r: Dirent) {
    && r.recLen >= MIN_REC && r.recLen % 4 == 0
    && (r.ino != 0 ==> 1 <= |r.name| <= NAME_MAX && RecLen(|r.name|) <= r.recLen)
  }

  function Next(d: Dir, o: nat): nat {
    o + At(d, o).recLen
  }

  predicate IsCut(l: Layout, o: nat) {
    l.block > 0 && o % l.block == 0
  }

  predicate GoodLayout(l: Layout) {
    1024 <= l.block < 0x1_0000 && l.block % 4 == 0 && l.page > 0 && l.page % l.block == 0
  }

  /** The records starting at `starts` tile the directory: each ends where the next one
      starts, none overlaps another, and every block starts with a record. */
  ghost predicate Tiled(l: Layout, d: Dir, starts: set<nat>) {
    && IsCut(l, d.size)
    && (forall c: nat {:trigger IsCut(l, c)} :: c < d.size && IsCut(l, c) ==> c in starts)
    && (forall o {:trigger Next(d, o)} :: o in starts ==>
          GoodRecord(At(d, o)) && Next(d, o) <= d.size && (Next(d, o) == d.size || Next(d, o) in starts))
    && (forall o, p {:trigger Next(d, o), p in starts} :: o in starts && p in starts && o < p ==> Next(d, o) <= p)
  }

  /** No two live records have one name. */
  ghost predicate Distinct(d: Dir, starts: set<nat>) {
    forall o, p :: o in starts && p in starts && Live(d, o) && Live(d, p) && At(d, o).name == At(d, p).name ==> o == p
  }

  ghost predicate WellFormed(l: Layout, d: Dir, starts: set<nat>) {
    GoodLayout(l) && Tiled(l, d, starts) && Distinct(d, starts)
  }

  /** What the directory means: its live names and the inodes they name. */
  ghost function Names(d: Dir, starts: set<nat>): (m: map<string, nat>)
    requires Distinct(d, starts)
    ensures forall o :: o in starts && Live(d, o) ==> At(d, o).name in m && m[At(d, o).name] == At(d, o).ino
    ensures forall n :: n in m ==> exists o :: o in starts && Live(d, o) && At(d, o).name == n
  {
    map o | o in starts && Live(d, o) :: At(d, o).name := At(d, o).ino
  }

  /** o is the live record of this name. */
  ghost predicate Holds(d: Dir, starts: set<nat>, name: string, o: nat) {
    o in starts && Live(d, o) && At(d, o).name == name
  }

  /** Two tables with one set of entries are equal. */
  lemma NamesEqual(d: Dir, starts: set<nat>, m: map<string, nat>)
    requires Distinct(d, starts)
    requires forall o :: o in starts && Live(d, o) ==> At(d, o).name in m && m[At(d, o).name] == At(d, o).ino
    requires forall n :: n in m ==> exists o :: Holds(d, starts, n, o)
    ensures Names(d, starts) == m
  {
    var t := Names(d, starts);
    forall n ensures n in t <==> n in m {
      if n in t {
        var o :| o in starts && Live(d, o) && At(d, o).name == n;
      }
    }
  }

  lemma HoldsUnique(d: Dir, starts: set<nat>, name: string)
    requires Distinct(d, starts)
    ensures name in Names(d, starts) <==> exists o :: Holds(d, starts, name, o)
    ensures forall o :: Holds(d, starts, name, o) ==> Names(d, starts)[name] == At(d, o).ino
  {
    if name in Names(d, starts) {
      var o :| o in starts && Live(d, o) && At(d, o).name == name;
      assert Holds(d, starts, name, o);
    }
  }

  // ----- block and page arithmetic

  lemma CutZero(l: Layout)
    requires l.block > 0
    ensures IsCut(l, 0)
  {
  }

  /** Distinct block starts are at least a block apart. */
  lemma CutGap(l: Layout, a: nat, b: nat)
    requires IsCut(l, a) && IsCut(l, b) && a < b
    ensures a + l.block <= b
  {
    var q, r := a / l.block, b / l.block;
    assert a == q * l.block && b == r * l.block;
    if r <= q {
      MulMono(r, q, l.block);
    }
    MulMono(q + 1, r, l.block);
    assert (q + 1) * l.block == q * l.block + l.block;
  }

  lemma CutNext(l: Layout, a: nat)
    requires IsCut(l, a)
    ensures IsCut(l, a + l.block)
  {
    var q := a / l.block;
    assert a + l.block == (q + 1) * l.block;
    DivModUnique(a + l.block, l.block, q + 1, 0);
  }

  /** The start of the block a byte lies in. */
  lemma CutBelow(l: Layout, o: nat)
    requires l.block > 0
    ensures o % l.block <= o && IsCut(l, o - o % l.block) && o < o - o % l.block + l.block
  {
    var q := o / l.block;
    assert o == q * l.block + o % l.block;
    MulMono(0, q, l.block);
    DivModUnique(o - o % l.block, l.block, q, 0);
  }

  function PageStart(l: Layout, page: nat): nat {
    Join(l.page, page, 0)
  }

  lemma PageCut(l: Layout, page: nat)
    requires GoodLayout(l)
    ensures IsCut(l, PageStart(l, page)) && PageStart(l, page + 1) == PageStart(l, page) + l.page
    ensures page == 0 ==> PageStart(l, page) == 0
    ensures l.page >= l.block
  {
    var k := l.page / l.block;
    assert l.page == k * l.block;
    assert page * l.page == (page * k) * l.block;
    DivModUnique(page * l.page, l.block, page * k, 0);
    MulMono(1, k, l.block);
    assert (page + 1) * l.page == page * l.page + l.page;
  }

  /** The number of pages a directory takes. */
  function NumPages(l: Layout, size: nat): nat
    requires l.page > 0
  {
    Hi(size + l.page - 1, l.page)
  }

  lemma PageCount(l: Layout, size: nat, page: nat)
    requires l.page > 0
    ensures page < NumPages(l, size) <==> PageStart(l, page) < size
  {
    var x, p := size + l.page - 1, l.page;
    assert x == x / p * p + x % p;
    if page < x / p {
      MulMono(page + 1, x / p, p);
      assert (page + 1) * p == page * p + p;
    } else {
      MulMono(x / p, page, p);
    }
  }

  /** How many bytes of a page lie in the directory. The source subtracts unsigned
      numbers: past the end the difference wraps to more than any page. */
  function PageBytes(l: Layout, size: nat, page: nat): (r: nat)
    ensures r <= l.page
  {
    var last := size - PageStart(l, page);
    if last < 0 || last > l.page then l.page else last
  }

  /** Where the bytes of a page that lie in the directory end. */
  function PageEnd(l: Layout, size: nat, page: nat): nat {
    PageStart(l, page) + PageBytes(l, size, page)
  }

  // ----- finding a name

  datatype Scan = Hit(at: nat) | Miss | Corrupt

  predicate Matches(d: Dir, o: nat, name: string) {
    |name| == |At(d, o).name| && Live(d, o) && At(d, o).name == name
  }

  /** The scan of one page from o on; a record after `end` is too near the end of the page
      to hold the name. */
  function FindInPage(d: Dir, name: string, o: nat, end: int): Scan
    decreases end + 1 - o
  {
    if o > end then Miss
    else if At(d, o).recLen == 0 then Corrupt
    else if Matches(d, o, name) then Hit(o)
    else FindInPage(d, name, Next(d, o), end)
  }

  function FindFrom(l: Layout, d: Dir, name: string, page: nat): Scan
    requires l.page > 0
    decreases NumPages(l, d.size) - page
  {
    if page >= NumPages(l, d.size) then Miss
    else
      var r := FindInPage(d, name, PageStart(l, page), PageEnd(l, d.size, page) - RecLen(|name|));
      if r == Miss then FindFrom(l, d, name, page + 1) else r
  }

  function Find(l: Layout, d: Dir, name: string): Scan
    requires l.page > 0
  {
    FindFrom(l, d, name, 0)
  }

  /** What a scan owes for the records in [lo, hi). */
  ghost predicate Finds(d: Dir, starts: set<nat>, name: string, lo: nat, hi: nat, r: Scan) {
    match r
    case Hit(at) => lo <= at < hi && Holds(d, starts, name, at)
    case Miss => forall x :: lo <= x < hi ==> !Holds(d, starts, name, x)
    case Corrupt => false
  }

  /** Within a page the early end of the scan loses no record of the name. */
  lemma {:induction false} FindInPageFinds(l: Layout, d: Dir, starts: set<nat>, name: string, o: nat, hi: nat)
    requires WellFormed(l, d, starts) && hi <= d.size && (hi == d.size || hi in starts)
    requires o == hi || (o in starts && o < hi)
    ensures Finds(d, starts, name, o, hi, FindInPage(d, name, o, hi - RecLen(|name|)))
    decreases hi - o
  {
    hide RecLen, IsCut;
    forall x | o <= x < hi && Holds(d, starts, name, x)
      ensures x <= hi - RecLen(|name|) && (x == o || Next(d, o) <= x)
    {
      assert GoodRecord(At(d, x)) && Next(d, x) <= hi;
    }
    if o < hi && o <= hi - RecLen(|name|) && !Matches(d, o, name) {
      FindInPageFinds(l, d, starts, name, Next(d, o), hi);
    }
  }

  /** The end of a page's part of a directory: the directory's end or a later page. */
  lemma PageRange(l: Layout, d: Dir, starts: set<nat>, page: nat)
    requires WellFormed(l, d, starts) && PageStart(l, page) < d.size
    ensures PageStart(l, page) in starts && PageStart(l, page) < PageEnd(l, d.size, page) <= d.size
    ensures PageEnd(l, d.size, page) == d.size
            || (PageEnd(l, d.size, page) in starts && PageEnd(l, d.size, page) == PageStart(l, page + 1))
    ensures PageEnd(l, d.size, page) == d.size ==> d.size <= PageStart(l, page + 1)
  {
    hide IsCut, PageStart, Distinct;
    PageCut(l, page);
    PageCut(l, page + 1);
  }

  /** Finding a name, from some page on, gives its record, or nothing when it has none. */
  lemma {:induction false} FindFromFinds(l: Layout, d: Dir, starts: set<nat>, name: string, page: nat)
    requires WellFormed(l, d, starts)
    ensures Finds(d, starts, name, PageStart(l, page), d.size, FindFrom(l, d, name, page))
    decreases NumPages(l, d.size) - page
  {
    hide IsCut, PageStart, Tiled, Distinct, Finds, NumPages, FindInPage, PageEnd;
    PageCount(l, d.size, page);
    if page < NumPages(l, d.size) {
      var hi := PageEnd(l, d.size, page);
      PageRange(l, d, starts, page);
      FindInPageFinds(l, d, starts, name, PageStart(l, page), hi);
      FindFromFinds(l, d, starts, name, page + 1);
      FindsJoin(d, starts, name, PageStart(l, page), hi, PageStart(l, page + 1), d.size,
                FindInPage(d, name, PageStart(l, page), hi - RecLen(|name|)), FindFrom(l, d, name, page + 1));
    } else {
      FindsNothing(d, starts, name, PageStart(l, page), d.size);
    }
  }

  lemma FindsNothing(d: Dir, starts: set<nat>, name: string, lo: nat, hi: nat)
    requires hi <= lo
    ensures Finds(d, starts, name, lo, hi, Miss)
  {
  }

  lemma FindsJoin(d: Dir, starts: set<nat>, name: string, lo: nat, mid: nat, mid': nat, hi: nat, a: Scan, b: Scan)
    requires lo <= mid <= hi && (mid == mid' || (mid == hi && hi <= mid'))
    requires Finds(d, starts, name, lo, mid, a) && Finds(d, starts, name, mid', hi, b)
    ensures Finds(d, starts, name, lo, hi, if a == Miss then b else a)
  {
  }

  /** On a well-formed directory a name is found exactly when it is live, at its record. */
  lemma FindExact(l: Layout, d: Dir, starts: set<nat>, name: string)
    requires WellFormed(l, d, starts)
    ensures match Find(l, d, name)
            case Hit(o) =>
              Holds(d, starts, name, o) && name in Names(d, starts) && Names(d, starts)[name] == At(d, o).ino
            case Miss => name !in Names(d, starts)
            case Corrupt => false
  {
    hide IsCut, PageStart, Tiled, NumPages;
    PageCut(l, 0);
    FindFromFinds(l, d, starts, name, 0);
    HoldsUnique(d, starts, name);
    forall o: nat | Holds(d, starts, name, o)
      ensures o < d.size
    {
      InsideDir(l, d, starts, o);
    }
  }

  lemma InsideDir(l: Layout, d: Dir, starts: set<nat>, o: nat)
    requires Tiled(l, d, starts) && o in starts
    ensures o < d.size
  {
    assert Next(d, o) > o;
  }
}
