/** Which group a new inode goes to, by number, and what taking it does to the counts. */
module InodeChoice {
  import opened Answers
  import opened Bits
  import opened BlockAllocator
  import F = FreeCounts
  import opened InodeSearch
  import opened InodeAllocator
  import opened InodeAllocatorLaws

  // ----- a file

  /** The group has a free inode and a free block. */
  predicate Suits(v: Volume, st: Inodes, r: Request, g: nat)
    requires ValidInodes(v, st) && Fits(v, r)
  {
    g < v.groups && st.free[g] > 0 && r.freeBlocks[g] > 0
  }

  /** The j-th group tried after the parent's: from a place the parent's number decides, one
      further each time. */
  function Probe(v: Volume, r: Request, j: nat): (g: nat)
    requires v.Valid()
  {
    ((r.parentGroup + r.parentIno) % 0x1_0000_0000_0000_0000 % v.groups + 1 + j) % v.groups
  }

  /** It is tried as long as 2^j is below the number of groups. */
  predicate Tried(v: Volume, j: nat) {
    Pow2(j) < v.groups
  }

  /** The k-th group after the parent's, cyclically; a parent in no group counts as the one
      before the first. */
  function After(v: Volume, r: Request, k: nat): (g: nat)
    requires v.Valid()
  {
    ((if r.parentGroup < v.groups then r.parentGroup + 1 else 0) + k) % v.groups
  }

  ghost predicate ProbedFirst(v: Volume, st: Inodes, r: Request, j: nat)
    requires ValidInodes(v, st) && Fits(v, r)
  {
    Tried(v, j) && Suits(v, st, r, Probe(v, r, j)) && forall i: nat :: i < j ==> !Suits(v, st, r, Probe(v, r, i))
  }

  ghost predicate FoundFirst(v: Volume, st: Inodes, r: Request, k: nat)
    requires ValidInodes(v, st) && Fits(v, r)
  {
    k < v.groups && Suits(v, st, r, After(v, r, k)) && forall i: nat :: i < k ==> !Suits(v, st, r, After(v, r, i))
  }

  lemma {:induction false} JumpsIndex(n: nat, g: nat, i: nat, j: nat)
    requires g < n && i > 0
    ensures j < |Jumps(n, g, i)| <==> i * Pow2(j) < n
    ensures i * Pow2(j) < n ==> Jumps(n, g, i)[j] == (g + 1 + j) % n
    decreases j
  {
    PowerAtLeast(i, j);
    if j == 0 {
      DivModUnique(g + 1, n, if g + 1 >= n then 1 else 0, Ahead(n, g));
    } else if i < n {
      JumpsIndex(n, Ahead(n, g), 2 * i, j - 1);
      assert i * Pow2(j) == 2 * i * Pow2(j - 1);
      Shifted(n, g, j);
    }
  }

  lemma PowerAtLeast(i: nat, j: nat)
    requires i > 0
    ensures i * Pow2(j) >= i
  {
    MulMono(1, Pow2(j), i);
  }

  lemma Shifted(n: nat, g: nat, j: nat)
    requires g < n && j > 0
    ensures (Ahead(n, g) + 1 + (j - 1)) % n == (g + 1 + j) % n
  {
    var x := Ahead(n, g) + j;
    assert x == x / n * n + x % n;
    if g + 1 >= n {
      assert (x / n + 1) * n == x / n * n + n;
      DivModUnique(x + n, n, x / n + 1, x % n);
    }
  }

  lemma {:induction false} WalkIndex(n: nat, g: nat, i: nat, k: nat)
    requires 0 < n && i <= n
    ensures |Walk(n, g, i)| == n - i
    ensures k < n - i ==> Walk(n, g, i)[k] == ((if g < n then g + 1 else 0) + k) % n
    decreases n - i
  {
    if i < n {
      WalkIndex(n, Following(n, g), i + 1, if k > 0 then k - 1 else 0);
      if k == 0 {
        DivModUnique(if g < n then g + 1 else 0, n, if g + 1 == n then 1 else 0, Following(n, g));
      } else if g < n {
        Shifted(n, g, k);
      }
    }
  }

  /** Only one candidate is the first good one. */
  lemma FirstWins(candidates: seq<nat>, good: seq<bool>, k: nat)
    requires FirstAt(candidates, good, k)
    ensures FirstIn(candidates, good) == candidates[k]
  {
    hide FirstIn;
    assert Is(good, candidates[k]);
    var i :| 0 <= i < |candidates| && FirstAt(candidates, good, i) && candidates[i] == FirstIn(candidates, good);
  }

  /** A file goes to its parent's group when that suits; else to the first group that suits of
      those tried; else to the first after the parent's; and nowhere only when none suits. */
  lemma FileChoiceExact(v: Volume, st: Inodes, r: Request)
    requires ValidInodes(v, st) && Fits(v, r) && !r.isDir
    ensures var c, p := Choose(v, st, r), r.parentGroup;
            && (Suits(v, st, r, p) ==> c == p)
            && (!Suits(v, st, r, p) ==> forall j: nat :: ProbedFirst(v, st, r, j) ==> c == Probe(v, r, j))
            && (!Suits(v, st, r, p) && (forall j: nat :: Tried(v, j) ==> !Suits(v, st, r, Probe(v, r, j))) ==>
                  forall k: nat :: FoundFirst(v, st, r, k) ==> c == After(v, r, k))
            && (c == -1 <==> forall g: nat :: !Suits(v, st, r, g))
  {
    hide FirstIn, FileOrder, Probe, After, Pow2, Order, Choose;
    var good := GoodGroups(v, st, r);
    ChooseExact(v, st, r);
    OrderIs(v, r);
    FirstIs(v, st, r);
    if Suits(v, st, r, r.parentGroup) {
      FirstWins(Order(v, r), good, 0);
    } else {
      forall j: nat | ProbedFirst(v, st, r, j) ensures Choose(v, st, r) == Probe(v, r, j) { ProbeWins(v, st, r, j); }
      if forall j: nat :: Tried(v, j) ==> !Suits(v, st, r, Probe(v, r, j)) {
        forall k: nat | FoundFirst(v, st, r, k) ensures Choose(v, st, r) == After(v, r, k) { AfterWins(v, st, r, k); }
      }
    }
  }

  function GoodGroups(v: Volume, st: Inodes, r: Request): (good: seq<bool>)
    requires ValidInodes(v, st) && Fits(v, r)
    ensures forall g: nat :: Is(good, g) <==> Suits(v, st, r, g)
  {
    FileGood(CountsOf(st.free, st.dirs, r.freeBlocks))
  }

  lemma FirstIs(v: Volume, st: Inodes, r: Request)
    requires ValidInodes(v, st) && Fits(v, r) && !r.isDir
    ensures Choose(v, st, r) == FirstIn(Order(v, r), GoodGroups(v, st, r))
  {
    hide FirstIn, FileOrder;
  }

  lemma ProbeWins(v: Volume, st: Inodes, r: Request, j: nat)
    requires ValidInodes(v, st) && Fits(v, r) && !r.isDir && !Suits(v, st, r, r.parentGroup)
    requires ProbedFirst(v, st, r, j)
    ensures Choose(v, st, r) == Probe(v, r, j)
  {
    hide FirstIn, Probe, Tried, Order, Choose, Suits;
    var order, good := Order(v, r), GoodGroups(v, st, r);
    OrderIs(v, r);
    FirstIs(v, st, r);
    ProbesAre(v, r, j);
    forall x | 0 <= x < 1 + j ensures !Is(good, order[x]) {
      if x > 0 {
        FewerTried(v, x - 1, j);
        ProbesAre(v, r, x - 1);
      }
    }
    FirstWins(order, good, 1 + j);
  }

  lemma AfterWins(v: Volume, st: Inodes, r: Request, k: nat)
    requires ValidInodes(v, st) && Fits(v, r) && !r.isDir && !Suits(v, st, r, r.parentGroup)
    requires forall j: nat :: Tried(v, j) ==> !Suits(v, st, r, Probe(v, r, j))
    requires FoundFirst(v, st, r, k)
    ensures Choose(v, st, r) == After(v, r, k)
  {
    hide FirstIn, Probe, After, Tried, Order, Choose, Suits, Jumped;
    var order, good, t := Order(v, r), GoodGroups(v, st, r), Jumped(v, r);
    OrderIs(v, r);
    FirstIs(v, st, r);
    AftersAre(v, r, k);
    forall x | 0 <= x < 1 + t + k ensures !Is(good, order[x]) {
      if 0 < x <= t {
        ProbesAre(v, r, x - 1);
      } else if x > t {
        AftersAre(v, r, x - 1 - t);
      }
    }
    FirstWins(order, good, 1 + t + k);
  }

  /** What the search tries, in order, and how many groups it tries before the walk. */
  function Order(v: Volume, r: Request): seq<nat>
    requires v.Valid()
  {
    FileOrder(v.groups, r.parentGroup, r.parentIno)
  }

  function Jumped(v: Volume, r: Request): nat
    requires v.Valid()
  {
    |Jumps(v.groups, Lo(U64(r.parentGroup + r.parentIno), v.groups), 1)|
  }

  lemma OrderIs(v: Volume, r: Request)
    requires v.Valid()
    ensures |Order(v, r)| > 0 && Order(v, r)[0] == r.parentGroup
  {
    hide Jumps, Walk;
  }

  lemma FewerTried(v: Volume, i: nat, j: nat)
    requires i <= j && Tried(v, j)
    ensures Tried(v, i)
    decreases j
  {
    if i < j { FewerTried(v, i, j - 1); }
  }

  lemma ProbesAre(v: Volume, r: Request, j: nat)
    requires v.Valid()
    ensures j < Jumped(v, r) <==> Tried(v, j)
    ensures Tried(v, j) ==> 1 + j < |Order(v, r)| && Order(v, r)[1 + j] == Probe(v, r, j)
  {
    hide Jumps, Walk, Pow2;
    LoBelow(U64(r.parentGroup + r.parentIno), v.groups);
    JumpsIndex(v.groups, Lo(U64(r.parentGroup + r.parentIno), v.groups), 1, j);
  }

  lemma AftersAre(v: Volume, r: Request, k: nat)
    requires v.Valid() && k < v.groups
    ensures var i := 1 + Jumped(v, r) + k;
            i < |Order(v, r)| && Order(v, r)[i] == After(v, r, k)
  {
    hide Jumps, Walk;
    WalkIndex(v.groups, r.parentGroup, 0, k);
  }

  // ----- a directory

  /** The k-th group from p on, cyclically. */
  function Round(n: nat, p: nat, k: nat): (g: nat)
    requires n > 0
    ensures g < n
  {
    (p + k) % n
  }

  /** It is the first good one from p on. */
  ghost predicate FirstFrom(n: nat, p: nat, good: seq<bool>, k: nat) {
    k < n == |good| && good[Round(n, p, k)] && forall i: nat :: i < k ==> !good[Round(n, p, i)]
  }

  lemma RingWins(n: nat, p: nat, good: seq<bool>, k: nat)
    requires FirstFrom(n, p, good, k)
    ensures FirstIn(Ring(n, p, 0), good) == Round(n, p, k)
  {
    hide FirstIn, Ring;
    var ring := Ring(n, p, 0);
    RingIndex(n, p, 0, k);
    forall x | 0 <= x < k ensures !Is(good, ring[x]) {
      RingIndex(n, p, 0, x);
      assert ring[x] == Round(n, p, x);
    }
    FirstWins(ring, good, k);
  }

  lemma RingNone(n: nat, p: nat, good: seq<bool>)
    requires n > 0 && forall g: nat :: !Is(good, g)
    ensures FirstIn(Ring(n, p, 0), good) == -1
  {
  }

  /** The groups with at least this many free inodes. */
  function AtLeast(free: seq<nat>, a: nat): seq<bool> {
    seq(|free|, g requires 0 <= g < |free| => a <= free[g])
  }

  /** c is the first group from p on with the average of free inodes and at least one; where no
      group has so many, the first with any; and -1 where no group has one. */
  ghost predicate FellBack(free: seq<nat>, average: nat, p: nat, c: int) {
    var n, enough := |free|, if average == 0 then 1 else average;
    && (forall k: nat :: FirstFrom(n, p, AtLeast(free, enough), k) ==> c == Round(n, p, k))
    && ((forall g :: 0 <= g < n ==> free[g] < enough) ==>
          forall k: nat :: FirstFrom(n, p, AtLeast(free, 1), k) ==> c == Round(n, p, k))
    && (c == -1 <==> forall g :: 0 <= g < n ==> free[g] == 0)
  }

  lemma FallbackExact(groups: seq<Counts>, free: seq<nat>, p: nat, average: nat)
    requires |groups| > 0 && free == seq(|groups|, g requires 0 <= g < |groups| => groups[g].inodes)
    ensures FellBack(free, average, p, Fallback(groups, p, average))
  {
    hide FirstIn, Ring, FirstFrom, Fallback;
    var n := |groups|;
    FallbackComplete(groups, p, average);
    FallbackRounds(groups, free, p, average);
    forall k: nat, a: nat | FirstFrom(n, p, AtLeast(free, a), k)
      ensures FirstIn(Ring(n, p, 0), AtLeast(free, a)) == Round(n, p, k)
    {
      RingWins(n, p, AtLeast(free, a), k);
    }
    if forall g :: 0 <= g < n ==> free[g] < average { RingNone(n, p, AtLeast(free, average)); }
  }

  lemma FallbackRounds(groups: seq<Counts>, free: seq<nat>, p: nat, average: nat)
    requires |groups| > 0 && free == seq(|groups|, g requires 0 <= g < |groups| => groups[g].inodes)
    ensures var ring, enough := Ring(|groups|, p, 0), if average == 0 then 1 else average;
            var r := FirstIn(ring, AtLeast(free, enough));
            Fallback(groups, p, average) == if r != -1 then r else FirstIn(ring, AtLeast(free, 1))
  {
    hide FirstIn, Ring;
    assert AverageGood(groups, 0) == AtLeast(free, 1);
    assert AverageGood(groups, average) == AtLeast(free, if average == 0 then 1 else average);
  }

  /** The group's counts pass the test of an ordinary directory: no more directories than the
      average and a sixteenth of a group's inodes, no fewer free inodes than the average less a
      quarter of a group, no fewer free blocks than the average less a quarter of a group, where
      a difference below 0 counts as a number no group has. */
  predicate Uncrowded(v: Volume, st: Inodes, r: Request, g: nat)
    requires ValidInodes(v, st) && Fits(v, r) && g < v.groups
  {
    var n, a := v.groups, r.readings;
    && st.free[g] > 0
    && st.dirs[g] <= S32(a.dirs % 0x1_0000_0000 / n + v.perGroup / 16)
    && S32(a.freeInodes % 0x1_0000_0000 / n - v.perGroup / 4) <= st.free[g]
    && (var less := a.freeBlocks % 0x1_0000_0000_0000_0000 / n - v.blocksPerGroup / 4;
        if less < 0 then (less % 0x1_0000_0000_0000_0000) <= r.freeBlocks[g] else less <= r.freeBlocks[g])
  }

  function UncrowdedGroups(v: Volume, st: Inodes, r: Request): seq<bool>
    requires ValidInodes(v, st) && Fits(v, r)
  {
    seq(v.groups, g requires 0 <= g < v.groups => Uncrowded(v, st, r, g))
  }

  /** The counts that make the one group looked at below a top directory the one chosen. */
  predicate TopSuits(v: Volume, st: Inodes, r: Request, g: nat)
    requires ValidInodes(v, st) && Fits(v, r) && g < v.groups
  {
    && st.free[g] > 0 && st.dirs[g] < v.perGroup
    && r.readings.freeInodes % 0x1_0000_0000 / v.groups <= st.free[g]
    && r.readings.freeBlocks % 0x1_0000_0000_0000_0000 / v.groups < r.freeBlocks[g]
  }

  /** Below a top directory the group after a random one is chosen if its counts suit. Below
      another the first uncrowded group from the parent's on is. Else the search falls back. */
  lemma DirChoiceExact(v: Volume, st: Inodes, r: Request)
    requires ValidInodes(v, st) && Fits(v, r) && r.isDir
    ensures var c, n := Choose(v, st, r), v.groups;
            var average, p := r.readings.freeInodes % 0x1_0000_0000 / n, r.readings.random % 0x1_0000_0000 % n;
            && (r.top ==>
                  && (TopSuits(v, st, r, (p + 1) % n) ==> c == (p + 1) % n)
                  && (!TopSuits(v, st, r, (p + 1) % n) ==> FellBack(st.free, average, p, c)))
            && (!r.top ==>
                  && (forall k: nat :: FirstFrom(n, r.parentGroup, UncrowdedGroups(v, st, r), k) ==>
                        c == Round(n, r.parentGroup, k))
                  && ((forall g :: 0 <= g < n ==> !Uncrowded(v, st, r, g)) ==>
                        FellBack(st.free, average, r.parentGroup, c)))
  {
    hide FirstIn, Ring, FirstFrom, Fallback, S32, FellBack;
    var groups, n := CountsOf(st.free, st.dirs, r.freeBlocks), v.groups;
    assert st.free == seq(|groups|, g requires 0 <= g < |groups| => groups[g].inodes);
    var l := LimitsOf(n, v.perGroup, v.blocksPerGroup, r.readings);
    FallbackExact(groups, st.free, if r.top then Lo(U32(r.readings.random), n) else r.parentGroup, l.inodes);
    NearIs(v, st, r);
    var good := UncrowdedGroups(v, st, r);
    forall k: nat | FirstFrom(n, r.parentGroup, good, k)
      ensures FirstIn(Ring(n, r.parentGroup, 0), good) == Round(n, r.parentGroup, k)
    {
      RingWins(n, r.parentGroup, good, k);
    }
    if forall g :: 0 <= g < n ==> !Uncrowded(v, st, r, g) { RingNone(n, r.parentGroup, good); }
  }

  lemma NearIs(v: Volume, st: Inodes, r: Request)
    requires ValidInodes(v, st) && Fits(v, r)
    ensures var l := LimitsOf(v.groups, v.perGroup, v.blocksPerGroup, r.readings);
            NearGood(CountsOf(st.free, st.dirs, r.freeBlocks), l) == UncrowdedGroups(v, st, r)
  {
    hide S32, LimitsOf, Uncrowded, NearFits;
    var groups := CountsOf(st.free, st.dirs, r.freeBlocks);
    var l := LimitsOf(v.groups, v.perGroup, v.blocksPerGroup, r.readings);
    forall g | 0 <= g < v.groups ensures NearFits(groups[g], l) <==> Uncrowded(v, st, r, g) { OneNear(v, st, r, g); }
  }

  lemma OneNear(v: Volume, st: Inodes, r: Request, g: nat)
    requires ValidInodes(v, st) && Fits(v, r) && g < v.groups
    ensures var l := LimitsOf(v.groups, v.perGroup, v.blocksPerGroup, r.readings);
            NearFits(Counts(st.free[g], st.dirs[g], r.freeBlocks[g]), l) <==> Uncrowded(v, st, r, g)
  {
    hide S32;
    var a := r.readings;
    LessWraps(a.freeBlocks % 0x1_0000_0000_0000_0000 / v.groups, v.blocksPerGroup / 4);
  }

  lemma LessWraps(a: nat, b: nat)
    requires a < TWO64
    ensures U64(a - b) == if a < b then (a - b) % TWO64 else a - b
  {
  }

  /** Where the average of free blocks is below a quarter of a group the difference wraps, and
      no group passes the test of an ordinary directory, however empty it is. */
  lemma NearNever(v: Volume, st: Inodes, r: Request, g: nat)
    requires ValidInodes(v, st) && Fits(v, r) && g < v.groups
    requires r.freeBlocks[g] < 0x1_0000 && v.blocksPerGroup < 0x1_0000_0000
    requires r.readings.freeBlocks % 0x1_0000_0000_0000_0000 / v.groups < v.blocksPerGroup / 4
    ensures !Uncrowded(v, st, r, g)
  {
    hide S32;
    WrapsHigh(r.readings.freeBlocks % 0x1_0000_0000_0000_0000 / v.groups, v.blocksPerGroup / 4);
  }

  lemma WrapsHigh(a: nat, b: nat)
    requires a < b < 0x1_0000_0000
    ensures (a - b) % 0x1_0000_0000_0000_0000 >= 0x1_0000
  {
    DivModUnique(a - b, TWO64, -1, a - b + TWO64);
  }

  // ----- taking the inode

  /** The bitmaps differ in one bit, which has been set. */
  ghost predicate OneBitSet(v: Volume, st: Inodes, st': Inodes, g: nat, b: nat)
    requires ValidInodes(v, st) && ValidInodes(v, st')
  {
    && g < v.groups && b < v.perGroup && !st.used[g][b]
    && forall h: nat, k: nat :: h < v.groups && k < v.perGroup ==>
         (st'.used[h][k] <==> st.used[h][k] || (h == g && k == b))
  }

  /** All numbers are as before but, by `change`, the one of group g. */
  ghost predicate OneChanged(s: seq<nat>, s': seq<nat>, g: nat, change: int) {
    && |s'| == |s| && g < |s| && s'[g] == s[g] + change
    && forall h: nat :: h < |s| && h != g ==> s'[h] == s[h]
  }

  /** Bit b of group g has been taken for the request, and its number is the (b+1)-th of the
      group. An ordinary number is charged to the group and to the volume, a directory to the
      directories as well; any other is refused, and nothing is charged. */
  ghost predicate Took(v: Volume, st: Inodes, r: Request, g: nat, b: nat, st': Inodes, a: Allocated)
    requires ValidInodes(v, st) && ValidInodes(v, st')
  {
    var number, dir := g * v.perGroup + b + 1, if r.isDir then 1 else 0;
    && OneBitSet(v, st, st', g, b)
    && if v.firstIno <= number <= v.inodesCount then
         && OneChanged(st.free, st'.free, g, -1) && OneChanged(st.dirs, st'.dirs, g, dir)
         && st'.freeCounter == st.freeCounter - 1 && st'.dirsCounter == st.dirsCounter + dir
         && a == if r.inserted then Ino(number) else Failed(EIO)
       else
         && st'.free == st.free && st'.dirs == st.dirs
         && st'.freeCounter == st.freeCounter && st'.dirsCounter == st.dirsCounter && a == Failed(EIO)
  }

  lemma TakeTook(v: Volume, st: Inodes, r: Request, g: nat, b: nat)
    requires Sound(v, st) && g < v.groups && b < v.perGroup && !st.used[g][b]
    ensures var st', a := Take(v, st, r, g, b).0, Take(v, st, r, g, b).1;
            ValidInodes(v, st') && Took(v, st, r, g, b, st', a)
  {
    hide F.Zeros;
    ZerosPositive(st.used[g], b);
    U16Fits(st.free[g] - 1);
    U16Fits(st.dirs[g] + 1);
    U16Fits(st.dirs[g]);
  }

  lemma {:induction false} ZerosPositive(bits: seq<bool>, b: nat)
    requires b < |bits| && !bits[b]
    ensures F.Zeros(bits) > 0
    decreases b
  {
    if b > 0 { ZerosPositive(bits[1..], b - 1); }
  }

  /** The whole of a request once the group is chosen: the first clear bit of that group is
      taken, or, where it is full and there are others, that of group 0; a bitmap that cannot be
      read on the way ends it with an I/O error, and full ones with "no space". */
  lemma AllocWhole(v: Volume, st: Inodes, r: Request)
    requires Sound(v, st) && Fits(v, r)
    ensures var c, st', a := Choose(v, st, r), Alloc(v, st, r).0, Alloc(v, st, r).1;
            && ValidInodes(v, st') && -1 <= c < v.groups
            && (c == -1 ==> st' == st && a == Failed(ENOSPC))
            && (c != -1 ==>
                  var b, b0 := FirstZero(st.used[c], 0), FirstZero(st.used[0], 0);
                  if c in r.unreadable then st' == st && a == Failed(EIO)
                  else if b >= 0 then Took(v, st, r, c, b, st', a)
                  else if v.groups == 1 then st' == st && a == Failed(ENOSPC)
                  else if 0 in r.unreadable then st' == st && a == Failed(EIO)
                  else if b0 >= 0 then Took(v, st, r, 0, b0, st', a)
                  else st' == st && a == Failed(ENOSPC))
  {
    hide Choose, Took, Take, FirstZero, F.Zeros;
    ChooseInRange(v, st, r);
    AllocFresh(v, st, r);
    var c := Choose(v, st, r);
    if c != -1 {
      ScanWhole(v, st.used, r.unreadable, c, 0);
      var p := Scan(v, st.used, r.unreadable, c, 0);
      if p.Bit? { TakeTook(v, st, r, p.group, p.bit); }
    }
  }

  lemma ScanWhole(v: Volume, used: seq<seq<bool>>, unreadable: set<nat>, g: nat, i: nat)
    requires |used| == v.groups && g < v.groups && i < v.groups
    ensures var b, b0 := FirstZero(used[g], 0), FirstZero(used[0], 0);
            Scan(v, used, unreadable, g, i) ==
              if g in unreadable then Unread
              else if b >= 0 then Bit(g, b)
              else if i + 1 == v.groups then Full
              else if 0 in unreadable then Unread
              else if b0 >= 0 then Bit(0, b0)
              else Full
    decreases v.groups - i
  {
    hide FirstZero;
    if i + 1 < v.groups { ScanWhole(v, used, unreadable, 0, i + 1); }
  }

  // ----- counts over a run

  /** The request has set a bit of group g that has an ordinary number. */
  ghost predicate GaveIn(v: Volume, st: Inodes, st': Inodes, g: nat)
    requires ValidInodes(v, st) && ValidInodes(v, st')
  {
    exists b: nat :: OneBitSet(v, st, st', g, b) && v.firstIno <= g * v.perGroup + b + 1 <= v.inodesCount
  }

  /** A directory that gets an ordinary bit of group g raises the group's directory count by one
      and the volume's; any request that gets one lowers the free count; nothing else does. */
  ghost predicate CountedIn(v: Volume, st: Inodes, r: Request, st': Inodes, g: nat)
    requires ValidInodes(v, st) && ValidInodes(v, st') && g < v.groups
  {
    && st'.dirs[g] == st.dirs[g] + (if r.isDir && GaveIn(v, st, st', g) then 1 else 0)
    && st'.free[g] + (if GaveIn(v, st, st', g) then 1 else 0) == st.free[g]
    && st.dirsCounter <= st'.dirsCounter <= st.dirsCounter + 1
    && (st'.dirsCounter == st.dirsCounter + 1 <==> r.isDir && exists h: nat :: GaveIn(v, st, st', h))
  }

  /** A group counts one directory more exactly when the request was for a directory and has set
      a bit of the group with an ordinary number; the volume in exactly those calls. */
  lemma DirsExact(v: Volume, st: Inodes, r: Request, g: nat)
    requires Sound(v, st) && Fits(v, r) && g < v.groups
    ensures ValidInodes(v, Alloc(v, st, r).0) && CountedIn(v, st, r, Alloc(v, st, r).0, g)
  {
    hide Choose, Alloc, FirstZero, F.Zeros, GaveIn, Took, CountedIn;
    AllocWhole(v, st, r);
    var st', a, c := Alloc(v, st, r).0, Alloc(v, st, r).1, Choose(v, st, r);
    if st' == st {
      IdleCounts(v, st, r, g);
    } else {
      var bit := if FirstZero(st.used[c], 0) >= 0 then FirstZero(st.used[c], 0) else FirstZero(st.used[0], 0);
      assert bit >= 0;
      var h: nat := if FirstZero(st.used[c], 0) >= 0 then c else 0;
      TookCounts(v, st, r, h, bit, st', a, g);
    }
  }

  lemma IdleCounts(v: Volume, st: Inodes, r: Request, g: nat)
    requires ValidInodes(v, st) && g < v.groups
    ensures CountedIn(v, st, r, st, g)
  {
  }

  lemma TookCounts(v: Volume, st: Inodes, r: Request, h: nat, b: nat, st': Inodes, a: Allocated, g: nat)
    requires ValidInodes(v, st) && ValidInodes(v, st') && g < v.groups && Took(v, st, r, h, b, st', a)
    ensures CountedIn(v, st, r, st', g)
  {
    hide GaveIn, OneBitSet;
    OneBit(v, st, st', h, b);
    assert v.firstIno <= h * v.perGroup + b + 1 <= v.inodesCount ==> GaveIn(v, st, st', h);
  }

  /** Two bitmaps differ in one bit only. */
  lemma OneBit(v: Volume, st: Inodes, st': Inodes, g: nat, b: nat)
    requires ValidInodes(v, st) && ValidInodes(v, st') && OneBitSet(v, st, st', g, b)
    ensures forall h: nat :: GaveIn(v, st, st', h) <==>
              h == g && v.firstIno <= g * v.perGroup + b + 1 <= v.inodesCount
  {
    forall h: nat, k: nat ensures OneBitSet(v, st, st', h, k) <==> h == g && k == b {
      if OneBitSet(v, st, st', h, k) {
        assert h < v.groups && k < v.perGroup && st'.used[h][k];
      }
    }
  }

  /** How many requests of the run were for a directory and got an ordinary bit of group g. */
  ghost function DirsMade(v: Volume, st: Inodes, rs: seq<Request>, g: nat): nat
    requires ValidInodes(v, st) && forall k :: 0 <= k < |rs| ==> Fits(v, rs[k])
    decreases |rs|
  {
    if rs == [] then 0
    else
      AllocFresh(v, st, rs[0]);
      var st1 := Alloc(v, st, rs[0]).0;
      (if rs[0].isDir && GaveIn(v, st, st1, g) then 1 else 0) + DirsMade(v, st1, rs[1..], g)
  }

  /** Over any run a group's directory count grows by that number. */
  lemma {:induction false} RunDirs(v: Volume, st: Inodes, rs: seq<Request>, g: nat)
    requires Sound(v, st) && g < v.groups && forall k :: 0 <= k < |rs| ==> Fits(v, rs[k])
    ensures Run(v, st, rs).dirs[g] == st.dirs[g] + DirsMade(v, st, rs, g)
    decreases |rs|
  {
    hide Alloc, GaveIn, F.Zeros, InodeAllocatorLaws.Leak;
    if rs != [] {
      AllocFresh(v, st, rs[0]);
      DirsExact(v, st, rs[0], g);
      AllocKeepsCounts(v, st, rs[0], g);
      RunDirs(v, Alloc(v, st, rs[0]).0, rs[1..], g);
    }
  }
}
