/** What inode allocation keeps, and when it succeeds. */
module InodeAllocatorLaws {
  import opened Answers
  import opened Bits
  import opened BlockAllocator
  import opened FreeCounts
  import opened InodeSearch
  import opened InodeAllocator

  /** A group's counts cover its clear bits, and its directories have bits of their own. */
  ghost predicate Sound(v: Volume, st: Inodes) {
    && ValidInodes(v, st)
    && forall g :: 0 <= g < v.groups ==>
         Zeros(st.used[g]) <= st.free[g] && st.dirs[g] + Zeros(st.used[g]) <= v.perGroup
  }

  /** The free counts are the clear bits, and every clear bit is an ordinary inode's. */
  ghost predicate Settled(v: Volume, st: Inodes) {
    && Sound(v, st)
    && (forall g :: 0 <= g < v.groups ==> st.free[g] == Zeros(st.used[g]))
    && (forall g: nat, b: nat :: g < v.groups && b < v.perGroup && !st.used[g][b] ==> Ordinary(v, InoOf(v, g, b)))
  }

  predicate Fits(v: Volume, r: Request) {
    |r.freeBlocks| == v.groups
  }

  lemma FullExact(bits: seq<bool>)
    ensures FirstZero(bits, 0) == -1 <==> Zeros(bits) == 0
  {
    ZerosExact(bits);
  }

  /** A search that starts in group g finds a clear bit exactly when g has one, or there is a
      second round, which is always in group 0, and that has one. */
  lemma {:induction false} ScanExact(v: Volume, used: seq<seq<bool>>, g: nat, i: nat)
    requires |used| == v.groups && g < v.groups && i < v.groups
    ensures var p := Scan(v, used, {}, g, i);
            && (p.Bit? <==> Zeros(used[g]) > 0 || (i + 1 < v.groups && Zeros(used[0]) > 0))
            && (p.Bit? ==> p.group == (if Zeros(used[g]) > 0 then g else 0) && p.bit == FirstZero(used[p.group], 0))
            && p != Unread
    decreases v.groups - i
  {
    FullExact(used[g]);
    FullExact(used[0]);
    if FirstZero(used[g], 0) < 0 && i + 1 < v.groups {
      ScanExact(v, used, 0, i + 1);
    }
  }

  /** Three groups of two inodes, the first two full: a search that starts in the second never
      comes to the third, whose inodes are all free. */
  lemma ScanExample(v: Volume, used: seq<seq<bool>>)
    requires v == Volume(3, 2, 8, 1, 6) && used == [[true, true], [true, true], [false, false]]
    ensures Scan(v, used, {}, 1, 0) == Full && Zeros(used[2]) == 2
  {
    hide Scan;
    ScanExact(v, used, 1, 0);
    assert Zeros(used[0]) == 0 && Zeros(used[1]) == 0;
    ScanFull(v, used);
  }

  lemma ScanFull(v: Volume, used: seq<seq<bool>>)
    requires v == Volume(3, 2, 8, 1, 6) && |used| == 3 && !Scan(v, used, {}, 1, 0).Bit?
    ensures Scan(v, used, {}, 1, 0) == Full
  {
    ScanExact(v, used, 1, 0);
  }

  /** What the search of a request finds. */
  function Found(v: Volume, st: Inodes, r: Request): Place
    requires ValidInodes(v, st) && Fits(v, r)
  {
    ChooseInRange(v, st, r);
    var g := Choose(v, st, r);
    if g == -1 then Full else Scan(v, st.used, r.unreadable, g, 0)
  }

  /** 1 when the request sets a bit of group g and then refuses the number. */
  function Leak(v: Volume, st: Inodes, r: Request, g: nat): nat
    requires ValidInodes(v, st) && Fits(v, r)
  {
    var p := Found(v, st, r);
    if p.Bit? && p.group == g && !Ordinary(v, InoOf(v, p.group, p.bit)) then 1 else 0
  }

  /** A request takes the bit it has found, or changes nothing. */
  lemma AllocIs(v: Volume, st: Inodes, r: Request)
    requires ValidInodes(v, st) && Fits(v, r)
    ensures var p := Found(v, st, r);
            && (p.Bit? ==> p.group < v.groups && p.bit < v.perGroup && !st.used[p.group][p.bit]
                           && Alloc(v, st, r) == Take(v, st, r, p.group, p.bit))
            && (!p.Bit? ==> Alloc(v, st, r).0 == st && Alloc(v, st, r).1.Failed?)
  {
    hide Scan, Choose, Take;
    ChooseInRange(v, st, r);
  }

  /** The counts move together: a group's free count exceeds its clear bits by one more for
      each refused number and by nothing else, and the global counters move with the sums
      of the group counts. */
  lemma AllocKeepsCounts(v: Volume, st: Inodes, r: Request, g: nat)
    requires Sound(v, st) && Fits(v, r) && g < v.groups
    ensures var st' := Alloc(v, st, r).0;
            && Sound(v, st')
            && st'.free[g] - Zeros(st'.used[g]) == st.free[g] - Zeros(st.used[g]) + Leak(v, st, r, g)
            && st'.freeCounter - Sum(st'.free) == st.freeCounter - Sum(st.free)
            && st'.dirsCounter - Sum(st'.dirs) == st.dirsCounter - Sum(st.dirs)
  {
    hide Alloc, Found, Take, Zeros, Sum;
    AllocIs(v, st, r);
    var p := Found(v, st, r);
    if p.Bit? {
      TakeKeepsCounts(v, st, r, p.group, p.bit, g);
    }
  }

  lemma TakeKeepsCounts(v: Volume, st: Inodes, r: Request, group: nat, bit: nat, g: nat)
    requires Sound(v, st) && group < v.groups && bit < v.perGroup && !st.used[group][bit] && g < v.groups
    ensures var st' := Take(v, st, r, group, bit).0;
            var leak := if g == group && !Ordinary(v, InoOf(v, group, bit)) then 1 else 0;
            && Sound(v, st')
            && st'.free[g] - Zeros(st'.used[g]) == st.free[g] - Zeros(st.used[g]) + leak
            && st'.freeCounter - Sum(st'.free) == st.freeCounter - Sum(st.free)
            && st'.dirsCounter - Sum(st'.dirs) == st.dirsCounter - Sum(st.dirs)
  {
    hide Zeros, Sum, InoOf, Ordinary, U16;
    ZerosMark(st.used[group], bit);
    U16Fits(st.free[group] - 1);
    var dir := if r.isDir then 1 else 0;
    U16Fits(st.dirs[group] + dir);
    SumUpdate(st.free, group, st.free[group] - 1);
    SumUpdate(st.dirs, group, st.dirs[group] + dir);
  }

  /** Exact counts stay exact, whatever fails on the way. */
  lemma SettledKeeps(v: Volume, st: Inodes, r: Request)
    requires Settled(v, st) && Fits(v, r)
    ensures Settled(v, Alloc(v, st, r).0)
  {
    hide Alloc, Found, Take, Zeros, Sum, InoOf, Ordinary;
    AllocIs(v, st, r);
    var p := Found(v, st, r);
    if p.Bit? {
      TakeSettled(v, st, r, p.group, p.bit);
    }
  }

  lemma TakeSettled(v: Volume, st: Inodes, r: Request, group: nat, bit: nat)
    requires Settled(v, st) && group < v.groups && bit < v.perGroup && !st.used[group][bit]
    ensures Settled(v, Take(v, st, r, group, bit).0)
  {
    hide Zeros, Sum, InoOf, Ordinary, U16;
    forall g: nat | g < v.groups
      ensures var st' := Take(v, st, r, group, bit).0; Sound(v, st') && st'.free[g] == Zeros(st'.used[g])
    {
      TakeKeepsCounts(v, st, r, group, bit, g);
    }
    TakeKeepsCounts(v, st, r, group, bit, group);
  }

  /** With exact counts a directory gets an inode exactly when some group has a free one,
      and any other file exactly when some group has both a free inode and a free block.
      Otherwise the answer is "no space" and nothing changes. */
  lemma AllocExact(v: Volume, st: Inodes, r: Request)
    requires Settled(v, st) && Fits(v, r) && r.unreadable == {} && r.inserted
    ensures var (st', a) := Alloc(v, st, r);
            && (a.Ino? <==> exists g :: 0 <= g < v.groups && Zeros(st.used[g]) > 0 && (r.isDir || r.freeBlocks[g] > 0))
            && (a.Ino? ==> Ordinary(v, a.ino))
            && (!a.Ino? ==> a == Failed(ENOSPC) && st' == st)
  {
    hide Scan, Zeros, Choose, InoOf, Ordinary;
    ChooseExact(v, st, r);
    var g := Choose(v, st, r);
    if g != -1 {
      ScanExact(v, st.used, g, 0);
    }
  }

  /** The choice of a group fails exactly when no group will do. */
  lemma ChooseExact(v: Volume, st: Inodes, r: Request)
    requires ValidInodes(v, st) && Fits(v, r)
    ensures var g := Choose(v, st, r);
            && -1 <= g < v.groups
            && (g == -1 <==> forall h :: 0 <= h < v.groups ==> st.free[h] == 0 || (!r.isDir && r.freeBlocks[h] == 0))
            && (g != -1 ==> st.free[g] > 0 && (r.isDir || r.freeBlocks[g] > 0))
  {
    hide FirstIn, FileOrder, DirGroup, LimitsOf;
    var groups := CountsOf(st.free, st.dirs, r.freeBlocks);
    if r.isDir {
      DirGroupComplete(groups, r.parentGroup, r.top, v.perGroup,
                       LimitsOf(v.groups, v.perGroup, v.blocksPerGroup, r.readings), r.readings.random);
      assert forall g :: 0 <= g < v.groups ==> groups[g].inodes == st.free[g];
    } else {
      var order, good := FileOrder(v.groups, r.parentGroup, r.parentIno), FileGood(groups);
      FileOrderComplete(v.groups, r.parentGroup, r.parentIno, good);
      assert FirstIn(order, good) != -1 ==> Is(good, FirstIn(order, good)) by { FirstInGood(order, good); }
      assert forall g :: 0 <= g < v.groups ==> (good[g] <==> st.free[g] != 0 && r.freeBlocks[g] != 0);
    }
  }

  lemma FirstInGood(order: seq<nat>, good: seq<bool>)
    ensures FirstIn(order, good) != -1 ==> Is(good, FirstIn(order, good))
  {
  }

  // ----- inode numbers

  /** The bit of the inode number is set. */
  predicate InUse(v: Volume, st: Inodes, ino: nat)
    requires ValidInodes(v, st)
  {
    && ino > 0 && Hi(ino - 1, v.perGroup) < v.groups && Lo(ino - 1, v.perGroup) < v.perGroup
    && st.used[Hi(ino - 1, v.perGroup)][Lo(ino - 1, v.perGroup)]
  }

  /** A number handed out was free, is in use from then on, and lies in the volume; no
      number ever becomes free. */
  lemma AllocFresh(v: Volume, st: Inodes, r: Request)
    requires ValidInodes(v, st) && Fits(v, r)
    ensures var st', a := Alloc(v, st, r).0, Alloc(v, st, r).1;
            && ValidInodes(v, st')
            && (a.Ino? ==> !InUse(v, st, a.ino) && InUse(v, st', a.ino) && Ordinary(v, a.ino))
            && (forall ino :: InUse(v, st, ino) ==> InUse(v, st', ino))
  {
    hide Alloc, Found, Hi, Lo, Join, U16;
    AllocIs(v, st, r);
    var p := Found(v, st, r);
    if p.Bit? {
      JoinDigits(v.perGroup, p.group, p.bit, v.groups);
    }
  }

  /** The state after a run of requests. */
  function Run(v: Volume, st: Inodes, rs: seq<Request>): (st': Inodes)
    requires ValidInodes(v, st) && forall k :: 0 <= k < |rs| ==> Fits(v, rs[k])
    ensures ValidInodes(v, st')
    decreases |rs|
  {
    if rs == [] then st
    else
      AllocFresh(v, st, rs[0]);
      Run(v, Alloc(v, st, rs[0]).0, rs[1..])
  }

  /** The answers of a run. */
  function Replies(v: Volume, st: Inodes, rs: seq<Request>): (out: seq<Allocated>)
    requires ValidInodes(v, st) && forall k :: 0 <= k < |rs| ==> Fits(v, rs[k])
    ensures |out| == |rs|
    decreases |rs|
  {
    if rs == [] then []
    else
      AllocFresh(v, st, rs[0]);
      [Alloc(v, st, rs[0]).1] + Replies(v, Alloc(v, st, rs[0]).0, rs[1..])
  }

  ghost predicate NoneInUse(v: Volume, st: Inodes, out: seq<Allocated>)
    requires ValidInodes(v, st)
  {
    forall k :: 0 <= k < |out| && out[k].Ino? ==> !InUse(v, st, out[k].ino)
  }

  ghost predicate AllDistinct(out: seq<Allocated>) {
    forall j, k :: 0 <= j < k < |out| && out[j].Ino? && out[k].Ino? ==> out[j].ino != out[k].ino
  }

  /** Over any run no inode number is handed out twice, and none that was in use. */
  lemma {:induction false} RunDistinct(v: Volume, st: Inodes, rs: seq<Request>)
    requires ValidInodes(v, st) && forall k :: 0 <= k < |rs| ==> Fits(v, rs[k])
    ensures NoneInUse(v, st, Replies(v, st, rs)) && AllDistinct(Replies(v, st, rs))
    decreases |rs|
  {
    hide Alloc, InUse;
    if rs != [] {
      AllocFresh(v, st, rs[0]);
      var st1, a := Alloc(v, st, rs[0]).0, Alloc(v, st, rs[0]).1;
      var rest := Replies(v, st1, rs[1..]);
      RunDistinct(v, st1, rs[1..]);
      assert NoneInUse(v, st1, rest);
      forall k | 0 <= k < |rest| && rest[k].Ino?
        ensures !InUse(v, st, rest[k].ino) && (a.Ino? ==> a.ino != rest[k].ino)
      {
        assert !InUse(v, st1, rest[k].ino);
      }
    }
  }

  /** From exact counts, every request of a run is answered exactly. */
  lemma {:induction false} RunSettled(v: Volume, st: Inodes, rs: seq<Request>)
    requires Settled(v, st) && forall k :: 0 <= k < |rs| ==> Fits(v, rs[k])
    ensures Settled(v, Run(v, st, rs))
    decreases |rs|
  {
    hide Alloc, Settled, Found;
    assert ValidInodes(v, st) by { SettledValid(v, st); }
    if rs != [] {
      AllocFresh(v, st, rs[0]);
      SettledKeeps(v, st, rs[0]);
      RunSettled(v, Alloc(v, st, rs[0]).0, rs[1..]);
    }
  }

  lemma SettledValid(v: Volume, st: Inodes)
    requires Settled(v, st)
    ensures ValidInodes(v, st)
  {
  }
}
