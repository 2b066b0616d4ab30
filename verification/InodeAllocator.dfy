/** Inode allocation: one bitmap, one free count and one directory count a group, and two
    global counters. */
module InodeAllocator {
  import opened Answers
  import opened Bits
  import opened BlockAllocator
  import opened InodeSearch

  datatype Volume = Volume(groups: nat, perGroup: nat, blocksPerGroup: nat, firstIno: nat, inodesCount: nat)
  {
    predicate Valid() {
      groups > 0 && 0 < perGroup < 0x1_0000
    }
  }

  /** used[g][b]: bit b of group g's inode bitmap; free[g] and dirs[g]: the counts in its
      descriptor; the two counters of the volume. */
  datatype Inodes = Inodes(used: seq<seq<bool>>, free: seq<nat>, dirs: seq<nat>, freeCounter: int, dirsCounter: int)

  predicate ValidInodes(v: Volume, st: Inodes) {
    && v.Valid() && |st.used| == |st.free| == |st.dirs| == v.groups
    && (forall g :: 0 <= g < v.groups ==> |st.used[g]| == v.perGroup)
    && (forall g :: 0 <= g < v.groups ==> st.free[g] < 0x1_0000 && st.dirs[g] < 0x1_0000)
  }

  /** A request, with what the disk and the inode cache answer: `unreadable` are the groups
      whose bitmap cannot be read, `inserted` is whether the cache takes the new inode.
      `freeBlocks` are the free-block counts of the descriptors. */
  datatype Request = Request(
    isDir: bool, parentGroup: nat, parentIno: nat, top: bool, readings: Readings,
    freeBlocks: seq<nat>, unreadable: set<nat>, inserted: bool)

  datatype Allocated = Ino(ino: nat) | Failed(err: int)

  function CountsOf(free: seq<nat>, dirs: seq<nat>, blocks: seq<nat>): seq<Counts>
    requires |free| == |dirs| == |blocks|
  {
    seq(|free|, g requires 0 <= g < |free| => Counts(free[g], dirs[g], blocks[g]))
  }

  /** The group the search starts in, or -1. */
  function Choose(v: Volume, st: Inodes, r: Request): int
    requires ValidInodes(v, st) && |r.freeBlocks| == v.groups
  {
    var groups := CountsOf(st.free, st.dirs, r.freeBlocks);
    if r.isDir
    then DirGroup(groups, r.parentGroup, r.top, v.perGroup,
                  LimitsOf(v.groups, v.perGroup, v.blocksPerGroup, r.readings), r.readings.random)
    else FirstIn(FileOrder(v.groups, r.parentGroup, r.parentIno), FileGood(groups))
  }

  /** Where the bitmaps have a clear bit: at a place, in a bitmap that cannot be read, or
      nowhere the search has looked. */
  datatype Place = Bit(group: nat, bit: nat) | Unread | Full

  /** The group tried after a full one. The test for the end is the wrong way round: every
      group is followed by group 0. */
  function Wrap(groups: nat, g: nat): nat {
    if g + 1 <= groups then 0 else g + 1
  }

  /** The rounds from i on. */
  function Scan(v: Volume, used: seq<seq<bool>>, unreadable: set<nat>, g: nat, i: nat): (p: Place)
    requires |used| == v.groups && g < v.groups
    ensures p.Bit? ==> p.group < v.groups && p.bit < |used[p.group]| && !used[p.group][p.bit]
    decreases v.groups - i
  {
    if i >= v.groups then Full
    else if g in unreadable then Unread
    else
      var b := FirstZero(used[g], 0);
      if b >= 0 then Bit(g, b) else Scan(v, used, unreadable, Wrap(v.groups, g), i + 1)
  }

  function InoOf(v: Volume, group: nat, bit: nat): nat {
    Join(v.perGroup, group, bit) + 1
  }

  /** The number is one the volume hands out. */
  predicate Ordinary(v: Volume, ino: nat) {
    v.firstIno <= ino <= v.inodesCount
  }

  function Mark(used: seq<seq<bool>>, group: nat, bit: nat): seq<seq<bool>>
    requires group < |used| && bit < |used[group]|
  {
    used[group := used[group][bit := true]]
  }

  /** The counts after an inode has been taken in a group. */
  function Charge(st: Inodes, group: nat, isDir: bool): Inodes
    requires group < |st.free| && group < |st.dirs|
  {
    var dir := if isDir then 1 else 0;
    Inodes(st.used, st.free[group := U16(st.free[group] as int - 1)],
           st.dirs[group := U16(st.dirs[group] + dir)], st.freeCounter - 1, st.dirsCounter + dir)
  }

  /** The bit is set before the number is looked at, and stays set when it is refused. */
  function Take(v: Volume, st: Inodes, r: Request, group: nat, bit: nat): (Inodes, Allocated)
    requires ValidInodes(v, st) && group < v.groups && bit < v.perGroup
  {
    var marked := st.(used := Mark(st.used, group, bit));
    var ino := InoOf(v, group, bit);
    if !Ordinary(v, ino) then (marked, Failed(EIO))
    else (Charge(marked, group, r.isDir), if r.inserted then Ino(ino) else Failed(EIO))
  }

  function Alloc(v: Volume, st: Inodes, r: Request): (Inodes, Allocated)
    requires ValidInodes(v, st) && |r.freeBlocks| == v.groups
  {
    ChooseInRange(v, st, r);
    var g := Choose(v, st, r);
    if g == -1 then (st, Failed(ENOSPC))
    else
      match Scan(v, st.used, r.unreadable, g, 0)
      case Full => (st, Failed(ENOSPC))
      case Unread => (st, Failed(EIO))
      case Bit(group, bit) => Take(v, st, r, group, bit)
  }

  lemma ChooseInRange(v: Volume, st: Inodes, r: Request)
    requires ValidInodes(v, st) && |r.freeBlocks| == v.groups
    ensures -1 <= Choose(v, st, r) < v.groups
  {
    hide FirstIn, FileOrder, DirGroup, LimitsOf;
    var groups := CountsOf(st.free, st.dirs, r.freeBlocks);
    if r.isDir {
      DirGroupComplete(groups, r.parentGroup, r.top, v.perGroup,
                       LimitsOf(v.groups, v.perGroup, v.blocksPerGroup, r.readings), r.readings.random);
    } else {
      FileOrderComplete(v.groups, r.parentGroup, r.parentIno, FileGood(groups));
    }
  }

  /** The volume's bitmaps and counts, changed in place. */
  class InodeTable {
    const volume: Volume
    const bitmaps: seq<array<bool>>
    var free: seq<nat>
    var dirs: seq<nat>
    var freeCounter: int
    var dirsCounter: int

    ghost function Used(): seq<seq<bool>>
      reads bitmaps
    {
      seq(|bitmaps|, g requires 0 <= g < |bitmaps| reads bitmaps => bitmaps[g][..])
    }

    ghost function Now(): Inodes
      reads this, bitmaps
    {
      Inodes(Used(), free, dirs, freeCounter, dirsCounter)
    }

    ghost predicate Valid()
      reads this, bitmaps
    {
      && ValidInodes(volume, Now())
      && forall g, h :: 0 <= g < h < |bitmaps| ==> bitmaps[g] != bitmaps[h]
    }

    /** Mounting. Both global counters start as the sum of the free-block counts. */
    constructor (volume: Volume, bitmaps: seq<array<bool>>, free: seq<nat>, dirs: seq<nat>, blocks: Allocator)
      requires volume.Valid() && |bitmaps| == |free| == |dirs| == volume.groups
      requires forall g :: 0 <= g < |bitmaps| ==> bitmaps[g].Length == volume.perGroup
      requires forall g :: 0 <= g < |free| ==> free[g] < 0x1_0000 && dirs[g] < 0x1_0000
      requires forall g, h :: 0 <= g < h < |bitmaps| ==> bitmaps[g] != bitmaps[h]
      ensures Valid() && this.volume == volume && this.bitmaps == bitmaps
      ensures Now() == Inodes(Used(), free, dirs, Sum(blocks.free), Sum(blocks.free))
    {
      this.volume, this.bitmaps, this.free, this.dirs := volume, bitmaps, free, dirs;
      new;
      freeCounter := blocks.CountFreeBlocks();
      dirsCounter := blocks.CountFreeBlocks();
    }

    /** The first clear bit from `from` on, or the number of bits. */
    static method FindNextZero(bits: array<bool>, from: nat) returns (at: nat)
      requires from <= bits.Length
      ensures at <= bits.Length && FirstZero(bits[..], from) == if at < bits.Length then at else -1
    {
      at := from;
      while at < bits.Length && bits[at]
        invariant from <= at <= bits.Length
        invariant FirstZero(bits[..], from) == FirstZero(bits[..], at)
      {
        at := at + 1;
      }
    }

    /** A group for a file. */
    method FindGroupOther(parentGroup: nat, parentIno: nat, groups: seq<Counts>) returns (r: int)
      requires Valid() && |groups| == volume.groups
      ensures r == FirstIn(FileOrder(volume.groups, parentGroup, parentIno), FileGood(groups))
    {
      hide Lo, U64, Jumps, Walk, FirstIn;
      ghost var good := FileGood(groups);
      var n := |groups|;
      var group := parentGroup;
      var h := Lo(U64(group + parentIno), n);
      LoBelow(U64(group + parentIno), n);
      FirstInStep([group], Jumps(n, h, 1) + Walk(n, parentGroup, 0), good);
      if group < n && groups[group].inodes != 0 && groups[group].blocks != 0 {
        return group;
      }
      FirstInJoin(Jumps(n, h, 1), Walk(n, parentGroup, 0), good);
      r := Jump(groups, h);
      if r == -1 {
        r := Stroll(groups, parentGroup);
      }
    }

    /** The probes at a distance that the counter doubles. */
    static method Jump(groups: seq<Counts>, start: nat) returns (r: int)
      requires start < |groups|
      ensures r == FirstIn(Jumps(|groups|, start, 1), FileGood(groups))
    {
      hide Jumps, FirstIn;
      var n, group: nat, i: nat := |groups|, start, 1;
      while i < n
        invariant 1 <= i && group < n
        invariant FirstIn(Jumps(n, start, 1), FileGood(groups)) == FirstIn(Jumps(n, group, i), FileGood(groups))
        decreases n - i
      {
        JumpsStep(n, group, i, FileGood(groups));
        group := group + 1;
        if group >= n {
          group := group - n;
        }
        if groups[group].inodes != 0 && groups[group].blocks != 0 {
          return group;
        }
        i := 2 * i;
      }
      JumpsEnd(n, group, i, FileGood(groups));
      r := -1;
    }

    /** The walk through all groups. */
    static method Stroll(groups: seq<Counts>, start: nat) returns (r: int)
      requires |groups| > 0
      ensures r == FirstIn(Walk(|groups|, start, 0), FileGood(groups))
    {
      hide Walk, FirstIn;
      var n, group: nat, i: nat := |groups|, start, 0;
      while i < n
        invariant i <= n
        invariant FirstIn(Walk(n, start, 0), FileGood(groups)) == FirstIn(Walk(n, group, i), FileGood(groups))
      {
        WalkStep(n, group, i, FileGood(groups));
        group := group + 1;
        if group >= n {
          group := 0;
        }
        if groups[group].inodes != 0 && groups[group].blocks != 0 {
          return group;
        }
        i := i + 1;
      }
      WalkEnd(n, group, FileGood(groups));
      r := -1;
    }

    /** A group for a directory. */
    method FindDirGroup(parentGroup: nat, top: bool, readings: Readings, groups: seq<Counts>) returns (r: int)
      requires Valid() && |groups| == volume.groups
      ensures r == DirGroup(groups, parentGroup, top, volume.perGroup,
                            LimitsOf(volume.groups, volume.perGroup, volume.blocksPerGroup, readings), readings.random)
    {
      hide Lo, U32, LimitsOf, Ring, FirstIn, TopFits, NearFits, AverageFits;
      var limits := LimitsOf(volume.groups, volume.perGroup, volume.blocksPerGroup, readings);
      var start := parentGroup;
      if top {
        start := Lo(U32(readings.random), |groups|);
        r := BestTop(groups, start, limits, volume.perGroup);
      } else {
        r := FirstNear(groups, start, limits);
      }
      if r == -1 {
        r := LastResort(groups, start, limits.inodes);
      }
    }

    /** The search below a top directory for the group with the fewest directories: every
        round looks at the group after `start`, and once it is taken it is no better than
        the best. */
    static method BestTop(groups: seq<Counts>, start: nat, limits: Limits, bestDirs: nat) returns (best: int)
      requires |groups| > 0
      ensures best == if TopFits(groups[Lo(start + 1, |groups|)], limits, bestDirs) then Lo(start + 1, |groups|) else -1
    {
      hide Lo;
      best := -1;
      var bestNow, i := bestDirs, 0;
      LoBelow(start + 1, |groups|);
      ghost var g := Lo(start + 1, |groups|);
      while i < |groups|
        invariant i <= |groups|
        invariant i == 0 ==> best == -1 && bestNow == bestDirs
        invariant i > 0 ==> best == if TopFits(groups[g], limits, bestDirs) then g else -1
        invariant i > 0 ==> bestNow == if TopFits(groups[g], limits, bestDirs) then groups[g].dirs else bestDirs
      {
        var group := Lo(start + 1, |groups|);
        if TopFits(groups[group], limits, bestNow) {
          best, bestNow := group, groups[group].dirs;
        }
        i := i + 1;
      }
    }

    /** The first group from `start` on that is not crowded. */
    static method FirstNear(groups: seq<Counts>, start: nat, limits: Limits) returns (r: int)
      requires |groups| > 0
      ensures r == FirstIn(Ring(|groups|, start, 0), NearGood(groups, limits))
    {
      hide Lo, NearFits, Ring, FirstIn;
      RingEnd(|groups|, start);
      for i := 0 to |groups|
        invariant FirstIn(Ring(|groups|, start, 0), NearGood(groups, limits))
               == FirstIn(Ring(|groups|, start, i), NearGood(groups, limits))
      {
        RingStep(|groups|, start, i, NearGood(groups, limits));
        LoBelow(start + i, |groups|);
        var group := Lo(start + i, |groups|);
        if NearFits(groups[group], limits) {
          return group;
        }
      }
      r := -1;
    }

    static method FirstAverage(groups: seq<Counts>, start: nat, average: nat) returns (r: int)
      requires |groups| > 0
      ensures r == FirstIn(Ring(|groups|, start, 0), AverageGood(groups, average))
    {
      hide Lo, AverageFits, Ring, FirstIn;
      RingEnd(|groups|, start);
      for i := 0 to |groups|
        invariant FirstIn(Ring(|groups|, start, 0), AverageGood(groups, average))
               == FirstIn(Ring(|groups|, start, i), AverageGood(groups, average))
      {
        RingStep(|groups|, start, i, AverageGood(groups, average));
        LoBelow(start + i, |groups|);
        var group := Lo(start + i, |groups|);
        if AverageFits(groups[group], average) {
          return group;
        }
      }
      r := -1;
    }

    /** Twice round the groups at most: the second time any free inode will do. */
    static method LastResort(groups: seq<Counts>, start: nat, average: nat) returns (r: int)
      requires |groups| > 0
      ensures r == Fallback(groups, start, average)
    {
      hide Lo, AverageFits, Ring, FirstIn;
      r := FirstAverage(groups, start, average);
      if r == -1 && average != 0 {
        r := FirstAverage(groups, start, 0);
      }
    }

    /** Searches group g's bitmap first, then those that follow it, and sets the first clear
        bit. */
    method Search(start: nat, unreadable: set<nat>) returns (p: Place)
      requires Valid() && start < volume.groups
      modifies bitmaps
      ensures p == Scan(volume, old(Used()), unreadable, start, 0)
      ensures Used() == if p.Bit? then Mark(old(Used()), p.group, p.bit) else old(Used())
    {
      hide FirstZero;
      var g: nat, i: nat := start, 0;
      while i < volume.groups
        invariant g < volume.groups && Used() == old(Used())
        invariant Scan(volume, old(Used()), unreadable, start, 0) == Scan(volume, old(Used()), unreadable, g, i)
        decreases volume.groups - i
      {
        if g in unreadable {
          return Unread;
        }
        assert bitmaps[g][..] == Used()[g] && |Used()[g]| == volume.perGroup by { assert Now().used[g] == Used()[g]; }
        var bit := FindNextZero(bitmaps[g], 0);
        if bit < volume.perGroup {
          SetBit(g, bit);
          return Bit(g, bit);
        }
        g := g + 1;
        if g <= volume.groups {
          g := 0;
        }
        i := i + 1;
      }
      p := Full;
    }

    method SetBit(g: nat, bit: nat)
      requires Valid() && g < |bitmaps| && bit < volume.perGroup
      requires bitmaps[g].Length == volume.perGroup
      modifies bitmaps[g]
      ensures Used() == Mark(old(Used()), g, bit)
    {
      bitmaps[g][bit] := true;
      assert forall h :: 0 <= h < |bitmaps| && h != g ==> bitmaps[h][..] == old(Used())[h];
    }

    method ChooseGroup(r: Request) returns (g: int)
      requires Valid() && |r.freeBlocks| == volume.groups
      ensures g == Choose(volume, Now(), r)
    {
      hide DirGroup, FirstIn, FileOrder, FileGood, LimitsOf;
      var groups := CountsOf(free, dirs, r.freeBlocks);
      if r.isDir {
        g := FindDirGroup(r.parentGroup, r.top, r.readings, groups);
      } else {
        g := FindGroupOther(r.parentGroup, r.parentIno, groups);
      }
    }

    /** Counts an inode taken in a group. */
    method ChargeGroup(group: nat, isDir: bool)
      requires Valid() && group < volume.groups
      modifies this
      ensures Valid() && Now() == Charge(old(Now()), group, isDir)
    {
      freeCounter := freeCounter - 1;
      free := free[group := U16(free[group] as int - 1)];
      if isDir {
        dirsCounter := dirsCounter + 1;
        dirs := dirs[group := U16(dirs[group] + 1)];
      } else {
        assert dirs == dirs[group := U16(dirs[group])];
      }
    }

    /** Allocates an inode number below a directory. */
    method AllocNewInode(r: Request) returns (a: Allocated)
      requires Valid() && |r.freeBlocks| == volume.groups
      modifies this, bitmaps
      ensures Valid() && (Now(), a) == Alloc(volume, old(Now()), r)
    {
      hide Scan, Choose, Charge, InoOf, Ordinary;
      ghost var before := Now();
      ChooseInRange(volume, before, r);
      var g := ChooseGroup(r);
      if g == -1 {
        return Failed(ENOSPC);
      }
      var p := Search(g, r.unreadable);
      if p.Unread? {
        return Failed(EIO);
      }
      if p.Full? {
        return Failed(ENOSPC);
      }
      var ino := InoOf(volume, p.group, p.bit);
      if !Ordinary(volume, ino) {
        return Failed(EIO);
      }
      ChargeGroup(p.group, r.isDir);
      a := if r.inserted then Ino(ino) else Failed(EIO);
    }
  }
}
