/** The choice of a group for a new inode: the groups in the order in which they are tried,
    and the first of them that passes the test. */
module InodeSearch {
  import opened Bits

  /** The first of the candidates that is good, or -1. */
  function FirstIn(candidates: seq<nat>, good: seq<bool>): (r: int)
    ensures r == -1 <==> forall k :: 0 <= k < |candidates| ==> !Is(good, candidates[k])
    ensures r != -1 ==> 0 <= r && Is(good, r) && r in candidates
    ensures r != -1 ==> exists k :: 0 <= k < |candidates| && FirstAt(candidates, good, k) && candidates[k] == r
  {
    if candidates == [] then -1
    else if Is(good, candidates[0]) then
      assert FirstAt(candidates, good, 0);
      candidates[0]
    else
      var r := FirstIn(candidates[1..], good);
      assert forall k :: 0 <= k < |candidates[1..]| && FirstAt(candidates[1..], good, k) ==>
                           FirstAt(candidates, good, k + 1) && candidates[k + 1] == candidates[1..][k];
      r
  }

  /** The k-th candidate is good, and none before it is. */
  predicate FirstAt(candidates: seq<nat>, good: seq<bool>, k: nat) {
    k < |candidates| && Is(good, candidates[k]) && forall j :: 0 <= j < k ==> !Is(good, candidates[j])
  }

  predicate Is(good: seq<bool>, g: nat) {
    g < |good| && good[g]
  }

  lemma {:induction false} FirstInJoin(a: seq<nat>, b: seq<nat>, good: seq<bool>)
    ensures FirstIn(a + b, good) == if FirstIn(a, good) == -1 then FirstIn(b, good) else FirstIn(a, good)
  {
    if a == [] {
      assert a + b == b;
    } else {
      assert (a + b)[1..] == a[1..] + b;
      FirstInJoin(a[1..], b, good);
    }
  }

  // ----- a group for a file

  /** The group after g, the last one followed by the first. */
  function Following(n: nat, g: nat): nat {
    if g + 1 >= n then 0 else g + 1
  }

  /** As `Following`, by subtraction. */
  function Ahead(n: nat, g: nat): nat {
    if g + 1 >= n then g + 1 - n else g + 1
  }

  /** The probes while i, doubled every time, is below n. */
  function Jumps(n: nat, g: nat, i: nat): seq<nat>
    requires i > 0
    decreases n - i
  {
    if i >= n then [] else [Ahead(n, g)] + Jumps(n, Ahead(n, g), 2 * i)
  }

  /** The probes of a walk through the groups. */
  function Walk(n: nat, g: nat, i: nat): seq<nat>
    decreases n - i
  {
    if i >= n then [] else [Following(n, g)] + Walk(n, Following(n, g), i + 1)
  }

  /** Everything the search for a file's group tries, in order. */
  function FileOrder(n: nat, parent: nat, ino: nat): seq<nat>
    requires n > 0
  {
    [parent] + (Jumps(n, Lo(U64(parent + ino), n), 1) + Walk(n, parent, 0))
  }

  /** The walk reaches every group, wherever it starts. */
  lemma {:induction false} WalkReaches(n: nat, g: nat, i: nat, x: nat)
    requires i < n && x < n
    requires if g + 1 >= n then x < n - i else (g < x <= g + (n - i) || x + n <= g + (n - i))
    ensures x in Walk(n, g, i)
    decreases n - i
  {
    if x != Following(n, g) {
      WalkReaches(n, Following(n, g), i + 1, x);
    }
  }

  /** The walk from any group reaches every group. */
  lemma WalkComplete(n: nat, g: nat, x: nat)
    requires x < n
    ensures x in Walk(n, g, 0)
  {
    WalkReaches(n, g, 0, x);
  }

  /** The search for a file's group fails exactly when no group is good, wherever it
      starts. */
  lemma FileOrderComplete(n: nat, parent: nat, ino: nat, good: seq<bool>)
    requires n > 0 && |good| == n
    ensures FirstIn(FileOrder(n, parent, ino), good) == -1 <==> forall g :: 0 <= g < n ==> !good[g]
  {
    var order := FileOrder(n, parent, ino);
    forall g: nat | g < n ensures g in order {
      WalkComplete(n, parent, g);
    }
    if FirstIn(order, good) == -1 {
      forall g: nat | g < n ensures !good[g] {
        assert g in order;
        var k :| 0 <= k < |order| && order[k] == g;
        assert !Is(good, order[k]);
      }
    }
  }

  // ----- a group for a directory

  /** The groups from p on, once round. */
  function Ring(n: nat, p: nat, i: nat): seq<nat>
    requires n > 0
    decreases n - i
  {
    if i >= n then [] else [Lo(p + i, n)] + Ring(n, p, i + 1)
  }

  lemma {:induction false} RingIndex(n: nat, p: nat, i: nat, k: nat)
    requires n > 0 && i + k < n
    ensures k < |Ring(n, p, i)| && Ring(n, p, i)[k] == Lo(p + i + k, n)
    decreases k
  {
    if k > 0 {
      RingIndex(n, p, i + 1, k - 1);
    }
  }

  /** Once round reaches every group. */
  lemma RingComplete(n: nat, p: nat, x: nat)
    requires x < n
    ensures x in Ring(n, p, 0)
  {
    var s := Lo(p, n);
    var k := if s <= x then x - s else x + n - s;
    assert p == p / n * n + s;
    if s <= x {
      DivModUnique(p + k, n, p / n, x);
    } else {
      assert (p / n + 1) * n == p / n * n + n;
      DivModUnique(p + k, n, p / n + 1, x);
    }
    RingIndex(n, p, 0, k);
  }

  /** What the counters were read as; `random` is the number drawn for a top directory. */
  datatype Readings = Readings(freeInodes: nat, freeBlocks: nat, dirs: nat, random: nat)

  /** The limits worked out of the readings, in the widths of the source's variables. */
  datatype Limits = Limits(inodes: nat, blocks: nat, maxDirs: int, minInodes: int, minBlocks: nat)

  function LimitsOf(n: nat, inodesPerGroup: nat, blocksPerGroup: nat, r: Readings): Limits
    requires n > 0
  {
    var aveInodes, aveBlocks := Hi(U32(r.freeInodes), n), Hi(U64(r.freeBlocks), n);
    Limits(aveInodes, aveBlocks,
           S32(Hi(U32(r.dirs), n) + inodesPerGroup / 16),
           S32(aveInodes - inodesPerGroup / 4),
           U64(aveBlocks - blocksPerGroup / 4))
  }

  /** One group's counts, as its descriptor gives them. */
  datatype Counts = Counts(inodes: nat, dirs: nat, blocks: nat)

  predicate TopFits(c: Counts, l: Limits, bestDirs: nat) {
    c.inodes != 0 && c.dirs < bestDirs && l.inodes <= c.inodes && l.blocks < c.blocks
  }

  predicate NearFits(c: Counts, l: Limits) {
    c.inodes != 0 && c.dirs <= l.maxDirs && l.minInodes <= c.inodes && l.minBlocks <= c.blocks
  }

  predicate AverageFits(c: Counts, average: nat) {
    c.inodes != 0 && average <= c.inodes
  }

  function NearGood(groups: seq<Counts>, l: Limits): seq<bool> {
    seq(|groups|, g requires 0 <= g < |groups| => NearFits(groups[g], l))
  }

  function AverageGood(groups: seq<Counts>, average: nat): seq<bool> {
    seq(|groups|, g requires 0 <= g < |groups| => AverageFits(groups[g], average))
  }

  function FileGood(groups: seq<Counts>): seq<bool> {
    seq(|groups|, g requires 0 <= g < |groups| => groups[g].inodes != 0 && groups[g].blocks != 0)
  }

  /** The last resort: the first group from p on with the average of free inodes, or else
      with any. */
  function Fallback(groups: seq<Counts>, p: nat, average: nat): int
    requires |groups| > 0
  {
    var r := FirstIn(Ring(|groups|, p, 0), AverageGood(groups, average));
    if r != -1 || average == 0 then r else FirstIn(Ring(|groups|, p, 0), AverageGood(groups, 0))
  }

  /** The group for a directory. Below the root, or a directory marked as a top, the source
      looks at one and the same group in every round: the one after a random group. */
  function DirGroup(groups: seq<Counts>, parent: nat, top: bool, bestDirs: nat, l: Limits, random: nat): int
    requires |groups| > 0
  {
    if top then
      var p := Lo(U32(random), |groups|);
      var g := Lo(p + 1, |groups|);
      if TopFits(groups[g], l, bestDirs) then g else Fallback(groups, p, l.inodes)
    else
      var r := FirstIn(Ring(|groups|, parent, 0), NearGood(groups, l));
      if r != -1 then r else Fallback(groups, parent, l.inodes)
  }

  /** Three groups that all fit, below a top directory: the one chosen has five directories,
      though another has none. */
  lemma BestTopExample(groups: seq<Counts>, l: Limits)
    requires groups == [Counts(8, 1, 8), Counts(8, 5, 8), Counts(8, 0, 8)] && l == Limits(4, 4, 0, 0, 0)
    ensures forall g :: 0 <= g < |groups| ==> TopFits(groups[g], l, 100)
    ensures DirGroup(groups, 0, true, 100, l, 0) == 1 && groups[2].dirs < groups[1].dirs
  {
  }

  /** The last resort fails exactly when no group has a free inode, and gives a group with
      the average when there is one. */
  lemma FallbackComplete(groups: seq<Counts>, p: nat, average: nat)
    requires |groups| > 0
    ensures var r := Fallback(groups, p, average);
            && (r == -1 <==> forall g :: 0 <= g < |groups| ==> groups[g].inodes == 0)
            && (r != -1 ==> 0 <= r < |groups| && groups[r].inodes != 0)
            && ((exists g :: 0 <= g < |groups| && AverageFits(groups[g], average)) ==>
                  r != -1 && average <= groups[r].inodes)
  {
    hide Lo;
    var n, ring := |groups|, Ring(|groups|, p, 0);
    forall g: nat | g < n ensures g in ring {
      RingComplete(n, p, g);
    }
    forall average: nat
      ensures FirstIn(ring, AverageGood(groups, average)) == -1 ==>
                forall g :: 0 <= g < n ==> !AverageFits(groups[g], average)
    {
      RingMisses(groups, ring, average);
    }
  }

  lemma RingMisses(groups: seq<Counts>, ring: seq<nat>, average: nat)
    requires forall g: nat :: g < |groups| ==> g in ring
    ensures FirstIn(ring, AverageGood(groups, average)) == -1 ==>
              forall g :: 0 <= g < |groups| ==> !AverageFits(groups[g], average)
  {
    var good := AverageGood(groups, average);
    if FirstIn(ring, good) == -1 {
      forall g: nat | g < |groups| ensures !AverageFits(groups[g], average) {
        assert g in ring;
        var k :| 0 <= k < |ring| && ring[k] == g;
        assert !Is(good, ring[k]);
      }
    }
  }

  /** Whatever the averages and limits are, the search for a directory's group fails exactly
      when no group has a free inode, and never returns a group without one. */
  lemma DirGroupComplete(groups: seq<Counts>, parent: nat, top: bool, bestDirs: nat, l: Limits, random: nat)
    requires |groups| > 0
    ensures var r := DirGroup(groups, parent, top, bestDirs, l, random);
            && (r == -1 <==> forall g :: 0 <= g < |groups| ==> groups[g].inodes == 0)
            && (r != -1 ==> 0 <= r < |groups| && groups[r].inodes != 0)
  {
    hide U32, Lo, Ring;
    FallbackComplete(groups, parent, l.inodes);
    FallbackComplete(groups, Lo(U32(random), |groups|), l.inodes);
    LoBelow(Lo(U32(random), |groups|) + 1, |groups|);
    var near := FirstIn(Ring(|groups|, parent, 0), NearGood(groups, l));
    assert near != -1 ==> Is(NearGood(groups, l), near);
  }

  lemma LoBelow(x: nat, n: nat)
    requires n > 0
    ensures Lo(x, n) < n
  {
  }

  // ----- one step of each search

  lemma FirstInStep(a: seq<nat>, b: seq<nat>, good: seq<bool>)
    requires |a| == 1
    ensures FirstIn(a + b, good) == if Is(good, a[0]) then a[0] else FirstIn(b, good)
  {
    assert (a + b)[1..] == b;
  }

  lemma JumpsStep(n: nat, g: nat, i: nat, good: seq<bool>)
    requires 0 < i < n
    ensures FirstIn(Jumps(n, g, i), good) ==
              if Is(good, Ahead(n, g)) then Ahead(n, g) else FirstIn(Jumps(n, Ahead(n, g), 2 * i), good)
  {
    FirstInStep([Ahead(n, g)], Jumps(n, Ahead(n, g), 2 * i), good);
  }

  lemma WalkStep(n: nat, g: nat, i: nat, good: seq<bool>)
    requires i < n
    ensures FirstIn(Walk(n, g, i), good) ==
              if Is(good, Following(n, g)) then Following(n, g) else FirstIn(Walk(n, Following(n, g), i + 1), good)
  {
    FirstInStep([Following(n, g)], Walk(n, Following(n, g), i + 1), good);
  }

  lemma RingStep(n: nat, p: nat, i: nat, good: seq<bool>)
    requires i < n
    ensures FirstIn(Ring(n, p, i), good) ==
              if Is(good, Lo(p + i, n)) then Lo(p + i, n) else FirstIn(Ring(n, p, i + 1), good)
  {
    FirstInStep([Lo(p + i, n)], Ring(n, p, i + 1), good);
  }

  lemma RingEnd(n: nat, p: nat)
    requires n > 0
    ensures forall good :: FirstIn(Ring(n, p, n), good) == -1
  {
  }

  lemma JumpsEnd(n: nat, g: nat, i: nat, good: seq<bool>)
    requires 0 < n <= i
    ensures FirstIn(Jumps(n, g, i), good) == -1
  {
  }

  lemma WalkEnd(n: nat, g: nat, good: seq<bool>)
    ensures FirstIn(Walk(n, g, n), good) == -1
  {
  }
}
