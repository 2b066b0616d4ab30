/** The map from a file's logical block number to the slots that lead to it:
    twelve direct slots, then one, two and three levels of pointer arrays. */
module BlockPath {
  import opened Bits

  const NDIR: nat := 12
  const IND: nat := 12
  const IND2: nat := 13
  const IND3: nat := 14
  const NSLOTS: nat := 15

  /** The first block reached through two levels of pointer arrays of n entries. */
  function First2(n: nat): nat {
    NDIR + n
  }

  /** The first block reached through three levels. */
  function First3(n: nat): nat {
    NDIR + n + n * n
  }

  /** Number of logical blocks with n pointers in a block. */
  function Domain(n: nat): nat {
    NDIR + n + n * n + n * n * n
  }

  /** The index path of a logical block; empty when the block is out of reach. */
  function PathOf(n: nat, i: nat): (p: seq<nat>)
    requires n > 0
    ensures |p| <= 4
  {
    if i < NDIR then [i]
    else if i < First2(n) then [IND, i - NDIR]
    else if i < First3(n) then
      var j := i - First2(n);
      [IND2, Hi(j, n), Lo(j, n)]
    else if i < Domain(n) then
      var j := i - First3(n);
      [IND3, Hi(Hi(j, n), n), Lo(Hi(j, n), n), Lo(j, n)]
    else []
  }

  /** The paths that name a slot of the tree. */
  predicate ValidPath(n: nat, p: seq<nat>) {
    || (|p| == 1 && p[0] < NDIR)
    || (2 <= |p| <= 4 && p[0] == IND + |p| - 2 && forall k :: 1 <= k < |p| ==> p[k] < n)
  }

  /** The logical block a path leads to. */
  function BlockAt(n: nat, p: seq<nat>): nat
    requires ValidPath(n, p)
  {
    if |p| == 1 then p[0]
    else if |p| == 2 then NDIR + p[1]
    else if |p| == 3 then First2(n) + Join(n, p[1], p[2])
    else First3(n) + Join(n, Join(n, p[1], p[2]), p[3])
  }

  /** Every addressable block has a valid path that leads back to it, and only
      addressable blocks have one. */
  lemma PathRoundTrip(n: nat, i: nat)
    requires n > 0
    ensures i < Domain(n) <==> PathOf(n, i) != []
    ensures i < Domain(n) ==> ValidPath(n, PathOf(n, i)) && BlockAt(n, PathOf(n, i)) == i
  {
    hide Hi, Lo, Join;
    if First2(n) <= i < First3(n) {
      SplitDigits(n, i - First2(n), n);
    } else if First3(n) <= i < Domain(n) {
      var j := i - First3(n);
      SplitDigits(n, j, n * n);
      SplitDigits(n, Hi(j, n), n);
    }
  }

  /** Every valid path is the path of the addressable block it leads to. */
  lemma BlockRoundTrip(n: nat, p: seq<nat>)
    requires n > 0 && ValidPath(n, p)
    ensures BlockAt(n, p) < Domain(n) && PathOf(n, BlockAt(n, p)) == p
  {
    hide Hi, Lo, Join;
    if |p| == 3 {
      JoinDigits(n, p[1], p[2], n);
    } else if |p| == 4 {
      JoinDigits(n, p[1], p[2], n);
      JoinDigits(n, Join(n, p[1], p[2]), p[3], n * n);
    }
  }

  /** Two blocks with one path are one block. */
  lemma PathInjective(n: nat, i: nat, j: nat)
    requires n > 0 && i < Domain(n) && PathOf(n, i) == PathOf(n, j)
    ensures i == j
  {
    PathRoundTrip(n, i);
    PathRoundTrip(n, j);
  }

  /** p comes before q in the tree: the first index where they differ is smaller. */
  ghost predicate PathBefore(p: seq<nat>, q: seq<nat>) {
    exists k: nat :: DiffersAt(p, q, k)
  }

  ghost predicate DiffersAt(p: seq<nat>, q: seq<nat>, k: nat) {
    k < |p| && k < |q| && p[..k] == q[..k] && p[k] < q[k]
  }

  lemma DiffersOneWay(p: seq<nat>, q: seq<nat>, k: nat, m: nat)
    requires DiffersAt(p, q, k)
    ensures !DiffersAt(q, p, m)
  {
    var both := if |p| < |q| then |p| else |q|;
    assert forall e, x :: 0 <= x < e <= both ==> p[..e][x] == p[x] && q[..e][x] == q[x];
  }

  /** The paths by number: twelve direct blocks, and arrays of n behind the slots 12, 13 and 14. */
  lemma PathNumbers(n: nat, a: nat, b: nat, c: nat, d: nat)
    requires n > 0 && a < 12 && b < n && c < n && d < n
    ensures PathOf(n, a) == [a] && PathOf(n, 12 + b) == [12, b]
    ensures PathOf(n, 12 + n + Join(n, b, c)) == [13, b, c] && Join(n, b, c) == b * n + c
    ensures PathOf(n, 12 + n + n * n + Join(n, Join(n, b, c), d)) == [14, b, c, d]
  {
    hide PathOf, Domain;
    BlockRoundTrip(n, [a]);
    BlockRoundTrip(n, [12, b]);
    DeepNumbers(n, b, c, d);
  }

  lemma DeepNumbers(n: nat, b: nat, c: nat, d: nat)
    requires n > 0 && b < n && c < n && d < n
    ensures PathOf(n, 12 + n + Join(n, b, c)) == [13, b, c]
    ensures PathOf(n, 12 + n + n * n + Join(n, Join(n, b, c), d)) == [14, b, c, d]
  {
    hide PathOf, Domain, Join;
    BlockRoundTrip(n, [13, b, c]);
    BlockRoundTrip(n, [14, b, c, d]);
  }

  /** Paths are ordered as the blocks they lead to. */
  lemma PathOrder(n: nat, i: nat, j: nat)
    requires n > 0 && i < Domain(n) && j < Domain(n)
    ensures i < j <==> PathBefore(PathOf(n, i), PathOf(n, j))
  {
    var p, q := PathOf(n, i), PathOf(n, j);
    if i < j {
      PathOrderForward(n, i, j);
    } else if j < i {
      PathOrderForward(n, j, i);
      var m: nat :| DiffersAt(q, p, m);
      forall k: nat ensures !DiffersAt(p, q, k) {
        DiffersOneWay(q, p, m, k);
      }
    }
  }

  lemma PathOrderForward(n: nat, i: nat, j: nat)
    requires n > 0 && i < j < Domain(n)
    ensures PathBefore(PathOf(n, i), PathOf(n, j))
  {
    hide Hi, Lo;
    var p, q := PathOf(n, i), PathOf(n, j);
    if p[0] < q[0] {
      assert DiffersAt(p, q, 0);
    } else if |p| == 2 {
      assert DiffersAt(p, q, 1);
    } else if |p| == 3 {
      DigitOrder(n, i - First2(n), j - First2(n));
      assert DiffersAt(p, q, if p[1] < q[1] then 1 else 2);
    } else {
      var a, b := i - First3(n), j - First3(n);
      DigitOrder(n, a, b);
      if Hi(a, n) < Hi(b, n) {
        DigitOrder(n, Hi(a, n), Hi(b, n));
      }
      assert DiffersAt(p, q, if p[1] < q[1] then 1 else if p[2] < q[2] then 2 else 3);
    }
  }

  /** How many further blocks the pointer array that holds block i can still map. */
  function Boundary(n: nat, i: nat): int
    requires n > 0
  {
    if i < NDIR then NDIR - 1 - i
    else if i < Domain(n) then n - 1 - PathOf(n, i)[|PathOf(n, i)| - 1]
    else -1 - Lo(i, n)
  }

  function Last(p: seq<nat>): nat
    requires p != []
  {
    p[|p| - 1]
  }

  /** The slots before the last one: which pointer array holds the block. */
  function Holder(p: seq<nat>): seq<nat>
    requires p != []
  {
    p[..|p| - 1]
  }

  /** Up to the boundary the path only moves along the last array. */
  lemma BoundaryReach(n: nat, i: nat, k: nat)
    requires n > 0 && i < Domain(n) && k <= Boundary(n, i)
    ensures i + k < Domain(n)
    ensures PathOf(n, i + k) == PathOf(n, i)[|PathOf(n, i)| - 1 := Last(PathOf(n, i)) + k]
  {
    hide Hi, Lo, First2, First3;
    PathRoundTrip(n, i);
    var p := PathOf(n, i);
    var q := p[|p| - 1 := Last(p) + k];
    assert ValidPath(n, q);
    assert BlockAt(n, q) == i + k;
    BlockRoundTrip(n, q);
  }

  /** One block past the boundary lies in another array, or after the direct slots. */
  lemma BoundaryEnd(n: nat, i: nat)
    requires n > 0 && i < Domain(n)
    ensures Boundary(n, i) >= 0
    ensures var next := i + Boundary(n, i) + 1;
            next < Domain(n) ==> next == NDIR || Holder(PathOf(n, next)) != Holder(PathOf(n, i))
  {
    PathRoundTrip(n, i);
    var p, next := PathOf(n, i), i + Boundary(n, i) + 1;
    if next < Domain(n) && next != NDIR {
      PathRoundTrip(n, next);
      var q := PathOf(n, next);
      if Holder(q) == Holder(p) {
        SameHolder(n, p, q);
      }
    }
  }

  /** For a block out of reach it is negative: one short of minus the place it would have in an
      array, counted from block 0. */
  lemma BoundaryPast(n: nat, i: nat)
    requires n > 0 && Domain(n) <= i
    ensures 0 <= Boundary(n, i) + n < n && (i + Boundary(n, i) + 1) % n == 0
  {
    assert i == i / n * n + i % n;
    DivModUnique(i / n * n, n, i / n, 0);
  }

  /** Within one pointer array, blocks differ as the last indices do. */
  lemma SameHolder(n: nat, p: seq<nat>, q: seq<nat>)
    requires ValidPath(n, p) && ValidPath(n, q) && Holder(p) == Holder(q)
    ensures |p| == |q| && BlockAt(n, q) - BlockAt(n, p) == Last(q) - Last(p)
  {
    assert |p| == |q|;
    assert forall k :: 0 <= k < |p| - 1 ==> Holder(p)[k] == p[k] && Holder(q)[k] == q[k];
  }

  /** n * n and n * n * n as 32-bit products. */
  function Square32(n: nat): nat {
    U32(n * n)
  }

  function Cube32(n: nat): nat {
    U32(n * n * n)
  }

  /** n = 2^k pointers fit a block, more than there are direct slots, and the 32-bit
      products the source computes do not overflow. */
  ghost predicate PointerCount(n: nat, k: nat) {
    n == Pow2(k) && NDIR < n && n * n * n < TWO32
  }

  /** Fills `offsets` with the index path of logical block `block`. */
  method BlockToPath(n: nat, ghost k: nat, block: nat, offsets: array<nat>) returns (depth: nat, boundary: int)
    requires PointerCount(n, k)
    requires offsets.Length == 4
    modifies offsets
    ensures depth == |PathOf(n, block)| && offsets[..depth] == PathOf(n, block)
    ensures boundary == Boundary(n, block)
    ensures depth == 0 <==> Domain(n) <= block
  {
    hide Square32, Cube32, Hi, Lo, And, Domain, First3, Pow2;
    PathRoundTrip(n, block);
    Products(n);
    var b := block;
    var final;
    depth := 0;
    var firstLimit := NDIR + n;
    var secondLimit := firstLimit + Square32(n);
    var thirdLimit := secondLimit + Cube32(n);
    if b < NDIR {
      offsets[0] := b;
      depth, final := 1, NDIR;
    } else if b < firstLimit {
      b := b - NDIR;
      offsets[0], offsets[1] := IND, b;
      depth, final := 2, n;
    } else if b < secondLimit {
      b := b - firstLimit;
      MaskIsLo(n, k, b);
      offsets[0], offsets[1], offsets[2] := IND2, Hi(b, n), And(b, n - 1);
      depth, final := 3, n;
    } else if b < thirdLimit {
      b := b - secondLimit;
      ThirdDigits(n, k, b);
      offsets[0], offsets[1], offsets[2], offsets[3] :=
        IND3, And(Hi(b, Square32(n)), n - 1), And(Hi(b, n), n - 1), And(b, n - 1);
      depth, final := 4, n;
    } else {
      final := 0;
    }
    MaskIsLo(n, k, b);
    boundary := final - 1 - And(b, n - 1);
  }

  /** The 32-bit limits are exact when the cube fits. */
  lemma Products(n: nat)
    requires NDIR < n && n * n * n < TWO32
    ensures Square32(n) > 0 && First2(n) + Square32(n) == First3(n)
    ensures First3(n) + Cube32(n) == Domain(n)
  {
    MulMono(1, n, n * n);
    assert n * (n * n) == n * n * n;
  }

  lemma MaskIsLo(n: nat, k: nat, b: nat)
    requires n == Pow2(k)
    ensures And(b, n - 1) == Lo(b, n) && (b < n ==> Lo(b, n) == b)
  {
    MaskIsRemainder(b, k);
    if b < n {
      DivModUnique(b, n, 0, b);
    }
  }

  /** The two masked quotients of the third level are its digits. */
  lemma ThirdDigits(n: nat, k: nat, j: nat)
    requires PointerCount(n, k)
    requires j < Cube32(n)
    ensures Square32(n) > 0
    ensures And(Hi(j, Square32(n)), n - 1) == Hi(Hi(j, n), n) && And(Hi(j, n), n - 1) == Lo(Hi(j, n), n)
  {
    hide Square32, Cube32, Hi, Lo, And, Pow2;
    Products(n);
    SquareDigits(n, j);
    SplitDigits(n, Hi(j, n), n);
    MaskIsLo(n, k, Hi(Hi(j, n), n));
    MaskIsLo(n, k, Hi(j, n));
  }

  lemma SquareDigits(n: nat, j: nat)
    requires NDIR < n && n * n * n < TWO32 && j < Cube32(n) && Square32(n) > 0
    ensures Hi(j, Square32(n)) == Hi(Hi(j, n), n) && Hi(j, n) < n * n
  {
    Products(n);
    assert Square32(n) == n * n;
    DivDiv(j, n);
    assert j < n * n * n;
    DivBelow(j, n, n * n);
  }

  /** The limit that tells reachable blocks from others, with its 32-bit products, is the
      size of the tree exactly when the cube of the pointer count fits 32 bits. */
  lemma LimitExact(n: nat)
    requires n > 0
    ensures First2(n) + Square32(n) + Cube32(n) == Domain(n) <==> n * n * n < TWO32
  {
    assert n * (n * n) == n * n * n;
    MulMono(1, n, n * n);
    LimitGap(n * n, n * n * n);
  }

  lemma LimitGap(square: nat, cube: nat)
    requires square <= cube
    ensures U32(square) + U32(cube) == square + cube <==> cube < TWO32
  {
  }

  /** Blocks of up to 4096 bytes keep both limits right. */
  lemma SmallBlocks(n: nat)
    requires 0 < n <= 1024
    ensures First2(n) + Square32(n) + Cube32(n) == Domain(n) && FileBlocks(n) == Domain(n)
  {
    hide Square32, Cube32, FileBlocks;
    MulMono(n, 1024, n);
    MulMono(n, 1024, 1024);
    MulMono(n * n, 1024 * 1024, n);
    MulMono(n, 1024, 1024 * 1024);
    LimitExact(n);
    SizeLimitExact(n, 1, 0);
  }

  /** Blocks of 8192 bytes break both: the products of the third level vanish. */
  lemma LimitsExample(n: nat)
    requires n == 2048
    ensures Domain(n) == 8594130956 && First2(n) + Square32(n) + Cube32(n) == 4196364 == FileBlocks(n)
  {
  }

  // ----- the largest file

  /** The number of blocks in the size limit, in signed 32-bit arithmetic. */
  function FileBlocks(n: nat): int {
    var square := S32(n * n);
    S32(S32(S32(NDIR + n) + square) + S32(square * n))
  }

  /** The size limit, which is never above `cap`. */
  function MaxFileSize(n: nat, blockSize: nat, cap: int): int {
    var size := S64(FileBlocks(n) * blockSize);
    if cap < size then cap else size
  }

  /** The limit is the size of the tree exactly when that has fewer than 2^31 blocks; the
      size in bytes is then right as long as it fits 63 bits. */
  lemma SizeLimitExact(n: nat, blockSize: nat, cap: int)
    ensures FileBlocks(n) == Domain(n) <==> Domain(n) < 0x8000_0000
    ensures Domain(n) < 0x8000_0000 && Domain(n) * blockSize < 0x8000_0000_0000_0000 ==>
              MaxFileSize(n, blockSize, cap) == if cap < Domain(n) * blockSize then cap else Domain(n) * blockSize
  {
    hide S32, S64;
    WrapProduct(n * n, n);
    WrapSum(NDIR + n, n * n);
    WrapSum(NDIR + n + n * n, n * n * n);
    assert FileBlocks(n) == S32(Domain(n));
    Wraps(Domain(n));
    Wraps64(Domain(n) * blockSize);
  }

  lemma WrapProduct(a: nat, n: nat)
    ensures S32(S32(a) * n) == S32(a * n)
  {
    hide S32;
    var q :| S32(a) == a + q * TWO32 by { Wraps(a); }
    assert S32(a) * n == a * n + (q * n) * TWO32;
    WrapShift(a * n, q * n);
  }

  lemma WrapShift(a: int, q: int)
    ensures S32(a + q * TWO32) == S32(a)
  {
    DivModUnique(a + q * TWO32, TWO32, a / TWO32 + q, a % TWO32);
  }

  lemma WrapSum(a: int, b: int)
    ensures S32(S32(a) + S32(b)) == S32(a + b)
  {
  }

  lemma Wraps(a: int)
    ensures exists q :: S32(a) == a + q * TWO32
    ensures 0 <= a ==> (S32(a) == a <==> a < 0x8000_0000)
  {
    var q := a / TWO32;
    assert S32(a) == a + (-q) * TWO32 || S32(a) == a + (-q - 1) * TWO32;
  }

  lemma Wraps64(a: nat)
    ensures a < 0x8000_0000_0000_0000 ==> S64(a) == a
  {
  }
}
