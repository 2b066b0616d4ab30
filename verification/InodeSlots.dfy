/** Where an inode lies on the disk. */
module InodeSlots {
  import opened Answers
  import opened Bits

  const ROOT_INO: nat := 2

  /** The inode tables: `tables[g]` is the first block of group g's. */
  datatype Area = Area(
    blockBits: nat, inodeSize: nat, perGroup: nat, firstIno: nat, inodesCount: nat, tables: seq<nat>)
  {
    function BlockSize(): nat {
      Pow2(blockBits)
    }

    /** A mount sees to these: the inode size divides the block size. */
    predicate Valid() {
      inodeSize > 0 && perGroup > 0 && firstIno > 0 && BlockSize() % inodeSize == 0
    }

    function PerBlock(): (n: nat)
      requires Valid()
      ensures n > 0 && n * inodeSize == BlockSize()
    {
      WholeQuotient(BlockSize(), inodeSize);
      BlockSize() / inodeSize
    }

    /** Blocks of a group's table, rounded down. */
    function TableBlocks(): nat
      requires Valid()
    {
      perGroup / PerBlock()
    }
  }

  lemma WholeQuotient(a: nat, d: nat)
    requires a > 0 && d > 0 && a % d == 0
    ensures a / d > 0 && a / d * d == a
  {
    assert a == a / d * d + a % d;
  }

  datatype Where = At(block: nat, offset: nat) | Nowhere(err: int)

  /** The block and the byte in it where inode ino starts. */
  function Find(l: Area, ino: nat): Where
    requires l.Valid()
  {
    if (ino != ROOT_INO && ino < l.firstIno) || l.inodesCount < ino then Nowhere(EINVAL)
    else
      MulMono(0, Lo(ino - 1, l.perGroup), l.inodeSize);
      var group, at := Hi(ino - 1, l.perGroup), Lo(ino - 1, l.perGroup) * l.inodeSize;
      if group >= |l.tables| then Nowhere(EIO)
      else At(l.tables[group] + at / l.BlockSize(), And(at, l.BlockSize() - 1))
  }

  /** Shift and mask by the block size are quotient and remainder by the inodes a block
      holds. */
  lemma SlotOf(l: Area, k: nat)
    requires l.Valid()
    ensures k * l.inodeSize / l.BlockSize() == k / l.PerBlock()
    ensures And(k * l.inodeSize, l.BlockSize() - 1) == k % l.PerBlock() * l.inodeSize
  {
    hide And, Pow2;
    MaskIsRemainder(k * l.inodeSize, l.blockBits);
    ScaledDigits(k, l.PerBlock(), l.inodeSize, l.BlockSize());
  }

  lemma ScaledDigits(k: nat, n: nat, s: nat, b: nat)
    requires n > 0 && s > 0 && b == n * s
    ensures b > 0 && k * s / b == k / n && k * s % b == k % n * s
  {
    var q, r := k / n, k % n;
    assert k == q * n + r;
    SplitScaled(q, n, r, s);
    MulMono(1, n, s);
    DivModUnique(k * s, b, q, r * s);
  }

  lemma SplitScaled(q: nat, n: nat, r: nat, s: nat)
    requires r < n && s > 0
    ensures (q * n + r) * s == q * (n * s) + r * s && r * s < n * s
  {
    assert (q * n + r) * s == q * n * s + r * s && q * n * s == q * (n * s);
    MulMono(r + 1, n, s);
    assert (r + 1) * s == r * s + s;
  }

  /** The number is one the volume has: the root's, or one from the first ordinary number to
      the last. */
  predicate HasNumber(l: Area, ino: nat) {
    (ino == 2 || l.firstIno <= ino) && ino <= l.inodesCount
  }

  /** The byte `offset` of block `block` is byte `at` counted from the start of the table of
      group g. */
  predicate ByteOf(l: Area, g: nat, block: nat, offset: nat, at: nat) {
    && g < |l.tables| && l.tables[g] <= block && offset < l.BlockSize()
    && (block - l.tables[g]) * l.BlockSize() + offset == at
  }

  /** An inode is found exactly when the volume has its number and its group has a table; it
      starts at the byte of that table that leaves room for the inodes of the group before it.
      Any other number is invalid or an I/O error. */
  lemma ByteExact(l: Area, ino: nat)
    requires l.Valid()
    ensures Find(l, ino).At? <==> HasNumber(l, ino) && (ino - 1) / l.perGroup < |l.tables|
    ensures Find(l, ino).At? ==>
              var g := (ino - 1) / l.perGroup;
              g >= 0 && ino - 1 >= g * l.perGroup
              && ByteOf(l, g, Find(l, ino).block, Find(l, ino).offset, (ino - 1 - g * l.perGroup) * l.inodeSize)
    ensures Find(l, ino).Nowhere? ==> Find(l, ino).err == if HasNumber(l, ino) then EIO else EINVAL
  {
    hide And, Pow2;
    if HasNumber(l, ino) {
      var g, k := Hi(ino - 1, l.perGroup), Lo(ino - 1, l.perGroup);
      assert ino - 1 == g * l.perGroup + k;
      SlotOf(l, k);
      MaskIsRemainder(k * l.inodeSize, l.blockBits);
      var at, size := k * l.inodeSize, l.BlockSize();
      assert at == at / size * size + at % size;
    }
  }

  /** The inode starts at this byte of this block. */
  predicate StartsAt(l: Area, ino: nat, block: nat, offset: nat)
    requires l.Valid()
  {
    && HasNumber(l, ino) && ino > 0
    && var g := (ino - 1) / l.perGroup;
       g < |l.tables| && ByteOf(l, g, block, offset, (ino - 1 - g * l.perGroup) * l.inodeSize)
  }

  /** That is one byte of one block, and the one found. */
  lemma StartExact(l: Area, ino: nat, block: nat, offset: nat)
    requires l.Valid()
    ensures StartsAt(l, ino, block, offset) <==> Find(l, ino) == At(block, offset)
  {
    hide And, Pow2, Find;
    ByteExact(l, ino);
    if StartsAt(l, ino, block, offset) {
      var g, w := (ino - 1) / l.perGroup, Find(l, ino);
      OneSplit(block - l.tables[g], offset, w.block - l.tables[g], w.offset, l.BlockSize());
    }
  }

  lemma OneSplit(q: nat, r: nat, q': nat, r': nat, size: nat)
    requires r < size && r' < size && q * size + r == q' * size + r'
    ensures q == q' && r == r'
  {
    DivModUnique(q * size + r, size, q, r);
    DivModUnique(q * size + r, size, q', r');
  }

  /** Blocks of 1024 bytes, inodes of 128: the root, inode 2, is the second in the first
      group's table, inode 17 the first in the second's, and inode 3 is reserved. */
  lemma ByteExample(l: Area)
    requires l == Area(10, 128, 16, 11, 32, [5, 40])
    ensures l.Valid() && Find(l, 2) == At(5, 128) && Find(l, 16) == At(6, 896) && Find(l, 17) == At(40, 0)
    ensures Find(l, 3) == Nowhere(EINVAL) && Find(l, 33) == Nowhere(EINVAL)
  {
    hide And, Find;
    assert l.BlockSize() == 1024 by { ThousandBytes(); }
    ByteExact(l, 2);
    ByteExact(l, 16);
    ByteExact(l, 17);
    ByteExact(l, 3);
    ByteExact(l, 33);
    OneByte(l, 0, Find(l, 2), 128);
    OneByte(l, 0, Find(l, 16), 1920);
    OneByte(l, 1, Find(l, 17), 0);
  }

  lemma ThousandBytes()
    ensures Pow2(10) == 1024
  {
    assert Pow2(5) == 32;
    assert Pow2(8) == 256;
  }

  lemma OneByte(l: Area, g: nat, w: Where, at: nat)
    requires l.BlockSize() == 1024 && w.At? && ByteOf(l, g, w.block, w.offset, at)
    ensures w.block == l.tables[g] + at / 1024 && w.offset == at % 1024
  {
  }

  /** An inode never straddles two blocks. */
  lemma SlotInBlock(l: Area, ino: nat)
    requires l.Valid() && Find(l, ino).At?
    ensures Find(l, ino).offset + l.inodeSize <= l.BlockSize()
  {
    hide And, Pow2;
    var k, n := Lo(ino - 1, l.perGroup), l.PerBlock();
    SlotOf(l, k);
    MulMono(k % n + 1, n, l.inodeSize);
    assert (k % n + 1) * l.inodeSize == k % n * l.inodeSize + l.inodeSize;
  }

  /** All inodes of every group lie inside the group's table exactly when the inodes a block
      holds divide the inodes of a group. */
  lemma TableExact(l: Area)
    requires l.Valid()
    ensures l.perGroup % l.PerBlock() == 0 <==>
              (forall k: nat :: k < l.perGroup ==> Hi(k, l.PerBlock()) < l.TableBlocks())
  {
    var n, m := l.PerBlock(), l.perGroup;
    assert m == m / n * n + m % n;
    if m % n == 0 {
      forall k: nat | k < m ensures Hi(k, n) < m / n { DivBelow(k, n, m / n); }
    } else {
      DivModUnique(m - 1, n, m / n, m % n - 1);
      assert Hi(m - 1, n) == m / n;
    }
  }

  /** The block of an inode is one of its group's table. */
  lemma SlotInTable(l: Area, ino: nat)
    requires l.Valid() && Find(l, ino).At? && l.perGroup % l.PerBlock() == 0
    ensures var g := Hi(ino - 1, l.perGroup);
            g < |l.tables| && l.tables[g] <= Find(l, ino).block < l.tables[g] + l.TableBlocks()
  {
    hide And, Pow2;
    var k := Lo(ino - 1, l.perGroup);
    SlotOf(l, k);
    TableExact(l);
    assert Hi(k, l.PerBlock()) < l.TableBlocks();
  }

  /** The tables of two groups have no block in common. */
  ghost predicate Apart(l: Area)
    requires l.Valid()
  {
    forall g: nat, h: nat :: g < h < |l.tables| ==>
      l.tables[g] + l.TableBlocks() <= l.tables[h] || l.tables[h] + l.TableBlocks() <= l.tables[g]
  }

  /** The bytes of two inodes do not overlap. */
  lemma SlotsApart(l: Area, i: nat, j: nat)
    requires l.Valid() && Apart(l) && l.perGroup % l.PerBlock() == 0
    requires Find(l, i).At? && Find(l, j).At? && i != j
    ensures var a, b := Find(l, i), Find(l, j);
            a.block != b.block || a.offset + l.inodeSize <= b.offset || b.offset + l.inodeSize <= a.offset
  {
    hide And, Pow2;
    SlotInTable(l, i);
    SlotInTable(l, j);
    var x, y := Lo(i - 1, l.perGroup), Lo(j - 1, l.perGroup);
    if Hi(i - 1, l.perGroup) == Hi(j - 1, l.perGroup) {
      assert x != y by { DigitsDiffer(i - 1, j - 1, l.perGroup); }
      SlotOf(l, x);
      SlotOf(l, y);
      SameGroup(x, y, l.PerBlock(), l.inodeSize);
    }
  }

  lemma DigitsDiffer(a: nat, b: nat, n: nat)
    requires n > 0 && a != b && Hi(a, n) == Hi(b, n)
    ensures Lo(a, n) != Lo(b, n)
  {
    if a < b { DigitOrder(n, a, b); } else { DigitOrder(n, b, a); }
  }

  lemma SameGroup(x: nat, y: nat, n: nat, s: nat)
    requires n > 0 && x != y
    ensures x / n != y / n || x % n * s + s <= y % n * s || y % n * s + s <= x % n * s
  {
    var p, q := x % n, y % n;
    assert x == x / n * n + p && y == y / n * n + q;
    if p < q {
      MulMono(p + 1, q, s);
      assert (p + 1) * s == p * s + s;
    } else if q < p {
      MulMono(q + 1, p, s);
      assert (q + 1) * s == q * s + s;
    }
  }
}
