/** An inode in memory and on the disk: what writing keeps, and what reading makes of it. */
module InodeCodec {
  import opened Answers
  import opened Bits

  const NR_BLOCKS: nat := 15

  type Half = x: nat | x < 0x1_0000
  type Word = x: nat | x < TWO32

  const S_SYNC: bv32 := 1
  const S_NOATIME: bv32 := 2
  const S_APPEND: bv32 := 4
  const S_IMMUTABLE: bv32 := 8
  const S_DIRSYNC: bv32 := 64

  const SYNC_FL: bv32 := 0x8
  const IMMUTABLE_FL: bv32 := 0x10
  const APPEND_FL: bv32 := 0x20
  const NOATIME_FL: bv32 := 0x80
  const DIRSYNC_FL: bv32 := 0x10000

  const VFS_FIVE: bv32 := 0x4F      // all five of the first list
  const DISK_FIVE: bv32 := 0x100B8  // all five of the second

  const S_IFMT: bv16 := 0xF000
  const S_IFREG: bv16 := 0x8000
  const S_IFCHR: bv16 := 0x2000
  const S_IFBLK: bv16 := 0x6000

  predicate IsReg(mode: bv16) {
    mode & S_IFMT == S_IFREG
  }

  predicate IsDevice(mode: bv16) {
    mode & S_IFMT == S_IFCHR || mode & S_IFMT == S_IFBLK
  }

  /** The fields of the in-memory inode: those the kernel keeps and those of the driver.
      Sizes and times are 64-bit signed numbers, block counts 64-bit unsigned ones. */
  datatype Memory = Memory(
    mode: bv16, uid: bv32, gid: bv32, nlink: Word, size: int, atime: int, ctime: int, mtime: int,
    blocks: nat, vfsFlags: bv32, generation: Word, data: seq<Word>, flags: bv32, faddr: Word,
    fragNo: bv8, fragSize: bv8, isNew: bool, fileAcl: Word, dirAcl: Word, dtime: Word)

  /** The fields of the inode on the disk. */
  datatype Disk = Disk(
    mode: bv16, uid: bv16, size: Word, atime: Word, ctime: Word, mtime: Word, dtime: Word, gid: bv16,
    links: Half, blocks: Word, flags: bv32, block: seq<Word>, generation: Word, fileAcl: Word, dirAcl: Word,
    faddr: Word, frag: bv8, fsize: bv8, uidHigh: bv16, gidHigh: bv16)

  /** The mount option for 16-bit owners, and the number that stands for a too large one, user or
      group: the source takes the user's for both. */
  datatype Mount = Mount(noUid32: bool, overflow: bv16)

  function Zeroed(): Disk {
    Disk(0, 0, 0, 0, 0, 0, 0, 0, 0, 0, 0, seq(NR_BLOCKS, _ => 0), 0, 0, 0, 0, 0, 0, 0, 0)
  }

  // ----- flags

  function Flag(word: bv32, test: bv32, value: bv32): bv32 {
    if word & test != 0 then value else 0
  }

  lemma FlagCopied(word: bv32, from: bv32, test: bv32, value: bv32)
    ensures from & test != 0 ==> word | Flag(from, test, value) == word | value
    ensures from & test == 0 ==> word | Flag(from, test, value) == word
  {
    if from & test == 0 {
      assert Flag(from, test, value) == 0;
      OrNothing(word);
    }
  }

  lemma OrNothing(word: bv32)
    ensures word | 0 == word
  {
  }

  /** The driver's flag word, with the five flags of the kernel's copied into it. */
  function FlagsIn(flags: bv32, vfs: bv32): bv32 {
    (flags & !DISK_FIVE)
    | Flag(vfs, S_SYNC, SYNC_FL) | Flag(vfs, S_APPEND, APPEND_FL) | Flag(vfs, S_IMMUTABLE, IMMUTABLE_FL)
    | Flag(vfs, S_NOATIME, NOATIME_FL) | Flag(vfs, S_DIRSYNC, DIRSYNC_FL)
  }

  /** The kernel's flag word, with the five flags of the driver's copied into it. */
  function FlagsOut(vfs: bv32, flags: bv32): bv32 {
    (vfs & !VFS_FIVE)
    | Flag(flags, SYNC_FL, S_SYNC) | Flag(flags, APPEND_FL, S_APPEND) | Flag(flags, IMMUTABLE_FL, S_IMMUTABLE)
    | Flag(flags, NOATIME_FL, S_NOATIME) | Flag(flags, DIRSYNC_FL, S_DIRSYNC)
  }

  lemma EachFlag(flags: bv32, vfs: bv32)
    ensures FlagsIn(flags, vfs) & SYNC_FL != 0 <==> vfs & S_SYNC != 0
    ensures FlagsIn(flags, vfs) & APPEND_FL != 0 <==> vfs & S_APPEND != 0
    ensures FlagsIn(flags, vfs) & IMMUTABLE_FL != 0 <==> vfs & S_IMMUTABLE != 0
    ensures FlagsIn(flags, vfs) & NOATIME_FL != 0 <==> vfs & S_NOATIME != 0
    ensures FlagsIn(flags, vfs) & DIRSYNC_FL != 0 <==> vfs & S_DIRSYNC != 0
  {
  }

  lemma OtherFlags(flags: bv32, vfs: bv32)
    ensures FlagsIn(flags, vfs) & !DISK_FIVE == flags & !DISK_FIVE
  {
  }

  /** Copying the five flags to the disk's word and back keeps them, and touches no other
      bit of either word. */
  lemma FlagsRoundTrip(flags: bv32, vfs: bv32, other: bv32)
    ensures FlagsOut(other, FlagsIn(flags, vfs)) == (other & !VFS_FIVE) | (vfs & VFS_FIVE)
    ensures FlagsIn(flags, vfs) & !DISK_FIVE == flags & !DISK_FIVE
  {
    hide FlagsIn;
    EachFlag(flags, vfs);
    OtherFlags(flags, vfs);
  }

  /** Which bits of the disk's word the five flags are: synchronous, no access times, append
      only, immutable, synchronous directory. */
  lemma FlagsInBits(flags: bv32, vfs: bv32)
    ensures FlagsIn(flags, vfs) & 0x8 != 0 <==> vfs & 1 != 0
    ensures FlagsIn(flags, vfs) & 0x80 != 0 <==> vfs & 2 != 0
    ensures FlagsIn(flags, vfs) & 0x20 != 0 <==> vfs & 4 != 0
    ensures FlagsIn(flags, vfs) & 0x10 != 0 <==> vfs & 8 != 0
    ensures FlagsIn(flags, vfs) & 0x10000 != 0 <==> vfs & 64 != 0
    ensures FlagsIn(flags, vfs) & 0xFFFE_FF47 == flags & 0xFFFE_FF47
  {
    hide FlagsIn;
    EachFlag(flags, vfs);
    OtherFlags(flags, vfs);
  }

  /** And which bits of the kernel's. */
  lemma FlagsOutBits(vfs: bv32, flags: bv32)
    ensures FlagsOut(vfs, flags) & 1 != 0 <==> flags & 0x8 != 0
    ensures FlagsOut(vfs, flags) & 2 != 0 <==> flags & 0x80 != 0
    ensures FlagsOut(vfs, flags) & 4 != 0 <==> flags & 0x20 != 0
    ensures FlagsOut(vfs, flags) & 8 != 0 <==> flags & 0x10 != 0
    ensures FlagsOut(vfs, flags) & 64 != 0 <==> flags & 0x10000 != 0
    ensures FlagsOut(vfs, flags) & 0xFFFF_FFB0 == vfs & 0xFFFF_FFB0
  {
  }

  /** The type is in the top four bits of the mode. */
  lemma ModeBits(mode: bv16)
    ensures IsReg(mode) <==> mode >> 12 == 8
    ensures IsDevice(mode) <==> mode >> 12 == 2 || mode >> 12 == 6
  {
  }

  // ----- owners

  function LowHalf(x: bv32): bv16 {
    (x & 0xFFFF) as bv16
  }

  function HighHalf(x: bv32): bv16 {
    (x >> 16) as bv16
  }

  /** The 16-bit owner kept for x. */
  function ShortOwner(x: bv32, overflow: bv16): bv16 {
    if x & 0xFFFF_0000 != 0 then overflow else LowHalf(x)
  }

  /** What reading makes of the two halves: the high half is not shifted back. */
  function JoinOwner(low: bv16, high: bv16): bv32 {
    low as bv32 | high as bv32
  }

  function OwnerLow(x: bv32, o: Mount): bv16 {
    if o.noUid32 then ShortOwner(x, o.overflow) else LowHalf(x)
  }

  function OwnerHigh(x: bv32, dtime: Word, o: Mount): bv16 {
    if o.noUid32 || dtime != 0 then 0 else HighHalf(x)
  }

  function OwnerRead(low: bv16, high: bv16, o: Mount): bv32 {
    if o.noUid32 then low as bv32 else JoinOwner(low, high)
  }

  function OwnerBack(x: bv32, dtime: Word, o: Mount): bv32 {
    OwnerRead(OwnerLow(x, o), OwnerHigh(x, dtime, o), o)
  }

  /** The two halves on the disk make the owner, unless owners are kept in 16 bits or the inode
      has been deleted: then the high half is 0. */
  lemma HalvesExact(x: bv32, dtime: Word, o: Mount)
    ensures !o.noUid32 && dtime == 0 ==> (OwnerHigh(x, dtime, o) as bv32 << 16) | OwnerLow(x, o) as bv32 == x
    ensures o.noUid32 || dtime != 0 ==> OwnerHigh(x, dtime, o) == 0
    ensures !o.noUid32 || x < 0x1_0000 ==> OwnerLow(x, o) as bv32 == x & 0xFFFF
    ensures o.noUid32 && x >= 0x1_0000 ==> OwnerLow(x, o) == o.overflow
  {
    hide OwnerLow, OwnerHigh;
    HighHalves(x, dtime, o);
    LowHalves(x, o);
  }

  lemma HighHalves(x: bv32, dtime: Word, o: Mount)
    ensures !o.noUid32 && dtime == 0 ==> (OwnerHigh(x, dtime, o) as bv32 << 16) | (x & 0xFFFF) == x
    ensures o.noUid32 || dtime != 0 ==> OwnerHigh(x, dtime, o) == 0
  {
  }

  lemma LowHalves(x: bv32, o: Mount)
    ensures !o.noUid32 || x < 0x1_0000 ==> OwnerLow(x, o) as bv32 == x & 0xFFFF
    ensures o.noUid32 && x >= 0x1_0000 ==> OwnerLow(x, o) == o.overflow
  {
    SmallOwner(x);
  }

  /** An owner comes back exactly when it fits 16 bits, with either mount option. */
  lemma OwnerExact(x: bv32, dtime: Word, o: Mount)
    ensures OwnerBack(x, dtime, o) == x <==> x < 0x1_0000
  {
    hide OwnerBack;
    BackIsSmall(x, dtime, o);
    if x < 0x1_0000 {
      SmallComesBack(x, dtime, o);
    }
  }

  lemma BackIsSmall(x: bv32, dtime: Word, o: Mount)
    ensures OwnerBack(x, dtime, o) < 0x1_0000
  {
    hide JoinOwner, OwnerLow, OwnerHigh;
    var low, high := OwnerLow(x, o), OwnerHigh(x, dtime, o);
    JoinIsSmall(low, high);
    Widened(low);
  }

  lemma SmallComesBack(x: bv32, dtime: Word, o: Mount)
    requires x < 0x1_0000
    ensures OwnerBack(x, dtime, o) == x
  {
    hide JoinOwner, LowHalf, HighHalf;
    SmallOwner(x);
    JoinZero(LowHalf(x));
  }

  lemma SmallOwner(x: bv32)
    ensures x & 0xFFFF_0000 != 0 <==> x >= 0x1_0000
    ensures x < 0x1_0000 ==> LowHalf(x) as bv32 == x && HighHalf(x) == 0
  {
  }

  lemma JoinIsSmall(low: bv16, high: bv16)
    ensures JoinOwner(low, high) < 0x1_0000
  {
  }

  lemma JoinZero(low: bv16)
    ensures JoinOwner(low, 0) == low as bv32
  {
  }

  lemma Widened(x: bv16)
    ensures x as bv32 < 0x1_0000
  {
  }

  // ----- writing and reading

  /** The disk inode after a write. Fields a write leaves alone keep what the disk has, or
      become 0 for a new inode. */
  function Encode(m: Memory, o: Mount, d: Disk): Disk {
    var base := if m.isNew then Zeroed() else d;
    Disk(m.mode, OwnerLow(m.uid, o), U32(m.size), U32(m.atime), U32(m.ctime), U32(m.mtime), m.dtime,
         OwnerLow(m.gid, o), U16(m.nlink), U32(m.blocks), FlagsIn(m.flags, m.vfsFlags),
         if IsDevice(m.mode) then base.block else m.data, base.generation, m.fileAcl,
         if IsReg(m.mode) then U32(m.size / TWO32) else m.dirAcl,
         m.faddr, m.fragNo, m.fragSize, OwnerHigh(m.uid, m.dtime, o), OwnerHigh(m.gid, m.dtime, o))
  }

  /** The in-memory inode after a write. */
  function Written(m: Memory): Memory {
    m.(flags := FlagsIn(m.flags, m.vfsFlags), isNew := false)
  }

  datatype Loaded = Loaded(m: Memory) | Failed(err: int)

  /** Inodes without links and without a mode, or with a deletion time, are stale. */
  predicate IsStale(d: Disk) {
    d.links == 0 && (d.mode == 0 || d.dtime != 0)
  }

  /** A regular file keeps the high half of its size where others keep an ACL. */
  function SizeRead(d: Disk): int {
    if IsReg(d.mode) then S64(d.size + d.dirAcl * TWO32) else d.size
  }

  function AclRead(d: Disk): Word {
    if IsReg(d.mode) then 0 else d.dirAcl
  }

  function Decode(d: Disk, o: Mount): Loaded {
    if IsStale(d) then Failed(ESTALE)
    else
      Loaded(Memory(d.mode, OwnerRead(d.uid, d.uidHigh, o), OwnerRead(d.gid, d.gidHigh, o), d.links, SizeRead(d),
                    S32(d.atime), S32(d.ctime), S32(d.mtime), d.blocks, FlagsOut(0, d.flags), d.generation, d.block,
                    d.flags, d.faddr, d.frag, d.fsize, false, d.fileAcl, AclRead(d), 0))
  }

  predicate Fits64(x: int) {
    -0x8000_0000_0000_0000 <= x < 0x8000_0000_0000_0000
  }

  predicate Fits32(x: int) {
    -0x8000_0000 <= x < 0x8000_0000
  }

  predicate InWidths(m: Memory) {
    Fits64(m.size) && Fits64(m.atime) && Fits64(m.ctime) && Fits64(m.mtime) && m.blocks < TWO64 && |m.data| == NR_BLOCKS
  }

  /** A time comes back exactly when it fits 32 bits. */
  lemma TimeExact(x: int)
    ensures S32(U32(x)) == x <==> Fits32(x)
  {
  }

  /** Both halves of a size make the size again, whatever it is. */
  lemma SizeExact(x: int)
    requires Fits64(x)
    ensures S64(U32(x) + U32(x / TWO32) * TWO32) == x
    ensures U32(x) == x <==> 0 <= x < TWO32
  {
    var q := x / TWO32;
    assert x == q * TWO32 + U32(x);
    assert -0x8000_0000 <= q < 0x8000_0000;
    assert U32(q) == if q < 0 then q + TWO32 else q;
  }

  /** A write followed by a read of the same inode keeps, of every live inode that is no
      device: all fields that are kept in full, and each shortened field exactly when its
      value fits. */
  lemma RoundTrip(m: Memory, o: Mount, d: Disk)
    requires InWidths(m) && !IsDevice(m.mode)
    ensures Decode(Encode(m, o, d), o) == Failed(ESTALE) <==> U16(m.nlink) == 0 && (m.mode == 0 || m.dtime != 0)
    ensures Decode(Encode(m, o, d), o).Loaded? ==>
              var r := Decode(Encode(m, o, d), o).m;
              && r == m.(uid := r.uid, gid := r.gid, nlink := r.nlink, size := r.size,
                         atime := r.atime, ctime := r.ctime, mtime := r.mtime, blocks := r.blocks,
                         flags := Written(m).flags, vfsFlags := m.vfsFlags & VFS_FIVE,
                         generation := if m.isNew then 0 else d.generation,
                         dirAcl := if IsReg(m.mode) then 0 else m.dirAcl, isNew := false, dtime := 0)
              && (r.uid == m.uid <==> m.uid < 0x1_0000) && (r.gid == m.gid <==> m.gid < 0x1_0000)
              && (r.nlink == m.nlink <==> m.nlink < 0x1_0000)
              && (r.size == m.size <==> IsReg(m.mode) || 0 <= m.size < TWO32)
              && (r.atime == m.atime <==> Fits32(m.atime)) && (r.ctime == m.ctime <==> Fits32(m.ctime))
              && (r.mtime == m.mtime <==> Fits32(m.mtime)) && (r.blocks == m.blocks <==> m.blocks < TWO32)
  {
    hide FlagsIn, FlagsOut, U16, U32, S32, S64, OwnerLow, OwnerHigh, OwnerRead, IsReg, IsDevice;
    LinksExact(m.nlink);
    OwnerExact(m.uid, m.dtime, o);
    OwnerExact(m.gid, m.dtime, o);
    FlagsRoundTrip(m.flags, m.vfsFlags, 0);
    NoOther(m.vfsFlags);
    SizeExact(m.size);
    TimeExact(m.atime);
    TimeExact(m.ctime);
    TimeExact(m.mtime);
    BlocksExact(m.blocks);
  }

  lemma NoOther(five: bv32)
    ensures (0 & !VFS_FIVE) | (five & VFS_FIVE) == five & VFS_FIVE
  {
  }

  lemma LinksExact(x: int)
    ensures U16(x) == x <==> 0 <= x < 0x1_0000
  {
  }

  lemma BlocksExact(x: nat)
    ensures U32(x) == x <==> x < TWO32
  {
  }

  // ----- an example

  /** Fifteen block numbers. */
  function Fifteen(): seq<Word> {
    [20, 21, 22, 23, 24, 25, 26, 27, 28, 29, 30, 31, 32, 33, 34]
  }

  /** A regular synchronous file of 2^32 + 16 bytes, its owner above 16 bits. */
  function FileExample(): Memory {
    Memory(0x81A4, 0x12345, 6, 1, 0x1_0000_0010, -1, 2, 3, 8, 1, 7, Fifteen(), 0x2, 9, 10, 11, false, 12, 13, 0)
  }

  /** How it lies on the disk over an inode of generation 77, with the full owners. */
  function FileOnDisk(): Disk {
    Disk(0x81A4, 0x2345, 16, 0xFFFF_FFFF, 2, 3, 0, 6, 1, 8, 0xA, Fifteen(), 77, 12, 1, 9, 10, 11, 1, 0)
  }

  lemma WriteExample(m: Memory, o: Mount, d: Disk)
    requires m == FileExample() && o == Mount(false, 65534) && d == Zeroed().(generation := 77)
    ensures Encode(m, o, d) == FileOnDisk()
  {
    hide FlagsIn, OwnerLow, OwnerHigh, IsReg, IsDevice, Fifteen;
    ExampleNumbers();
    ModeBits(0x81A4);
  }

  /** Read back, its owner has lost the high half's place. A high half of the group is joined to
      the low one with full owners only. */
  lemma ReadExample(d: Disk, o: Mount)
    requires d == FileOnDisk() && o == Mount(false, 65534)
    ensures var m := FileExample().(uid := 0x2345, generation := 77, flags := 0xA, dirAcl := 0);
            && Decode(d, o) == Loaded(m)
            && Decode(d.(gidHigh := 16), o) == Loaded(m.(gid := 22))
            && Decode(d.(gidHigh := 16), Mount(true, 65534)) == Loaded(m)
  {
    hide FlagsOut, OwnerRead, IsReg, Fifteen;
    ExampleNumbers();
    ModeBits(0x81A4);
  }

  lemma ExampleNumbers()
    ensures FlagsIn(0x2, 1) == 0xA && FlagsOut(0, 0xA) == 1
    ensures OwnerLow(0x12345, Mount(false, 65534)) == 0x2345
    ensures OwnerHigh(0x12345, 0, Mount(false, 65534)) == 1
    ensures OwnerLow(6, Mount(false, 65534)) == 6
    ensures OwnerHigh(6, 0, Mount(false, 65534)) == 0
    ensures OwnerRead(0x2345, 1, Mount(false, 65534)) == 0x2345
    ensures OwnerRead(6, 0, Mount(false, 65534)) == 6
    ensures OwnerRead(6, 16, Mount(false, 65534)) == 22
    ensures OwnerRead(6, 16, Mount(true, 65534)) == 6
    ensures OwnerRead(0x2345, 1, Mount(true, 65534)) == 0x2345
  {
  }

  /** A deleted block device with owners above 16 bits, written with 16-bit owners: user and
      group are both replaced by the user's stand-in, and the block numbers are left alone, or
      cleared for a new inode. */
  lemma DeviceExample(m: Memory, o: Mount, d: Disk)
    requires m == Memory(0x6180, 0x12345, 0x54321, 2, 4096, 1, 2, 3, 4, 0, 7, [], 0, 0, 0, 0, false, 0, 14, 99)
    requires o == Mount(true, 1000) && d == Zeroed().(generation := 5, block := Fifteen())
    ensures Encode(m, o, d)
         == Disk(0x6180, 1000, 4096, 1, 2, 3, 99, 1000, 2, 4, 0, Fifteen(), 5, 0, 14, 0, 0, 0, 0, 0)
    ensures Encode(m.(isNew := true), o, d)
         == Disk(0x6180, 1000, 4096, 1, 2, 3, 99, 1000, 2, 4, 0,
                 [0, 0, 0, 0, 0, 0, 0, 0, 0, 0, 0, 0, 0, 0, 0], 0, 0, 14, 0, 0, 0, 0, 0)
  {
    hide FlagsIn, OwnerLow, OwnerHigh, IsReg, IsDevice, Fifteen;
    ModeBits(0x6180);
    DeviceNumbers();
  }

  lemma DeviceNumbers()
    ensures FlagsIn(0, 0) == 0
    ensures OwnerLow(0x12345, Mount(true, 1000)) == 1000
    ensures OwnerLow(0x54321, Mount(true, 1000)) == 1000
    ensures OwnerHigh(0x12345, 99, Mount(true, 1000)) == 0
    ensures OwnerHigh(0x54321, 99, Mount(true, 1000)) == 0
  {
  }
}
