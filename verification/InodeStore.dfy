/** The inode tables of a volume as a store, written and read through in-memory inodes. */
module InodeStore {
  import opened Answers
  import opened Bits
  import opened InodeSlots
  import opened InodeCodec

  /** The disk inodes by the block and byte where they start; the rest of the tables reads
      as zeros. */
  type Slots = map<(nat, nat), Disk>

  function SlotAt(slots: Slots, w: Where): Disk
    requires w.At?
  {
    if (w.block, w.offset) in slots then slots[(w.block, w.offset)] else Zeroed()
  }

  /** The store after inode ino has been written, and what the write reports. */
  function Save(area: Area, o: Mount, slots: Slots, ino: nat, m: Memory): (Slots, int)
    requires area.Valid()
  {
    var w := Find(area, ino);
    if w.Nowhere? then (slots, EIO)
    else (slots[(w.block, w.offset) := Encode(m, o, SlotAt(slots, w))], OK)
  }

  function Load(area: Area, o: Mount, slots: Slots, ino: nat): Loaded
    requires area.Valid()
  {
    var w := Find(area, ino);
    if w.Nowhere? then Failed(w.err) else Decode(SlotAt(slots, w), o)
  }

  /** The write has put the encoded inode where it starts, and nothing anywhere else. */
  ghost predicate SavedAt(area: Area, o: Mount, slots: Slots, ino: nat, m: Memory, slots': Slots)
    requires area.Valid()
  {
    forall b: nat, k: nat :: StartsAt(area, ino, b, k) ==>
      && (b, k) in slots' && slots' == slots[(b, k) := slots'[(b, k)]]
      && slots'[(b, k)] == Encode(m, o, if (b, k) in slots then slots[(b, k)] else Zeroed())
  }

  /** What the read gives is what is stored where the inode starts. */
  ghost predicate LoadedFrom(area: Area, o: Mount, slots: Slots, ino: nat, out: Loaded)
    requires area.Valid()
  {
    forall b: nat, k: nat :: StartsAt(area, ino, b, k) ==>
      out == Decode(if (b, k) in slots then slots[(b, k)] else Zeroed(), o)
  }

  /** An inode is written and read at the byte where it starts, whenever it starts anywhere. */
  lemma PlacesExact(area: Area, o: Mount, slots: Slots, ino: nat, m: Memory)
    requires area.Valid()
    ensures var (slots', err) := Save(area, o, slots, ino, m);
            && (err == OK <==> exists b: nat, k: nat :: StartsAt(area, ino, b, k))
            && (err == OK ==> SavedAt(area, o, slots, ino, m, slots')) && (err != OK ==> slots' == slots && err == EIO)
    ensures LoadedFrom(area, o, slots, ino, Load(area, o, slots, ino))
    ensures (!exists b: nat, k: nat :: StartsAt(area, ino, b, k)) ==>
              Load(area, o, slots, ino) == Failed(if HasNumber(area, ino) then EIO else EINVAL)
  {
    hide Decode, Encode, Find, StartsAt;
    forall b: nat, k: nat ensures StartsAt(area, ino, b, k) <==> Find(area, ino) == At(b, k) {
      StartExact(area, ino, b, k);
    }
    ByteExact(area, ino);
    var w := Find(area, ino);
    if w.At? { assert StartsAt(area, ino, w.block, w.offset); }
  }

  /** A written inode is read back as it was encoded, and every other inode of the volume is
      read as before. */
  lemma SaveThenLoad(area: Area, o: Mount, slots: Slots, i: nat, m: Memory, j: nat)
    requires area.Valid() && Apart(area) && area.perGroup % area.PerBlock() == 0
    ensures var (slots', err) := Save(area, o, slots, i, m);
            && (err == OK <==> Find(area, i).At?)
            && (err == OK ==> Load(area, o, slots', i) == Decode(Encode(m, o, SlotAt(slots, Find(area, i))), o))
            && (i != j ==> Load(area, o, slots', j) == Load(area, o, slots, j))
  {
    hide Decode, Encode, Find, Apart;
    if Find(area, i).At? && Find(area, j).At? && i != j {
      SlotsApart(area, i, j);
    }
  }

  /** The fields of an inode the cache has just made. */
  function NewMemory(): Memory {
    Memory(0, 0, 0, 0, 0, 0, 0, 0, 0, 0, 0, [], 0, 0, 0, 0, false, 0, 0, 0)
  }

  /** The in-memory inode; its fields are one record, updated in place. */
  class VfsInode {
    var now: Memory

    /** An inode the cache has just made. */
    constructor ()
      ensures now.vfsFlags == 0
    {
      now := NewMemory();
    }

    /** Sets a flag in `word` when `from` has the one it stands for. */
    static method CopyFlag(word: bv32, from: bv32, test: bv32, value: bv32) returns (w: bv32)
      ensures w == word | Flag(from, test, value)
    {
      w := word;
      if from & test != 0 {
        w := w | value;
      }
      FlagCopied(word, from, test, value);
    }

    /** Copies the five flags into the driver's word. */
    method SetDriverFlags()
      modifies this
      ensures now == old(now).(flags := FlagsIn(old(now).flags, old(now).vfsFlags))
    {
      hide Flag;
      var vfs := now.vfsFlags;
      var w := now.flags & !DISK_FIVE;
      w := CopyFlag(w, vfs, S_SYNC, SYNC_FL);
      w := CopyFlag(w, vfs, S_APPEND, APPEND_FL);
      w := CopyFlag(w, vfs, S_IMMUTABLE, IMMUTABLE_FL);
      w := CopyFlag(w, vfs, S_NOATIME, NOATIME_FL);
      w := CopyFlag(w, vfs, S_DIRSYNC, DIRSYNC_FL);
      now := now.(flags := w);
    }

    /** Copies the five flags into the kernel's word. */
    method SetVfsFlags()
      modifies this
      ensures now == old(now).(vfsFlags := FlagsOut(old(now).vfsFlags, old(now).flags))
    {
      hide Flag;
      var flags := now.flags;
      var w := now.vfsFlags & !VFS_FIVE;
      w := CopyFlag(w, flags, SYNC_FL, S_SYNC);
      w := CopyFlag(w, flags, APPEND_FL, S_APPEND);
      w := CopyFlag(w, flags, IMMUTABLE_FL, S_IMMUTABLE);
      w := CopyFlag(w, flags, NOATIME_FL, S_NOATIME);
      w := CopyFlag(w, flags, DIRSYNC_FL, S_DIRSYNC);
      now := now.(vfsFlags := w);
    }

    static method ReadOwner(low: bv16, high: bv16, o: Mount) returns (x: bv32)
      ensures x == OwnerRead(low, high, o)
    {
      x := low as bv32;
      if !o.noUid32 {
        x := x | (high as bv32);
      }
    }

    method SetSize(d: Disk)
      requires now.size == d.size && now.mode == d.mode
      modifies this
      ensures now == old(now).(size := SizeRead(d), dirAcl := AclRead(d))
    {
      hide IsReg, S64;
      now := now.(dirAcl := 0);
      if IsReg(now.mode) {
        now := now.(size := S64(now.size + d.dirAcl * TWO32));
      } else {
        now := now.(dirAcl := d.dirAcl);
      }
    }

    /** Fills the fields from a disk inode. */
    method Fill(d: Disk, o: Mount) returns (err: int)
      requires now.vfsFlags == 0
      modifies this
      ensures Decode(d, o) == (if err == OK then Loaded(now) else Failed(err))
    {
      hide FlagsOut, S32, OwnerRead, SizeRead, AclRead;
      now := now.(mode := d.mode);
      var uid := ReadOwner(d.uid, d.uidHigh, o);
      var gid := ReadOwner(d.gid, d.gidHigh, o);
      now := now.(uid := uid, gid := gid, nlink := d.links, size := d.size);
      now := now.(atime := S32(d.atime), ctime := S32(d.ctime), mtime := S32(d.mtime), dtime := d.dtime);
      if now.nlink == 0 && (now.mode == 0 || now.dtime != 0) {
        return ESTALE;
      }
      now := now.(blocks := d.blocks, flags := d.flags, faddr := d.faddr);
      now := now.(fragNo := d.frag, fragSize := d.fsize, fileAcl := d.fileAcl);
      SetSize(d);
      now := now.(generation := d.generation, dtime := 0, isNew := false, data := d.block);
      SetVfsFlags();
      err := OK;
    }
  }

  /** The store. */
  class Store {
    const area: Area
    const mount: Mount
    var slots: Slots

    constructor (area: Area, mount: Mount)
      ensures this.area == area && this.mount == mount && slots == map[]
    {
      this.area, this.mount, slots := area, mount, map[];
    }

    /** Stores the fields in the disk inode. */
    method Pack(m: Memory, base: Disk) returns (d: Disk)
      ensures d == Disk(m.mode, OwnerLow(m.uid, mount), U32(m.size), U32(m.atime), U32(m.ctime), U32(m.mtime), m.dtime,
                        OwnerLow(m.gid, mount), U16(m.nlink), U32(m.blocks), m.flags,
                        if IsDevice(m.mode) then base.block else m.data, base.generation, m.fileAcl,
                        if IsReg(m.mode) then U32(m.size / TWO32) else m.dirAcl, m.faddr, m.fragNo, m.fragSize,
                        OwnerHigh(m.uid, m.dtime, mount), OwnerHigh(m.gid, m.dtime, mount))
    {
      hide U32, U16, OwnerLow, OwnerHigh, IsReg, IsDevice;
      d := base.(mode := m.mode);
      d := d.(uid := OwnerLow(m.uid, mount), gid := OwnerLow(m.gid, mount));
      d := d.(uidHigh := OwnerHigh(m.uid, m.dtime, mount), gidHigh := OwnerHigh(m.gid, m.dtime, mount));
      d := d.(links := U16(m.nlink), size := U32(m.size));
      d := d.(atime := U32(m.atime), ctime := U32(m.ctime), mtime := U32(m.mtime));
      d := d.(blocks := U32(m.blocks), dtime := m.dtime);
      d := d.(flags := m.flags, faddr := m.faddr);
      d := d.(fileAcl := m.fileAcl, frag := m.fragNo, fsize := m.fragSize);
      d := d.(dirAcl := if IsReg(m.mode) then U32(m.size / TWO32) else m.dirAcl);
      if !IsDevice(m.mode) {
        d := d.(block := m.data);
      }
    }

    /** Writes an inode to its slot. */
    method WriteInode(ino: nat, node: VfsInode) returns (err: int)
      requires area.Valid()
      modifies this, node
      ensures (slots, err) == Save(area, mount, old(slots), ino, old(node.now))
      ensures node.now == if err == OK then Written(old(node.now)) else old(node.now)
      ensures err == OK ==> SavedAt(area, mount, old(slots), ino, old(node.now), slots)
      ensures err == OK <==> exists b: nat, k: nat :: StartsAt(area, ino, b, k)
    {
      hide SavedAt, StartsAt, FlagsIn, U32, U16, OwnerLow, OwnerHigh, IsReg, IsDevice, Find;
      PlacesExact(area, mount, slots, ino, node.now);
      var w := Find(area, ino);
      if w.Nowhere? {
        return EIO;
      }
      var d := SlotAt(slots, w);
      if node.now.isNew {
        d := Zeroed();
      }
      node.SetDriverFlags();
      d := Pack(node.now, d);
      slots := slots[(w.block, w.offset) := d];
      node.now := node.now.(isNew := false);
      err := OK;
    }

    /** Reads an inode into a new in-memory one. */
    method ReadInode(ino: nat) returns (node: VfsInode, err: int)
      requires area.Valid()
      ensures fresh(node)
      ensures Load(area, mount, slots, ino) == (if err == OK then Loaded(node.now) else Failed(err))
      ensures LoadedFrom(area, mount, slots, ino, if err == OK then Loaded(node.now) else Failed(err))
    {
      hide Decode, Find, LoadedFrom;
      PlacesExact(area, mount, slots, ino, NewMemory());
      node := new VfsInode();
      var w := Find(area, ino);
      if w.Nowhere? {
        FindFails(area, ino);
        return node, w.err;
      }
      err := node.Fill(SlotAt(slots, w), mount);
    }

    lemma FindFails(area: Area, ino: nat)
      requires area.Valid() && Find(area, ino).Nowhere?
      ensures Find(area, ino).err != OK
    {
    }
  }
}
