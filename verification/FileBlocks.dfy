/** Block allocation, the block map of an inode, and file contents: fs.c and the chunking of file.c.

    The buffers' contents, read and written through the log, are one sequence of blocks.  The free map is a sequence of
    bits and the on-disk inodes a sequence of records; log_write of the block that packs one of them is recorded by its
    block number.  Plain files only: the device switch of readi and writei is not part of this model. */
module FileBlocks {
  import opened Blocks
  import opened BlockMap
  import opened Params

  const BPB: nat := 4096
  const IPB: nat := 8

  lemma SameBitmapBlock(b: nat, bi: nat)
    requires b % BPB == 0 && bi < BPB
    ensures (b + bi) / BPB == b / BPB
  {
  }

  /** What readi, writei and filewrite return: a count, -1, or no return because of a panic. */
  datatype Outcome = Count(n: nat) | Failed | Panicked

  /** Blocks that bytes off to off+n touch. */
  function Touched(off: nat, n: nat): nat
    requires n > 0
  {
    (off + n - 1) / BSIZE - off / BSIZE + 1
  }

  /** Blocks that writei may log: data and free map for each block it touches, but no free map for a block that is there
      because the write starts inside it, then the indirect block and its free map, and the inode. */
  function WriteCost(off: nat, n: nat): nat {
    if n == 0 then 0 else 2 * Touched(off, n) + 3 - (if off % BSIZE != 0 then 1 else 0)
  }

  /** The rule of write-ahead logging: whatever block has changed, of data or of the free map, has been logged. */
  ghost predicate Recorded(s0: Disk, bm0: seq<bool>, l0: set<nat>, s1: Disk, bm1: seq<bool>, l1: set<nat>,
                           bmapstart: nat) {
    && |s1| == |s0| && |bm1| == |bm0| && l0 <= l1
    && (forall b: nat | b < |s0| && b !in l1 :: s1[b] == s0[b])
    && (forall b: nat | b < |bm0| && b / BPB + bmapstart !in l1 :: bm1[b] == bm0[b])
  }

  lemma RecordedSelf(s: Disk, bm: seq<bool>, l: set<nat>, bmapstart: nat)
    ensures Recorded(s, bm, l, s, bm, l, bmapstart)
  {
  }

  lemma RecordedTrans(s0: Disk, bm0: seq<bool>, l0: set<nat>, s1: Disk, bm1: seq<bool>, l1: set<nat>,
                      s2: Disk, bm2: seq<bool>, l2: set<nat>, bmapstart: nat)
    requires Recorded(s0, bm0, l0, s1, bm1, l1, bmapstart) && Recorded(s1, bm1, l1, s2, bm2, l2, bmapstart)
    ensures Recorded(s0, bm0, l0, s2, bm2, l2, bmapstart)
  {
  }

  lemma RecordedMore(s0: Disk, bm0: seq<bool>, l0: set<nat>, s1: Disk, bm1: seq<bool>, l1: set<nat>, l2: set<nat>,
                     bmapstart: nat)
    requires Recorded(s0, bm0, l0, s1, bm1, l1, bmapstart) && l1 <= l2
    ensures Recorded(s0, bm0, l0, s1, bm1, l2, bmapstart)
  {
  }

  /** What the buffers hold when no operation is running. */
  datatype Image = Image(store: Disk, bits: seq<bool>, table: seq<Inode>)

  /** An operation has logged l, and whatever it has changed is in these blocks. */
  ghost predicate StepBy(a: Image, b: Image, l: set<nat>, bmapstart: nat, inodestart: nat) {
    && Recorded(a.store, a.bits, {}, b.store, b.bits, l, bmapstart) && |b.table| == |a.table|
    && forall j: nat | j < |a.table| && j / IPB + inodestart !in l :: b.table[j] == a.table[j]
  }

  /** An operation within its reservation. */
  ghost predicate Step(a: Image, b: Image, bmapstart: nat, inodestart: nat) {
    exists l: set<nat> :: StepBy(a, b, l, bmapstart, inodestart) && |l| <= MAXOPBLOCKS
  }

  lemma StepMade(a: Image, b: Image, l: set<nat>, bmapstart: nat, inodestart: nat, i: nat)
    requires Recorded(a.store, a.bits, {}, b.store, b.bits, l, bmapstart) && |l| <= MAXOPBLOCKS
    requires i < |a.table| == |b.table|
    requires b.table == a.table || (b.table == a.table[i := b.table[i]] && i / IPB + inodestart in l)
    ensures Step(a, b, bmapstart, inodestart)
  {
    assert StepBy(a, b, l, bmapstart, inodestart);
  }

  /** File i has these contents. */
  ghost predicate Holds(img: Image, i: nat, bytes: seq<Byte>) {
    && i < |img.table| && |img.table[i].addrs| == NDIRECT + 1 && img.table[i].size <= MAXFILE * BSIZE
    && Bytes(img.table[i], img.store) == bytes
  }

  /** What the buffers held before filewrite, and after each chunk of its first n bytes. */
  ghost predicate Chunks(chunks: seq<Image>, i: nat, bytes: seq<Byte>, off: nat, src: seq<Byte>, n: nat, bmapstart: nat,
                         inodestart: nat) {
    && n <= |src| && |chunks| == (n + 1535) / 1536 + 1
    && (forall j: nat, k | k == j + 1 < |chunks| :: Step(chunks[j], chunks[k], bmapstart, inodestart))
    && (forall j: nat | j < |chunks| :: Holds(chunks[j], i, SplicedPart(bytes, off, src, Min(1536 * j, n))))
  }

  lemma NoChunks(img: Image, i: nat, bytes: seq<Byte>, off: nat, src: seq<Byte>, bmapstart: nat, inodestart: nat)
    requires Holds(img, i, bytes)
    ensures Chunks([img], i, bytes, off, src, 0, bmapstart, inodestart)
  {
    FirstSplice(bytes, off, src);
  }

  lemma HoldsNow(img: Image, i: nat)
    requires WellShaped(img.table) && i < |img.table|
    ensures Holds(img, i, Bytes(img.table[i], img.store))
  {
  }

  lemma NextChunk(chunks: seq<Image>, i: nat, bytes: seq<Byte>, off: nat, src: seq<Byte>, n: nat, bmapstart: nat,
                  inodestart: nat, img: Image, m: nat)
    requires Chunks(chunks, i, bytes, off, src, n, bmapstart, inodestart) && n % 1536 == 0 && 0 < m <= 1536
    requires n + m <= |src|
    requires Step(chunks[|chunks| - 1], img, bmapstart, inodestart)
    requires Holds(img, i, SplicedPart(bytes, off, src, n + m))
    ensures Chunks(chunks + [img], i, bytes, off, src, n + m, bmapstart, inodestart)
  {
    hide Step, Holds, SplicedPart;
    var more := chunks + [img];
    forall j: nat, k | k == j + 1 < |more| ensures Step(more[j], more[k], bmapstart, inodestart) {
      if k < |chunks| {
        assert Step(chunks[j], chunks[k], bmapstart, inodestart);
      }
    }
    forall j: nat | j < |more| ensures Holds(more[j], i, SplicedPart(bytes, off, src, Min(1536 * j, n + m))) {
      if j < |chunks| {
        assert Holds(chunks[j], i, SplicedPart(bytes, off, src, Min(1536 * j, n)));
      }
    }
  }

  /** One call of bmap for block bn of a file has mapped that block, and taken just what that needed. */
  ghost predicate Took(ino: Inode, store: Disk, bitmap: seq<bool>, ino': Inode, store': Disk, bitmap': seq<bool>,
                       bn: nat) {
    TookRange(ino, store, FreeCount(bitmap), ino', store', FreeCount(bitmap'), bn, bn + 1)
  }

  lemma TookNothing(ino: Inode, store: Disk, bitmap: seq<bool>, bn: nat)
    requires |ino.addrs| == NDIRECT + 1 && bn < MAXFILE
    ensures NeedOf(ino, store, bn) == 0 ==> Took(ino, store, bitmap, ino, store, bitmap, bn)
  {
    hide FreeCount;
    NeedOfOne(ino, store, bn);
  }

  lemma TookOne(ino: Inode, store: Disk, bitmap: seq<bool>, ino': Inode, store': Disk, bitmap': seq<bool>, bn: nat)
    requires bn < NDIRECT && SlotsBut(ino, store, ino', store', bn) && ino.addrs[bn] == 0 && ino'.addrs[bn] != 0
    requires FreeCount(bitmap) == FreeCount(bitmap') + 1 && ino'.addrs[NDIRECT] == ino.addrs[NDIRECT]
    ensures Took(ino, store, bitmap, ino', store', bitmap', bn)
  {
    hide FreeCount;
    NeedOfOne(ino, store, bn);
  }

  /** An entry of the indirect block, which itself may have been new. */
  lemma TookEntry(ino: Inode, store: Disk, bitmap: seq<bool>, ino1: Inode, store1: Disk, bitmap1: seq<bool>,
                  ino2: Inode, store2: Disk, bitmap2: seq<bool>, e: nat)
    requires e < NINDIRECT && SlotsBut(ino1, store1, ino2, store2, NDIRECT + 1 + e) && |ino.addrs| == NDIRECT + 1
    requires ino2.addrs == ino1.addrs && ino1.addrs[NDIRECT] != 0 && Slot(ino, store, NDIRECT + 1 + e) == 0
    requires FreeCount(bitmap1) == FreeCount(bitmap2) + 1 && Slot(ino2, store2, NDIRECT + 1 + e) != 0
    requires if ino.addrs[NDIRECT] == 0
             then SlotsBut(ino, store, ino1, store1, NDIRECT) && FreeCount(bitmap) == FreeCount(bitmap1) + 1
             else ino1 == ino && store1 == store && bitmap1 == bitmap
    ensures Took(ino, store, bitmap, ino2, store2, bitmap2, NDIRECT + e)
  {
    hide FreeCount, Slot;
    NeedOfOne(ino, store, NDIRECT + e);
  }

  lemma TookThenWrote(ino: Inode, store: Disk, bitmap: seq<bool>, ino': Inode, store1: Disk, store2: Disk,
                      bitmap': seq<bool>, bn: nat)
    requires Took(ino, store, bitmap, ino', store1, bitmap', bn)
    requires |ino'.addrs| == NDIRECT + 1
    requires forall c: nat | c < MAXFILE :: Slot(ino', store2, SlotOf(c)) == Slot(ino', store1, SlotOf(c))
    ensures Took(ino, store, bitmap, ino', store2, bitmap', bn)
  {
    hide FreeCount, Slot, NeedRange;
  }

  /** What the next block of a write needs, beyond what the blocks before it have taken. */
  lemma NextNeed(ino: Inode, store: Disk, free: nat, ino1: Inode, store1: Disk, free1: nat, a: nat, b: nat, e: nat)
    requires TookRange(ino, store, free, ino1, store1, free1, a, b) && b < e <= MAXFILE
    ensures free1 < NeedOf(ino1, store1, b) ==> free < NeedRange(ino, store, a, e)
  {
    hide Slot;
    NeedOfOne(ino1, store1, b);
    NeedSplit(ino, store, free, ino1, store1, free1, a, b, b, b + 1);
    NeedMonotone(ino, store, a, b + 1, e);
  }

  lemma TookNext(ino: Inode, store: Disk, free: nat, ino1: Inode, store1: Disk, bitmap1: seq<bool>,
                 ino2: Inode, store2: Disk, bitmap2: seq<bool>, a: nat, b: nat)
    requires TookRange(ino, store, free, ino1, store1, FreeCount(bitmap1), a, b)
    requires Took(ino1, store1, bitmap1, ino2, store2, bitmap2, b)
    ensures TookRange(ino, store, free, ino2, store2, FreeCount(bitmap2), a, b + 1)
  {
    hide TookRange, FreeCount;
    TookBounds(ino, store, free, ino1, store1, FreeCount(bitmap1), a, b);
    TookBoth(ino, store, free, ino1, store1, FreeCount(bitmap1), ino2, store2, FreeCount(bitmap2), a, b, b, b + 1);
  }

  lemma TookBounds(ino: Inode, store: Disk, free: nat, ino1: Inode, store1: Disk, free1: nat, a: nat, b: nat)
    requires TookRange(ino, store, free, ino1, store1, free1, a, b)
    ensures a <= b <= MAXFILE
  {
  }

  lemma TookFree(ino: Inode, store: Disk, free: nat, ino1: Inode, store1: Disk, free1: nat, a: nat, b: nat)
    requires TookRange(ino, store, free, ino1, store1, free1, a, b)
    ensures |ino.addrs| == NDIRECT + 1 && b <= MAXFILE && free >= NeedRange(ino, store, a, b)
  {
  }

  /** One past the last block that bytes off to off+n touch. */
  function BlocksEnd(off: nat, n: nat): nat {
    if n == 0 then off / BSIZE else (off + n - 1) / BSIZE + 1
  }

  class Fs {
    const meta: nat
    const bmapstart: nat
    const inodestart: nat
    var store: Disk
    var bitmap: seq<bool>
    var inodes: seq<Inode>
    var dinodes: seq<Inode>
    /** Numbers of the blocks given to log_write in the running operation. */
    ghost var logged: set<nat>
    ghost var owner: map<nat, Place>

    ghost predicate Consistent()
      reads this
    {
      Owned(inodes, store, bitmap, owner, meta)
    }

    ghost predicate Valid()
      reads this
    {
      && Consistent()
      && inodes == dinodes
      && (forall i | 0 <= i < |inodes| :: Solid(inodes[i], store))
    }

    /** A new file system with n empty inodes and its first data block at block first. */
    constructor (bmapstart: nat, inodestart: nat, first: nat, blocks: Disk, n: nat)
      requires 0 < first <= |blocks| < 0x1_0000_0000
      ensures Valid() && store == blocks && |inodes| == n
      ensures forall i | 0 <= i < n :: inodes[i].size == 0
    {
      this.meta, this.bmapstart, this.inodestart := first, bmapstart, inodestart;
      store := blocks;
      bitmap := seq(|blocks|, b => b < first);
      inodes := seq(n, i => Inode(0, seq(NDIRECT + 1, s => 0)));
      dinodes := seq(n, i => Inode(0, seq(NDIRECT + 1, s => 0)));
      logged, owner := {}, map[];
    }

    /** A file system read from its disk. */
    constructor Mount(bmapstart: nat, inodestart: nat, first: nat, blocks: Disk, bits: seq<bool>, table: seq<Inode>,
                      ghost owner: map<nat, Place>)
      requires Owned(table, blocks, bits, owner, first) && forall i | 0 <= i < |table| :: Solid(table[i], blocks)
      ensures Valid() && store == blocks && bitmap == bits && inodes == table && logged == {} && this.owner == owner
      ensures this.meta == first && this.bmapstart == bmapstart && this.inodestart == inodestart
    {
      this.meta, this.bmapstart, this.inodestart := first, bmapstart, inodestart;
      store, bitmap, inodes, dinodes := blocks, bits, table, table;
      logged := {};
      this.owner := owner;
    }

    function Bblock(b: nat): nat {
      b / BPB + bmapstart
    }

    function Iblock(i: nat): nat {
      i / IPB + inodestart
    }

    /** Since the old state, every changed block has been logged. */
    twostate predicate Records()
      reads this`store, this`bitmap, this`logged
    {
      Recorded(old(store), old(bitmap), old(logged), store, bitmap, logged, bmapstart)
    }

    method LogWrite(k: nat)
      modifies this`logged
      ensures logged == old(logged) + {k}
    {
      logged := logged + {k};
    }

    /** balloc: the first block marked free, marked and zeroed.  0 stands for the panic when there is none. */
    method Balloc() returns (r: Word)
      requires |bitmap| == |store| < 0x1_0000_0000 && bitmap != [] && bitmap[0]
      modifies this`bitmap, this`store, this`logged
      ensures |bitmap| == |old(bitmap)|
      ensures r == 0 <==> forall b | 0 <= b < |bitmap| :: old(bitmap)[b]
      ensures r == 0 ==> bitmap == old(bitmap) && store == old(store) && logged == old(logged)
      ensures r != 0 ==>
                && r < |store| == |old(store)| && !old(bitmap)[r] && (forall b | 0 <= b < r :: old(bitmap)[b])
                && bitmap == old(bitmap)[r := true]
                && store == old(store)[r := ZERO_BLOCK]
                && logged == old(logged) + {Bblock(r), r} && Records()
    {
      var b := 0;
      while b < |bitmap|
        invariant b % BPB == 0
        invariant forall c | 0 <= c < b && c < |bitmap| :: bitmap[c]
        invariant bitmap == old(bitmap) && store == old(store) && logged == old(logged)
      {
        var bi := 0;
        while bi < BPB && b + bi < |bitmap|
          invariant 0 <= bi <= BPB
          invariant forall c | 0 <= c < b + bi && c < |bitmap| :: bitmap[c]
          invariant bitmap == old(bitmap) && store == old(store) && logged == old(logged)
        {
          if !bitmap[b + bi] {
            bitmap := bitmap[b + bi := true];
            LogWrite(b / BPB + bmapstart);
            SameBitmapBlock(b, bi);
            Bzero(b + bi);
            return b + bi;
          }
          bi := bi + 1;
        }
        b := b + BPB;
      }
      r := 0;
    }

    method Bzero(b: nat)
      requires b < |store|
      modifies this`store, this`logged
      ensures store == old(store)[b := ZERO_BLOCK] && logged == old(logged) + {b}
    {
      store := store[b := ZERO_BLOCK];
      LogWrite(b);
    }

    /** bfree.  False is the panic on a block that is free already. */
    method Bfree(b: nat) returns (ok: bool)
      requires b < |bitmap|
      modifies this`bitmap, this`logged
      ensures ok <==> old(bitmap)[b]
      ensures ok ==> bitmap == old(bitmap)[b := false] && logged == old(logged) + {Bblock(b)}
      ensures ok ==> Recorded(store, old(bitmap), old(logged), store, bitmap, logged, bmapstart)
      ensures !ok ==> bitmap == old(bitmap)
    {
      if !bitmap[b] {
        return false;
      }
      bitmap := bitmap[b := false];
      LogWrite(Bblock(b));
      ok := true;
    }

    /** bmap: the block number of block bn of inode i, allocated, with the indirect block if need be, when there is
        none.  0 stands for balloc's panic.  Pointers that were there stay, and so does what they point to. */
    method Bmap(i: nat, bn: nat) returns (r: Word)
      requires Consistent() && i < |inodes| && bn < MAXFILE
      modifies this`bitmap, this`store, this`inodes, this`logged, this`owner
      ensures r == 0 <==> FreeCount(old(bitmap)) < NeedOf(old(inodes)[i], old(store), bn)
      ensures r != 0 ==>
                |inodes| == |old(inodes)| && Took(old(inodes)[i], old(store), old(bitmap), inodes[i], store, bitmap, bn)
      ensures r != 0 ==>
                && Consistent() && Kept(old(inodes), old(store), inodes, store)
                && r == Slot(inodes[i], store, SlotOf(bn))
                && inodes == old(inodes)[i := inodes[i]] && Records()
      ensures r != 0 ==> |inodes[i].addrs| == NDIRECT + 1
      ensures r != 0 && bn < NDIRECT ==> r == inodes[i].addrs[bn]
      ensures r != 0 && bn >= NDIRECT ==>
                && 0 < inodes[i].addrs[NDIRECT] < |store|
                && r == GetWord(store[inodes[i].addrs[NDIRECT]], bn - NDIRECT)
      ensures Slot(old(inodes)[i], old(store), SlotOf(bn)) != 0 ==> r != 0 && Untouched()
      ensures r != 0 && Slot(old(inodes)[i], old(store), SlotOf(bn)) == 0 ==>
                && r !in old(owner) && r < |store| && store[r] == ZERO_BLOCK
                && logged == old(logged) + MapLogs(old(inodes)[i], inodes[i], bn, r)
    {
      hide SlotOk, OwnerOk, Kept, FreeCount, SlotsBut, Took;
      TookNothing(inodes[i], store, bitmap, bn);
      if bn < NDIRECT {
        KeptSelf(inodes, store);
        r := inodes[i].addrs[bn];
        if r == 0 {
          r := MapPointer(i, bn);
          if r != 0 {
            TookOne(old(inodes)[i], old(store), old(bitmap), inodes[i], store, bitmap, bn);
          }
        }
      } else {
        r := BmapIndirect(i, bn - NDIRECT);
      }
    }

    /** The second half of bmap. */
    method BmapIndirect(i: nat, e: nat) returns (r: Word)
      requires Consistent() && i < |inodes| && e < NINDIRECT
      modifies this`bitmap, this`store, this`inodes, this`logged, this`owner
      ensures r == 0 <==> FreeCount(old(bitmap)) < NeedOf(old(inodes)[i], old(store), NDIRECT + e)
      ensures r != 0 ==>
                && |inodes| == |old(inodes)|
                && Took(old(inodes)[i], old(store), old(bitmap), inodes[i], store, bitmap, NDIRECT + e)
      ensures r != 0 ==>
                && Consistent() && Kept(old(inodes), old(store), inodes, store)
                && r == Slot(inodes[i], store, NDIRECT + 1 + e)
                && inodes == old(inodes)[i := inodes[i]] && Records()
      ensures Slot(old(inodes)[i], old(store), NDIRECT + 1 + e) != 0 ==> r != 0 && Untouched()
      ensures r != 0 && Slot(old(inodes)[i], old(store), NDIRECT + 1 + e) == 0 ==>
                && r !in old(owner) && r < |store| && store[r] == ZERO_BLOCK
                && logged == old(logged) + MapLogs(old(inodes)[i], inodes[i], NDIRECT + e, r)
    {
      hide SlotOk, OwnerOk, Kept, Owned, Slot, GetWord, Recorded, FreeCount, SlotsBut, Took;
      RecordedSelf(store, bitmap, logged, bmapstart);
      Shape(inodes, store, bitmap, owner, meta);
      TookNothing(inodes[i], store, bitmap, NDIRECT + e);
      KeptSelf(inodes, store);
      var ind := inodes[i].addrs[NDIRECT];
      ghost var inodes0, store0 := inodes, store;
      NoIndirect(inodes[i], store, e);
      if ind == 0 {
        ind := MapPointer(i, NDIRECT);
        if ind == 0 {
          return 0;
        }
        FreshIndirect(inodes[i], store, e);
      }
      IndirectInRange(inodes, store, bitmap, owner, meta, i);
      EntryIsSlot(inodes[i], store, e);
      r := GetWord(store[ind], e);
      if r == 0 {
        ghost var inodes1, store1, bitmap1, logged1 := inodes, store, bitmap, logged;
        r := MapEntry(i, e);
        if r != 0 {
          TookEntry(old(inodes)[i], store0, old(bitmap), inodes1[i], store1, bitmap1, inodes[i], store, bitmap, e);
          KeptTrans(inodes0, store0, inodes1, store1, inodes, store);
          RecordedTrans(store0, old(bitmap), old(logged), store1, bitmap1, logged1, store, bitmap, logged, bmapstart);
        }
      }
    }

    /** Nothing the map consists of has changed. */
    twostate predicate Untouched()
      reads this
    {
      inodes == old(inodes) && store == old(store) && bitmap == old(bitmap) && logged == old(logged)
          && owner == old(owner)
    }

    /** A direct pointer, or that to the indirect block, gets a new block. */
    method MapPointer(i: nat, s: nat) returns (r: Word)
      requires Consistent() && i < |inodes| && s <= NDIRECT && inodes[i].addrs[s] == 0
      modifies this`bitmap, this`store, this`inodes, this`logged, this`owner
      ensures r == 0 <==> FreeCount(old(bitmap)) == 0
      ensures r != 0 ==>
                && FreeCount(bitmap) == FreeCount(old(bitmap)) - 1
                && |inodes| == |old(inodes)| && SlotsBut(old(inodes)[i], old(store), inodes[i], store, s)
      ensures r != 0 ==>
                && Consistent() && |store| == |old(store)|
                && inodes == old(inodes)[i := Inode(old(inodes)[i].size, old(inodes)[i].addrs[s := r])]
                && Kept(old(inodes), old(store), inodes, store)
                && r !in old(owner) && owner == old(owner)[r := Place(i, s)] && r < |store| && store[r] == ZERO_BLOCK
                && logged == old(logged) + {Bblock(r), r} && Records()
    {
      hide SlotOk, OwnerOk, Kept, FreeCount, SlotsBut;
      NoneFree(bitmap);
      r := Balloc();
      if r != 0 {
        OneLess(old(bitmap), r);
        PointerOwned(old(inodes), old(store), old(bitmap), owner, meta, i, s, r);
        inodes := inodes[i := Inode(inodes[i].size, inodes[i].addrs[s := r])];
        owner := owner[r := Place(i, s)];
      }
    }

    /** An entry of the indirect block gets a new block. */
    method MapEntry(i: nat, e: nat) returns (r: Word)
      requires Consistent() && i < |inodes| && e < NINDIRECT
      requires inodes[i].addrs[NDIRECT] != 0 && Slot(inodes[i], store, NDIRECT + 1 + e) == 0
      modifies this`bitmap, this`store, this`logged, this`owner
      ensures r == 0 <==> FreeCount(old(bitmap)) == 0
      ensures r != 0 ==>
                && FreeCount(bitmap) == FreeCount(old(bitmap)) - 1
                && SlotsBut(inodes[i], old(store), inodes[i], store, NDIRECT + 1 + e)
      ensures r != 0 ==>
                && Consistent() && |store| == |old(store)|
                && r == Slot(inodes[i], store, NDIRECT + 1 + e)
                && Kept(inodes, old(store), inodes, store)
                && r !in old(owner) && r < |store| && store[r] == ZERO_BLOCK
                && logged == old(logged) + {Bblock(r), r, inodes[i].addrs[NDIRECT]} && Records()
    {
      hide SlotOk, OwnerOk, Kept, FreeCount, SlotsBut;
      IndirectInRange(inodes, store, bitmap, owner, meta, i);
      NoneFree(bitmap);
      var ind := inodes[i].addrs[NDIRECT];
      var a := store[ind];
      r := Balloc();
      if r != 0 {
        OneLess(old(bitmap), r);
        EntryOwned(inodes, old(store), old(bitmap), owner, meta, i, e, r);
        store := store[ind := PutWord(a, e, r)];
        LogWrite(ind);
        owner := owner[r := Place(i, NDIRECT + 1 + e)];
      }
    }

    /** What bmap logs when it maps block bn of a file to r. */
    ghost function MapLogs(ino: Inode, ino': Inode, bn: nat, r: nat): set<nat>
      requires |ino.addrs| == |ino'.addrs| == NDIRECT + 1
    {
      if bn < NDIRECT then {Bblock(r), r}
      else
        var ind := ino'.addrs[NDIRECT];
        {Bblock(r), r, ind} + (if ino.addrs[NDIRECT] == 0 then {Bblock(ind)} else {})
    }

    method Iupdate(i: nat)
      requires i < |inodes| == |dinodes|
      modifies this`dinodes, this`logged
      ensures dinodes == old(dinodes)[i := inodes[i]] && logged == old(logged) + {Iblock(i)}
    {
      dinodes := dinodes[i := inodes[i]];
      LogWrite(Iblock(i));
    }
  
    /** What mapping entries of an inode's indirect block logs besides the entries' blocks. */
    ghost function IndLogs(ino: Inode): set<nat>
      requires |ino.addrs| == NDIRECT + 1
    {
      if ino.addrs[NDIRECT] == 0 then {} else {ino.addrs[NDIRECT], Bblock(ino.addrs[NDIRECT])}
    }

    /** One round of writei: bytes of one block, which is mapped if need be.  False is balloc's panic.
        The result data holds what is logged apart from the indirect block. */
    method WriteBlock(i: nat, pos: nat, chunk: seq<Byte>) returns (ok: bool, ghost data: set<nat>)
      requires Consistent() && i < |inodes| && pos < MAXFILE * BSIZE && pos % BSIZE + |chunk| <= BSIZE
      modifies this`bitmap, this`store, this`inodes, this`logged, this`owner
      ensures ok <==> FreeCount(old(bitmap)) >= NeedOf(old(inodes)[i], old(store), pos / BSIZE)
      ensures ok ==>
                && Consistent() && |inodes| == |old(inodes)| && |store| == |old(store)|
                && inodes == old(inodes)[i := inodes[i]]
                && Took(old(inodes)[i], old(store), old(bitmap), inodes[i], store, bitmap, pos / BSIZE)
                && OthersSame(old(inodes), old(store), inodes, store, i)
                && PutFile(old(inodes)[i], old(store), inodes[i], store, pos / BSIZE,
                           Patched(BlockOf(old(inodes)[i], old(store), pos / BSIZE), pos % BSIZE, chunk))
                && IndLogs(old(inodes)[i]) <= IndLogs(inodes[i])
                && logged <= old(logged) + data + IndLogs(inodes[i]) && |data| <= 2 && Records()
      ensures Slot(old(inodes)[i], old(store), SlotOf(pos / BSIZE)) != 0 ==> ok && inodes == old(inodes) && |data| <= 1
    {
      hide SlotOk, OwnerOk, Kept, Slot, DataAt, SameFile, PutFile, Owned, BlockOf, OthersSame, Recorded, FreeCount,
        Took, NeedOf;
      Shape(inodes, store, bitmap, owner, meta);
      ghost var bn := pos / BSIZE;
      var b := Bmap(i, pos / BSIZE);
      data := {b, Bblock(b)};
      if b == 0 {
        return false, data;
      }
      ghost var inodes1, store1, bitmap1, logged1 := inodes, store, bitmap, logged;
      Shape(inodes, store, bitmap, owner, meta);
      KeptFile(old(inodes), old(store), inodes, store, i);
      KeptOthers(old(inodes), old(store), inodes, store, i);
      if Slot(old(inodes)[i], old(store), SlotOf(bn)) != 0 {
        data := {b};
      } else {
        MapLogsBound(old(inodes)[i], inodes[i], store, bn, b);
      }
      Mapped(inodes, store, bitmap, owner, meta, i, bn);
      WriteData(i, bn, b, Patched(store[b], pos % BSIZE, chunk));
      TookThenWrote(old(inodes)[i], old(store), old(bitmap), inodes[i], store1, store, bitmap, bn);
      RecordedTrans(old(store), old(bitmap), old(logged), store1, bitmap1, logged1, store, bitmap, logged, bmapstart);
      OthersTrans(old(inodes), old(store), inodes1, store1, inodes, store, i);
      PutTrans(old(inodes)[i], old(store), inodes1[i], store1, inodes[i], store, bn,
               Patched(store1[b], pos % BSIZE, chunk));
      ok := true;
    }

    method WriteData(i: nat, ghost bn: nat, b: nat, blk: Block)
      requires Consistent() && i < |inodes| && bn < MAXFILE && b == Slot(inodes[i], store, SlotOf(bn)) != 0
      requires b < |store|
      modifies this`store, this`logged
      ensures Consistent() && OthersSame(inodes, old(store), inodes, store, i)
      ensures PutFile(inodes[i], old(store), inodes[i], store, bn, blk)
      ensures forall c: nat | c < MAXFILE :: Slot(inodes[i], store, SlotOf(c)) == Slot(inodes[i], old(store), SlotOf(c))
      ensures logged == old(logged) + {b} && |store| == |old(store)|
      ensures Recorded(old(store), bitmap, old(logged), store, bitmap, logged, bmapstart)
    {
      hide SlotOk, OwnerOk, Slot, DataAt, SameFile, PutFile, Owned;
      WrittenOwned(inodes, store, bitmap, owner, meta, i, bn, blk);
      store := store[b := blk];
      LogWrite(b);
    }

    lemma MapLogsBound(ino: Inode, ino': Inode, store': Disk, bn: nat, r: Word)
      requires |ino.addrs| == |ino'.addrs| == NDIRECT + 1 && bn < MAXFILE && r == Slot(ino', store', SlotOf(bn)) != 0
      ensures MapLogs(ino, ino', bn, r) <= {r, Bblock(r)} + IndLogs(ino')
    {
    }
  
    /** A round of writei as a step towards the result w of the whole write. */
    method WriteRound(i: nat, pos: nat, chunk: seq<Byte>, ghost w: seq<Byte>, ghost end: nat)
      returns (ok: bool, ghost data: set<nat>)
      requires Consistent() && i < |inodes| && 0 < |chunk| && pos % BSIZE + |chunk| <= BSIZE
      requires WrittenUpTo(inodes[i], store, w, pos, end) && NoHoles(inodes[i], store, Max(inodes[i].size, pos))
      requires pos + |chunk| <= end <= |w| && chunk == w[pos..pos + |chunk|]
      modifies this`bitmap, this`store, this`inodes, this`logged, this`owner
      ensures ok <==> FreeCount(old(bitmap)) >= NeedOf(old(inodes)[i], old(store), pos / BSIZE)
      ensures ok ==>
                && Consistent() && |inodes| == |old(inodes)| && |store| == |old(store)|
                && inodes == old(inodes)[i := inodes[i]]
                && inodes[i].size == old(inodes)[i].size
                && Took(old(inodes)[i], old(store), old(bitmap), inodes[i], store, bitmap, pos / BSIZE)
                && OthersSame(old(inodes), old(store), inodes, store, i)
                && WrittenUpTo(inodes[i], store, w, pos + |chunk|, end)
                && NoHoles(inodes[i], store, Max(inodes[i].size, pos + |chunk|))
                && IndLogs(old(inodes)[i]) <= IndLogs(inodes[i])
                && logged <= old(logged) + data + IndLogs(inodes[i]) && |data| <= 2 && Records()
      ensures pos < old(inodes)[i].size || pos % BSIZE != 0 ==> ok && inodes == old(inodes) && |data| <= 1
    {
      hide SlotOk, OwnerOk, Slot, DataAt, SameFile, Owned, BlockOf, OthersSame, ByteAt, SameBlock, Recorded, FreeCount,
        Took, NeedOf;
      Shape(inodes, store, bitmap, owner, meta);
      ghost var blk := Patched(BlockOf(inodes[i], store, pos / BSIZE), pos % BSIZE, chunk);
      ok, data := WriteBlock(i, pos, chunk);
      if ok {
        Shape(inodes, store, bitmap, owner, meta);
        WriteStep(old(inodes)[i], old(store), inodes[i], store, w, pos, |chunk|, end);
        MapStep(old(inodes)[i], old(store), inodes[i], store, blk, Max(old(inodes)[i].size, pos), pos, |chunk|);
      }
    }
  
    /** The loop of writei. */
    method WriteLoop(i: nat, off: nat, src: seq<Byte>, ghost w: seq<Byte>) returns (ok: bool, ghost data: set<nat>)
      requires Consistent() && i < |inodes| && off + |src| <= |w| <= MAXFILE * BSIZE
      requires off <= inodes[i].size && WrittenUpTo(inodes[i], store, w, off, off + |src|)
      requires NoHoles(inodes[i], store, inodes[i].size) && src == w[off..off + |src|]
      modifies this`bitmap, this`store, this`inodes, this`logged, this`owner
      ensures BlocksEnd(off, |src|) <= MAXFILE
      ensures ok <==>
                FreeCount(old(bitmap)) >= NeedRange(old(inodes)[i], old(store), off / BSIZE, BlocksEnd(off, |src|))
      ensures ok ==>
                && Consistent() && |inodes| == |old(inodes)| && |store| == |old(store)|
                && inodes == old(inodes)[i := inodes[i]]
                && inodes[i].size == old(inodes)[i].size
                && TookRange(old(inodes)[i], old(store), FreeCount(old(bitmap)), inodes[i], store, FreeCount(bitmap),
                             off / BSIZE, BlocksEnd(off, |src|))
                && OthersSame(old(inodes), old(store), inodes, store, i)
                && WrittenUpTo(inodes[i], store, w, off + |src|, off + |src|)
                && NoHoles(inodes[i], store, Max(inodes[i].size, off + |src|))
                && (off + |src| <= inodes[i].size ==> inodes == old(inodes)) && Records()
                && logged <= old(logged) + data + IndLogs(inodes[i])
                && (if src == [] then logged == old(logged)
                    else |data| + (if off % BSIZE != 0 then 1 else 0) <= 2 * Touched(off, |src|))
    {
      hide SlotOk, OwnerOk, Slot, DataAt, SameFile, Owned, BlockOf, OthersSame, ByteAt, SameBlock, NoHoles,
        WrittenUpTo, RoundsDone, Min, IndLogs, Bblock, Recorded, FreeCount, Took, NeedOf, NeedRange, BlocksEnd,
            TookRange;
      ghost var lo, hi := off / BSIZE, BlocksEnd(off, |src|);
      EndInFile(off, |src|);
      RecordedSelf(store, bitmap, logged, bmapstart);
      RoundsStart(off, |src|);
      Shape(inodes, store, bitmap, owner, meta);
      TookNone(inodes[i], store, FreeCount(bitmap), lo);
      OthersSelf(inodes, store, i);
      var tot, n := 0, |src|;
      data := {};
      ghost var rounds := 0;
      while tot < n
        invariant 0 <= tot <= n
        invariant Consistent() && |inodes| == |old(inodes)| && |store| == |old(store)|
        invariant inodes == old(inodes)[i := inodes[i]]
        invariant |inodes[i].addrs| == NDIRECT + 1 && inodes[i].size == old(inodes)[i].size
        invariant OthersSame(old(inodes), old(store), inodes, store, i)
        invariant WrittenUpTo(inodes[i], store, w, off + tot, off + n)
        invariant NoHoles(inodes[i], store, Max(inodes[i].size, off + tot))
        invariant off + tot <= inodes[i].size ==> inodes == old(inodes)
        invariant logged <= old(logged) + data + IndLogs(inodes[i])
        invariant tot == 0 ==> logged == old(logged)
        invariant Recorded(old(store), old(bitmap), old(logged), store, bitmap, logged, bmapstart)
        invariant RoundsDone(off, n, tot, rounds, |data|) && lo + rounds <= hi
        invariant TookRange(old(inodes)[i], old(store), FreeCount(old(bitmap)), inodes[i], store, FreeCount(bitmap),
                            lo, lo + rounds)
      {
        ghost var inodes1, store1, bitmap1, data1, logged1, ind1 := inodes, store, bitmap, data, logged,
            IndLogs(inodes[i]);
        var pos := off + tot;
        var m := Min(n - tot, BSIZE - pos % BSIZE);
        RoundLength(off, n, tot, rounds, |data|, m);
        SubSlice(w, src, off, tot, m);
        ghost var more: set<nat>;
        NextNeed(old(inodes)[i], old(store), FreeCount(old(bitmap)), inodes[i], store, FreeCount(bitmap), lo,
                 pos / BSIZE, hi);
        ok, more := WriteRound(i, pos, src[tot..tot + m], w, off + n);
        if !ok {
          return false, data;
        }
        Shape(inodes, store, bitmap, owner, meta);
        OthersTrans(old(inodes), old(store), inodes1, store1, inodes, store, i);
        RecordedTrans(old(store), old(bitmap), old(logged), store1, bitmap1, logged1, store, bitmap, logged, bmapstart);
        TookNext(old(inodes)[i], old(store), FreeCount(old(bitmap)), inodes1[i], store1, bitmap1, inodes[i], store,
                 bitmap, lo, pos / BSIZE);
        data := data + more;
        LogsGrow(old(logged), logged1, logged, data1, more, ind1, IndLogs(inodes[i]));
        NextRound(off, n, tot, rounds, |data1|, m, |data|);
        tot := tot + m;
        rounds := rounds + 1;
      }
      RoundsEnd(off, n, rounds, |data|);
      TookFree(old(inodes)[i], old(store), FreeCount(old(bitmap)), inodes[i], store, FreeCount(bitmap), lo, hi);
      ok := true;
    }

    /** writei on a plain file. */
    method Writei(i: nat, off: Word, src: seq<Byte>) returns (r: Outcome)
      requires Valid() && i < |inodes| && |src| < 0x1_0000_0000
      modifies this`bitmap, this`store, this`inodes, this`dinodes, this`logged, this`owner
      ensures r.Failed? <==> off > old(inodes)[i].size || off + |src| > MAXFILE * BSIZE
      ensures r.Failed? ==> Untouched() && dinodes == old(dinodes)
      ensures r.Panicked? <==>
                && off <= old(inodes)[i].size && off + |src| <= MAXFILE * BSIZE && BlocksEnd(off, |src|) <= MAXFILE
                && FreeCount(old(bitmap)) < NeedRange(old(inodes)[i], old(store), off / BSIZE, BlocksEnd(off, |src|))
      ensures r.Count? ==>
                && Valid() && r.n == |src| && |inodes| == |old(inodes)|
                && Bytes(inodes[i], store) == Spliced(old(Bytes(inodes[i], store)), off, src)
                && SameRest(old(inodes), old(store), inodes, store, i)
                && BlocksEnd(off, |src|) <= MAXFILE
                && TookRange(old(inodes)[i], old(store), FreeCount(old(bitmap)), inodes[i], store, FreeCount(bitmap),
                             off / BSIZE, BlocksEnd(off, |src|))
                && |logged| <= |old(logged)| + WriteCost(off, |src|)
                && Records()
                && (dinodes == old(dinodes) || (dinodes == old(dinodes)[i := inodes[i]] && Iblock(i) in logged))
    {
      hide SlotOk, OwnerOk, Slot, DataAt, SameFile, Owned, BlockOf, OthersSame, ByteAt, SameBlock, NoHoles, Bytes,
        Spliced, Solid, Recorded, FreeCount, NeedRange, BlocksEnd, TookRange;
      Shape(inodes, store, bitmap, owner, meta);
      var n := |src|;
      if off > inodes[i].size || (off + n) % 0x1_0000_0000 < off {
        return Failed;
      }
      if off + n > MAXFILE * BSIZE {
        return Failed;
      }
      BytesLength(inodes[i], store);
      ghost var w := Spliced(Bytes(inodes[i], store), off, src);
      WriteBegin(inodes[i], store, off, src);
      ghost var data: set<nat>;
      var ok;
      ok, data := WriteLoop(i, off, src, w);
      if !ok {
        return Panicked;
      }
      Shape(inodes, store, bitmap, owner, meta);
      WriteResult(old(inodes), old(store), inodes, store, i, w, off + n);
      ResizedOwned(inodes, store, bitmap, owner, meta, i, |w|);
      ResizedTook(old(inodes)[i], old(store), FreeCount(old(bitmap)), inodes[i], store, FreeCount(bitmap),
                  off / BSIZE, BlocksEnd(off, n), |w|);
      assert (off + n <= inodes[i].size ==> inodes == inodes[i := Inode(|w|, inodes[i].addrs)]);
      var pos := off + n;
      RecordedMore(old(store), old(bitmap), old(logged), store, bitmap, logged, logged + {Iblock(i)}, bmapstart);
      if n > 0 && pos > inodes[i].size {
        inodes := inodes[i := Inode(pos, inodes[i].addrs)];
        Iupdate(i);
      }
      LogCount(logged, old(logged), data, IndLogs(inodes[i]), Iblock(i));
      r := Count(n);
    }

    /** One round of readi. */
    method ReadBlock(i: nat, pos: nat, m: nat) returns (part: seq<Byte>)
      requires Valid() && i < |inodes| && |inodes[i].addrs| == NDIRECT + 1 && 0 < m
      requires pos + m <= inodes[i].size <= MAXFILE * BSIZE
      requires pos % BSIZE + m <= BSIZE
      modifies this`bitmap, this`store, this`inodes, this`logged, this`owner
      ensures Untouched() && part == Bytes(inodes[i], store)[pos..pos + m]
    {
      hide SlotOk, OwnerOk, Slot, DataAt, Owned, BlockOf, ByteAt, Kept, Bytes;
      assert Solid(inodes[i], store);
      BytesLength(inodes[i], store);
      var b := Bmap(i, pos / BSIZE);
      Mapped(inodes, store, bitmap, owner, meta, i, pos / BSIZE);
      ReadStep(inodes[i], store, pos, m);
      part := store[b][pos % BSIZE..pos % BSIZE + m];
    }

    /** readi on a plain file: no block is ever allocated. */
    method Readi(i: nat, off: Word, len: Word) returns (r: Outcome, dst: seq<Byte>)
      requires Valid() && i < |inodes|
      modifies this`bitmap, this`store, this`inodes, this`logged, this`owner
      ensures Untouched() && !r.Panicked?
      ensures r.Failed? <==> off > inodes[i].size || off + len >= 0x1_0000_0000
      ensures r.Count? ==> r.n == Min(len, inodes[i].size - off) && dst == Bytes(inodes[i], store)[off..off + r.n]
    {
      hide Owned, Bytes, Solid;
      Shape(inodes, store, bitmap, owner, meta);
      BytesLength(inodes[i], store);
      dst := [];
      var n := len;
      if off > inodes[i].size || (off + n) % 0x1_0000_0000 < off {
        return Failed, dst;
      }
      if off + n > inodes[i].size {
        n := inodes[i].size - off;
      }
      ghost var c := Bytes(inodes[i], store);
      var tot := 0;
      while tot < n
        invariant 0 <= tot <= n && Valid() && Untouched()
        invariant dst == c[off..off + tot]
      {
        var pos := off + tot;
        var m := Min(n - tot, BSIZE - pos % BSIZE);
        var part := ReadBlock(i, pos, m);
        dst := dst + part;
        assert c[off..pos] + c[pos..pos + m] == c[off..pos + m];
        tot := tot + m;
      }
      r := Count(n);
    }

    /** What is written to a file is read from it. */
    method WriteThenRead(i: nat, off: Word, src: seq<Byte>) returns (r: Outcome, dst: seq<Byte>)
      requires Valid() && i < |inodes| && |src| < 0x1_0000_0000
      modifies this`bitmap, this`store, this`inodes, this`dinodes, this`logged, this`owner
      ensures r.Count? ==> Valid() && r == Count(|src|) && dst == src
    {
      hide Owned, Bytes, Solid, SameRest, Recorded, TookRange, NeedRange, FreeCount, BlocksEnd, Spliced;
      Shape(inodes, store, bitmap, owner, meta);
      BytesLength(inodes[i], store);
      ghost var c := Bytes(inodes[i], store);
      r := Writei(i, off, src);
      dst := [];
      if r.Count? {
        Shape(inodes, store, bitmap, owner, meta);
        BytesLength(inodes[i], store);
        SplicedThere(c, off, src);
        r, dst := Readi(i, off, |src|);
      }
    }

    method BeginOp()
      modifies this`logged
      ensures logged == {}
    {
      logged := {};
    }

    /** An operation may log no more blocks than begin_op reserved. */
    method EndOp()
      requires |logged| <= MAXOPBLOCKS
    {
    }

    /** One transaction of filewrite. */
    method WriteChunk(i: nat, off: Word, src: seq<Byte>) returns (r: Outcome)
      requires Valid() && i < |inodes| && |src| <= (MAXOPBLOCKS - 1 - 1 - 2) / 2 * 512
      modifies this`bitmap, this`store, this`inodes, this`dinodes, this`logged, this`owner
      ensures r.Failed? <==> off > old(inodes)[i].size || off + |src| > MAXFILE * BSIZE
      ensures r.Failed? ==>
                inodes == old(inodes) && store == old(store) && bitmap == old(bitmap) && dinodes == old(dinodes)
                    && Valid()
      ensures r.Panicked? <==>
                && off <= old(inodes)[i].size && off + |src| <= MAXFILE * BSIZE && BlocksEnd(off, |src|) <= MAXFILE
                && FreeCount(old(bitmap)) < NeedRange(old(inodes)[i], old(store), off / BSIZE, BlocksEnd(off, |src|))
      ensures r.Count? ==>
                && Valid() && r.n == |src| && |inodes| == |old(inodes)|
                && (dinodes == old(dinodes) || (dinodes == old(dinodes)[i := inodes[i]] && Iblock(i) in logged))
                && BlocksEnd(off, |src|) <= MAXFILE
                && TookRange(old(inodes)[i], old(store), FreeCount(old(bitmap)), inodes[i], store, FreeCount(bitmap),
                             off / BSIZE, BlocksEnd(off, |src|))
                && Bytes(inodes[i], store) == Spliced(old(Bytes(inodes[i], store)), off, src)
                && SameRest(old(inodes), old(store), inodes, store, i)
                && Recorded(old(store), old(bitmap), {}, store, bitmap, logged, bmapstart) && |logged| <= MAXOPBLOCKS
    {
      hide SlotOk, OwnerOk, Owned, Bytes, Solid, Spliced, WriteCost, SameRest, Recorded, FreeCount, NeedRange,
        BlocksEnd, TookRange;
      BeginOp();
      r := Writei(i, off, src);
      ChunkFits(off, |src|);
      if !r.Panicked? {
        EndOp();
      }
    }

    function Snapshot(): Image
      reads this`store, this`bitmap, this`dinodes
    {
      Image(store, bitmap, dinodes)
    }

    /** filewrite on a plain file that is open for writing at byte off: chunks that each fit one transaction.  What the
        buffers hold before, and then at each end_op, is given out as chunks. */
    method Filewrite(i: nat, off: Word, src: seq<Byte>) returns (r: Outcome, off': Word, chunks: seq<Image>)
      requires Valid() && i < |inodes| && |src| < 0x8000_0000
      modifies this`bitmap, this`store, this`inodes, this`dinodes, this`logged, this`owner
      ensures WrittenBytes(old(inodes)[i].size, off, |src|) > 0 ==>
                off + WrittenBytes(old(inodes)[i].size, off, |src|) <= MAXFILE * BSIZE
      ensures var k := WrittenBytes(old(inodes)[i].size, off, |src|);
              r.Panicked? <==> k > 0 && FreeCount(old(bitmap)) < NeedBytes(old(inodes)[i], old(store), off, k)
      ensures !r.Panicked? ==>
                var k := WrittenBytes(old(inodes)[i].size, off, |src|);
                && Valid() && |inodes| == |old(inodes)| && off' == off + k
                && r == (if k == |src| then Count(|src|) else Failed)
                && Bytes(inodes[i], store) == SplicedPart(old(Bytes(inodes[i], store)), off, src, k)
                && SameRest(old(inodes), old(store), inodes, store, i)
                && Chunks(chunks, i, old(Bytes(inodes[i], store)), off, src, k, bmapstart, inodestart)
                && chunks[|chunks| - 1] == Snapshot()
      ensures !r.Panicked? ==>
                (r == Count(|src|) <==> src == [] || (off <= old(inodes)[i].size && off + |src| <= MAXFILE * BSIZE))
      ensures r.Count? ==> off' == off + |src|
      ensures r.Failed? ==>
                if off > old(inodes)[i].size then off' == off
                else (off' - off) % 1536 == 0 && off' <= MAXFILE * BSIZE < off' + 1536
      ensures exists k: nat :: Chunks(chunks, i, old(Bytes(inodes[i], store)), off, src, k, bmapstart, inodestart)
      ensures chunks != [] && chunks[0] == old(Snapshot())
    {
      hide Owned, Bytes, Solid, Spliced, SameRest, SplicedPart, Step, Holds, Chunks, Recorded, TookBytes, FreeCount,
        TookRange, NeedRange, NeedBytes, BlocksEnd;
      Shape(inodes, store, bitmap, owner, meta);
      BytesLength(inodes[i], store);
      ghost var c := Bytes(inodes[i], store);
      var max := (MAXOPBLOCKS - 1 - 1 - 2) / 2 * 512;
      var done, n := 0, |src|;
      WrittenMeans(inodes[i].size, off, n);
      off', chunks := off, [Snapshot()];
      FirstSplice(c, off, src);
      HoldsNow(Snapshot(), i);
      NoChunks(Snapshot(), i, c, off, src, bmapstart, inodestart);
      SameRestSelf(inodes, store, i);
      TookNoBytes(inodes[i], store, FreeCount(bitmap), off);
      while done < n
        invariant 0 <= done <= n && off' == off + done
        invariant Valid() && WellShaped(inodes) && |inodes| == |old(inodes)|
        invariant done == n || done % max == 0
        invariant done > 0 ==> off <= |c| && off' <= MAXFILE * BSIZE
        invariant SplicedPart(c, off, src, done) == Bytes(inodes[i], store)
        invariant SameRest(old(inodes), old(store), inodes, store, i)
        invariant TookBytes(old(inodes)[i], old(store), FreeCount(old(bitmap)), inodes[i], store, FreeCount(bitmap),
                            off, done)
        invariant Chunks(chunks, i, c, off, src, done, bmapstart, inodestart)
        invariant chunks != [] && chunks[0] == old(Snapshot()) && chunks[|chunks| - 1] == Snapshot()
      {
        var n1 := n - done;
        if n1 > max {
          n1 := max;
        }
        Shape(inodes, store, bitmap, owner, meta);
        BytesLength(inodes[i], store);
        NextSplice(c, off, src, done, n1);
        ghost var inodes1, store1 := inodes, store;
        ghost var free1 := FreeCount(bitmap);
        ChunkWithin(|c|, off, n, done, n1);
        r := WriteChunk(i, off', src[done..done + n1]);
        if r.Panicked? {
          PanicBytes(old(inodes)[i], old(store), FreeCount(old(bitmap)), inodes1[i], store1, free1, off, done, n1,
                     WrittenBytes(|c|, off, n));
          return;
        }
        if r.Count? && r.n > 0 {
          off' := off' + r.n;
        }
        if r.Failed? {
          StoppedAt(|c|, off, n, done, n1);
          break;
        }
        Shape(inodes, store, bitmap, owner, meta);
        SameRestTrans(old(inodes), old(store), inodes1, store1, inodes, store, i);
        MoreBytes(old(inodes)[i], old(store), FreeCount(old(bitmap)), inodes1[i], store1, free1,
                  inodes[i], store, FreeCount(bitmap), off, done, n1);
        if r.n != n1 {
          return Panicked, off', chunks;
        }
        StepMade(chunks[|chunks| - 1], Snapshot(), logged, bmapstart, inodestart, i);
        HoldsNow(Snapshot(), i);
        NextChunk(chunks, i, c, off, src, done, bmapstart, inodestart, Snapshot(), n1);
        chunks := chunks + [Snapshot()];
        done := done + r.n;
      }
      BytesFree(old(inodes)[i], old(store), FreeCount(old(bitmap)), inodes[i], store, FreeCount(bitmap), off, done);
      r := if done == n then Count(n) else Failed;
    }

    /** The first half of itrunc: the direct blocks. */
    method FreeDirect(i: nat) returns (ok: bool, ghost done: set<nat>)
      requires Consistent() && i < |inodes| && Freed(owner, bitmap, meta, i, {})
      modifies this`bitmap, this`inodes, this`logged
      ensures ok && |bitmap| == |old(bitmap)| && Freed(owner, bitmap, meta, i, done)
      ensures forall t: nat :: t in done <==> t < NDIRECT
      ensures |inodes| == |old(inodes)| && |inodes[i].addrs| == NDIRECT + 1
      ensures inodes == old(inodes)[i := Inode(old(inodes)[i].size, inodes[i].addrs)]
      ensures inodes[i].addrs[NDIRECT] == old(inodes)[i].addrs[NDIRECT]
      ensures forall s | 0 <= s < NDIRECT :: inodes[i].addrs[s] == 0
      ensures Records()
    {
      hide SlotOk, OwnerOk, Owned, Freed, Recorded;
      RecordedSelf(store, bitmap, logged, bmapstart);
      Shape(inodes, store, bitmap, owner, meta);
      done := {};
      for s := 0 to NDIRECT
        invariant |bitmap| == |old(bitmap)| && Freed(owner, bitmap, meta, i, done)
        invariant forall t: nat :: t in done <==> t < s
        invariant |inodes| == |old(inodes)| && |inodes[i].addrs| == NDIRECT + 1
        invariant inodes == old(inodes)[i := Inode(old(inodes)[i].size, inodes[i].addrs)]
        invariant forall t | 0 <= t <= NDIRECT :: inodes[i].addrs[t] == if t < s then 0 else old(inodes)[i].addrs[t]
        invariant Recorded(store, old(bitmap), old(logged), store, bitmap, logged, bmapstart)
      {
        ghost var bitmap1, logged1 := bitmap, logged;
        FreeStep(old(inodes), store, old(bitmap), owner, meta, i, bitmap, done, s);
        if inodes[i].addrs[s] != 0 {
          ok := Bfree(inodes[i].addrs[s]);
          if !ok {
            return;
          }
          RecordedTrans(store, old(bitmap), old(logged), store, bitmap1, logged1, store, bitmap, logged, bmapstart);
          inodes := inodes[i := Inode(inodes[i].size, inodes[i].addrs[s := 0])];
        }
        done := done + {s};
      }
      ok := true;
    }

    /** The second half: the entries of the indirect block, then the block itself. */
    method FreeIndirect(i: nat, ind: Word, ghost inodes0: seq<Inode>, ghost bitmap0: seq<bool>, ghost direct: set<nat>)
      returns (ok: bool, ghost done: set<nat>)
      requires Owned(inodes0, store, bitmap0, owner, meta) && i < |inodes| == |inodes0| && |bitmap| == |store|
      requires Freed(owner, bitmap, meta, i, direct) && forall t: nat :: t in direct <==> t < NDIRECT
      requires |inodes[i].addrs| == NDIRECT + 1 && 0 < ind == inodes0[i].addrs[NDIRECT]
      modifies this`bitmap, this`inodes, this`logged
      ensures ok && |bitmap| == |old(bitmap)| && Freed(owner, bitmap, meta, i, done)
      ensures forall t: nat | t < NSLOTS :: t in done
      ensures inodes == old(inodes)[i := Inode(old(inodes)[i].size, old(inodes)[i].addrs[NDIRECT := 0])]
      ensures Records()
    {
      hide SlotOk, OwnerOk, Owned, Freed, GetWord, Recorded;
      RecordedSelf(store, bitmap, logged, bmapstart);
      Shape(inodes0, store, bitmap0, owner, meta);
      IndirectInRange(inodes0, store, bitmap0, owner, meta, i);
      done := direct;
      var a := store[ind];
      for e := 0 to NINDIRECT
        invariant |bitmap| == |old(bitmap)| && inodes == old(inodes) && Freed(owner, bitmap, meta, i, done)
        invariant forall t: nat :: t in done <==> t < NDIRECT || NDIRECT < t <= NDIRECT + e
        invariant Recorded(store, old(bitmap), old(logged), store, bitmap, logged, bmapstart)
      {
        ghost var bitmap1, logged1 := bitmap, logged;
        var s := NDIRECT + 1 + e;
        EntryIsSlot(inodes0[i], store, e);
        FreeStep(inodes0, store, bitmap0, owner, meta, i, bitmap, done, s);
        if GetWord(a, e) != 0 {
          ok := Bfree(GetWord(a, e));
          if !ok {
            return;
          }
          RecordedTrans(store, old(bitmap), old(logged), store, bitmap1, logged1, store, bitmap, logged, bmapstart);
        }
        done := done + {s};
      }
      FreeStep(inodes0, store, bitmap0, owner, meta, i, bitmap, done, NDIRECT);
      ghost var bitmap2, logged2 := bitmap, logged;
      ok := Bfree(ind);
      if !ok {
        return;
      }
      RecordedTrans(store, old(bitmap), old(logged), store, bitmap2, logged2, store, bitmap, logged, bmapstart);
      inodes := inodes[i := Inode(inodes[i].size, inodes[i].addrs[NDIRECT := 0])];
      done := done + {NDIRECT};
    }

    /** itrunc.  False would be bfree's panic on a block that is free already. */
    method Itrunc(i: nat) returns (ok: bool)
      requires Valid() && i < |inodes|
      modifies this`bitmap, this`inodes, this`dinodes, this`logged, this`owner
      ensures ok && Valid() && |inodes| == |old(inodes)| && |bitmap| == |old(bitmap)|
      ensures inodes[i].size == 0 && forall s | 0 <= s <= NDIRECT :: inodes[i].addrs[s] == 0
      ensures forall j: nat | j < |inodes| && j != i :: inodes[j] == old(inodes)[j]
      ensures owner == Without(old(owner), i)
      ensures forall b: nat | b < |bitmap| ::
                bitmap[b] <==> old(bitmap)[b] && !(b in old(owner) && old(owner)[b].inum == i)
      ensures Records() && dinodes == old(dinodes)[i := inodes[i]] && Iblock(i) in logged
    {
      hide SlotOk, OwnerOk, Owned, Slot, Freed, Solid, Recorded;
      Shape(inodes, store, bitmap, owner, meta);
      FreedNone(inodes, store, bitmap, owner, meta, i);
      ghost var done: set<nat>;
      ok, done := FreeDirect(i);
      if !ok {
        return;
      }
      var ind := inodes[i].addrs[NDIRECT];
      NoIndirectSlots(old(inodes)[i], store);
      if ind != 0 {
        ghost var bitmap1, logged1 := bitmap, logged;
        ok, done := FreeIndirect(i, ind, old(inodes), old(bitmap), done);
        if !ok {
          return;
        }
        RecordedTrans(store, old(bitmap), old(logged), store, bitmap1, logged1, store, bitmap, logged, bmapstart);
      }
      RecordedMore(store, old(bitmap), old(logged), store, bitmap, logged, logged + {Iblock(i)}, bmapstart);
      inodes := inodes[i := Inode(0, inodes[i].addrs)];
      TruncOwned(old(inodes), store, old(bitmap), owner, meta, i, bitmap, done, inodes[i]);
      owner := Without(owner, i);
      Iupdate(i);
      assert inodes == dinodes;
      assert Consistent();
      assert Solid(inodes[i], store);
      assert forall j: nat | j < |inodes| && j != i :: Solid(old(inodes)[j], store);
      assert forall j: nat | j < |inodes| :: Solid(inodes[j], store);
    }
  }

  /** The blocks that writing n bytes at off takes. */
  function NeedBytes(ino: Inode, store: Disk, off: nat, n: nat): nat
    requires |ino.addrs| == NDIRECT + 1 && n > 0 && off + n <= MAXFILE * BSIZE
  {
    EndInFile(off, n);
    NeedRange(ino, store, off / BSIZE, BlocksEnd(off, n))
  }

  /** The blocks of n bytes at off have been mapped, at just the cost of what was missing. */
  ghost predicate TookBytes(ino: Inode, store: Disk, free: nat, ino1: Inode, store1: Disk, free1: nat, off: nat,
                            n: nat) {
    && |ino.addrs| == NDIRECT + 1
    && if n == 0 then
         ino1 == ino && store1 == store && free1 == free
       else
         && off + n <= MAXFILE * BSIZE
         && TookRange(ino, store, free, ino1, store1, free1, off / BSIZE, BlocksEnd(off, n))
  }

  lemma TookNoBytes(ino: Inode, store: Disk, free: nat, off: nat)
    requires |ino.addrs| == NDIRECT + 1
    ensures TookBytes(ino, store, free, ino, store, free, off, 0)
  {
  }

  /** A chunk that starts where the last one ended, perhaps inside a block. */
  lemma MoreBytes(ino: Inode, store: Disk, free: nat, ino1: Inode, store1: Disk, free1: nat,
                  ino2: Inode, store2: Disk, free2: nat, off: nat, n: nat, m: nat)
    requires TookBytes(ino, store, free, ino1, store1, free1, off, n) && m > 0 && off + n + m <= MAXFILE * BSIZE
    requires TookRange(ino1, store1, free1, ino2, store2, free2, (off + n) / BSIZE, BlocksEnd(off + n, m))
    ensures TookBytes(ino, store, free, ino2, store2, free2, off, n + m)
  {
    hide TookRange;
    if n > 0 {
      TookBoth(ino, store, free, ino1, store1, free1, ino2, store2, free2,
               off / BSIZE, BlocksEnd(off, n), (off + n) / BSIZE, BlocksEnd(off + n, m));
    }
  }

  lemma BytesFree(ino: Inode, store: Disk, free: nat, ino1: Inode, store1: Disk, free1: nat, off: nat, n: nat)
    requires TookBytes(ino, store, free, ino1, store1, free1, off, n)
    ensures n > 0 ==> off + n <= MAXFILE * BSIZE && |ino.addrs| == NDIRECT + 1 && free >= NeedBytes(ino, store, off, n)
  {
  }

  /** When a chunk does not get its blocks, the whole write lacks them. */
  lemma PanicBytes(ino: Inode, store: Disk, free: nat, ino1: Inode, store1: Disk, free1: nat, off: nat, n: nat, m: nat,
                   k: nat)
    requires TookBytes(ino, store, free, ino1, store1, free1, off, n) && 0 < m && n + m <= k
    requires off + k <= MAXFILE * BSIZE
    requires |ino1.addrs| == NDIRECT + 1 && BlocksEnd(off + n, m) <= MAXFILE
    requires free1 < NeedRange(ino1, store1, (off + n) / BSIZE, BlocksEnd(off + n, m))
    ensures free < NeedBytes(ino, store, off, k)
  {
    hide NeedRange;
    EndInFile(off, k);
    if n > 0 {
      NeedSplit(ino, store, free, ino1, store1, free1,
                off / BSIZE, BlocksEnd(off, n), (off + n) / BSIZE, BlocksEnd(off + n, m));
    }
    NeedMonotone(ino, store, off / BSIZE, BlocksEnd(off + n, m), BlocksEnd(off, k));
  }

  /** A chunk that is written lies within what is written in all. */
  lemma ChunkWithin(size: nat, off: nat, n: nat, done: nat, n1: nat)
    requires size <= MAXFILE * BSIZE && done < n && done % 1536 == 0 && n1 == Min(n - done, 1536)
    ensures off <= size && off + done + n1 <= MAXFILE * BSIZE ==> done + n1 <= WrittenBytes(size, off, n)
    ensures WrittenBytes(size, off, n) > 0 ==> off + WrittenBytes(size, off, n) <= MAXFILE * BSIZE
  {
  }

  /** The first n bytes of src written at off, or nothing past the end of the file. */
  function SplicedPart(s: seq<Byte>, off: nat, src: seq<Byte>, n: nat): seq<Byte>
    requires n <= |src|
  {
    if off > |s| then s else Spliced(s, off, src[..n])
  }

  lemma SplicedThere(s: seq<Byte>, off: nat, src: seq<Byte>)
    requires off <= |s|
    ensures |Spliced(s, off, src)| >= off + |src| && Spliced(s, off, src)[off..off + |src|] == src
  {
  }

  lemma FirstSplice(s: seq<Byte>, off: nat, src: seq<Byte>)
    ensures SplicedPart(s, off, src, 0) == s
  {
    SplicedNothing(s, off);
  }

  lemma NextSplice(s: seq<Byte>, off: nat, src: seq<Byte>, n: nat, m: nat)
    requires n + m <= |src|
    ensures off <= |s| ==> off + n <= |SplicedPart(s, off, src, n)|
    ensures off <= |s| ==>
              Spliced(SplicedPart(s, off, src, n), off + n, src[n..n + m]) == SplicedPart(s, off, src, n + m)
    ensures off > |s| ==> SplicedPart(s, off, src, n) == s
  {
    if off <= |s| {
      SplicedTwice(s, off, src[..n], src[n..n + m]);
      assert src[..n] + src[n..n + m] == src[..n + m];
    }
  }

  /** How far filewrite gets: to the end, or as far as whole chunks stay within the largest file. */
  function WrittenBytes(size: nat, off: nat, n: nat): nat {
    if off > size then 0 else if off + n <= MAXFILE * BSIZE then n
    else if off >= MAXFILE * BSIZE then 0 else (MAXFILE * BSIZE - off) / 1536 * 1536
  }

  lemma WrittenMeans(size: nat, off: nat, n: nat)
    requires size <= MAXFILE * BSIZE
    ensures var k := WrittenBytes(size, off, n);
            && (k == n <==> n == 0 || (off <= size && off + n <= MAXFILE * BSIZE))
            && (k != n && off > size ==> k == 0)
            && (k != n && off <= size ==> k % 1536 == 0 && off + k <= MAXFILE * BSIZE < off + k + 1536)
  {
  }

  lemma StoppedAt(size: nat, off: nat, n: nat, done: nat, n1: nat)
    requires size <= MAXFILE * BSIZE && done < n && done % 1536 == 0 && n1 == Min(n - done, 1536)
    requires if off > size then done == 0 else off + done <= MAXFILE * BSIZE < off + done + n1
    ensures WrittenBytes(size, off, n) == done < n
  {
  }

  /** A chunk of filewrite fits in what begin_op reserves, wherever it starts. */
  lemma ChunkFits(off: nat, n: nat)
    requires n <= (MAXOPBLOCKS - 1 - 1 - 2) / 2 * 512
    ensures WriteCost(off, n) <= MAXOPBLOCKS
  {
  }

  lemma LogCount(s: set<nat>, a: set<nat>, b: set<nat>, c: set<nat>, k: nat)
    requires s <= a + b + c + {k}
    ensures |s| <= |a| + |b| + |c| + 1
  {
    var all := a + b + c + {k};
    Cardinality(s, all);
  }

  lemma {:induction false} Cardinality(s: set<nat>, all: set<nat>)
    requires s <= all
    ensures |s| <= |all|
  {
    assert all == s + (all - s);
  }

  /** Progress of the loop of writei, and what it has logged besides the indirect block. */
  ghost predicate RoundsDone(off: nat, n: nat, tot: nat, rounds: nat, d: nat) {
    && tot <= n
    && if rounds == 0 then tot == 0 && d == 0
       else
         && tot > 0
         && off + tot == Min(off + n, (off / BSIZE + rounds) * BSIZE)
         && (off / BSIZE + rounds - 1) * BSIZE < off + n
         && d + (if off % BSIZE != 0 then 1 else 0) <= 2 * rounds
  }

  lemma EndInFile(off: nat, n: nat)
    requires off + n <= MAXFILE * BSIZE
    ensures off / BSIZE <= BlocksEnd(off, n) <= MAXFILE
  {
  }

  lemma RoundsStart(off: nat, n: nat)
    ensures RoundsDone(off, n, 0, 0, 0)
  {
  }

  lemma LogsGrow(l0: set<nat>, l1: set<nat>, l2: set<nat>, data: set<nat>, more: set<nat>, ind1: set<nat>,
                 ind2: set<nat>)
    requires l1 <= l0 + data + ind1 && l2 <= l1 + more + ind2 && ind1 <= ind2
    ensures l2 <= l0 + (data + more) + ind2 && |data + more| <= |data| + |more|
  {
  }

  lemma RoundLength(off: nat, n: nat, tot: nat, rounds: nat, d: nat, m: nat)
    requires RoundsDone(off, n, tot, rounds, d) && tot < n && m == Min(n - tot, BSIZE - (off + tot) % BSIZE)
    ensures 0 < m <= n - tot && (off + tot) % BSIZE + m <= BSIZE
    ensures (off + tot) / BSIZE == off / BSIZE + rounds < BlocksEnd(off, n)
    ensures if rounds > 0 then (off + tot) % BSIZE == 0 else tot == 0 && d == 0
  {
  }

  lemma NextRound(off: nat, n: nat, tot: nat, rounds: nat, d: nat, m: nat, d': nat)
    requires RoundsDone(off, n, tot, rounds, d) && tot < n
    requires m == Min(n - tot, BSIZE - (off + tot) % BSIZE)
    requires d' <= d + 2 && (rounds == 0 && off % BSIZE != 0 ==> d' <= d + 1)
    ensures RoundsDone(off, n, tot + m, rounds + 1, d')
  {
    RoundLength(off, n, tot, rounds, d, m);
  }

  lemma RoundsEnd(off: nat, n: nat, rounds: nat, d: nat)
    requires RoundsDone(off, n, n, rounds, d)
    ensures if n == 0 then d == 0 else d + (if off % BSIZE != 0 then 1 else 0) <= 2 * Touched(off, n)
    ensures off / BSIZE + rounds == BlocksEnd(off, n)
  {
  }

  lemma SubSlice(w: seq<Byte>, src: seq<Byte>, off: nat, tot: nat, m: nat)
    requires off + |src| <= |w| && src == w[off..off + |src|] && tot + m <= |src|
    ensures src[tot..tot + m] == w[off + tot..off + tot + m]
  {
    var a, b := src[tot..tot + m], w[off + tot..off + tot + m];
    forall k: nat | k < m ensures a[k] == b[k] {
      var at := tot + k;
      assert src[at] == w[off + at];
    }
  }
}
