/** The bound on what a chunk of filewrite logs is reached: a disk on which the four blocks that a chunk needs lie in
    four different blocks of the free map. */
module ChunkBound {
  import opened Blocks
  import opened BlockMap
  import opened FileBlocks
  import opened Params

  const BLOCKS: nat := 16384
  const FIRST: nat := 600
  const BMAPSTART: nat := 10
  const INODESTART: nat := 100
  const INODES: nat := 1366
  /** The file that is written, one byte short of the end of its last direct block. */
  const FILE: nat := 50
  const SIZE: nat := 6143
  const CHUNK: nat := 1536

  /** Every block belongs to a file but the last of each 4096. */
  predicate Held(b: nat) {
    FIRST <= b < BLOCKS && b % 4096 != 4095
  }

  function Pointer(i: nat, s: nat): Word {
    if s < NDIRECT && Held(NDIRECT * i + s) then NDIRECT * i + s else 0
  }

  function Table(): (r: seq<Inode>)
    ensures |r| == INODES && WellShaped(r)
    ensures forall i: nat | i < INODES :: r[i].size == if i == FILE then SIZE else 0
    ensures forall i: nat, s: nat | i < INODES && s <= NDIRECT :: r[i].addrs[s] == Pointer(i, s)
  {
    seq(INODES, i requires 0 <= i < INODES => Inode(if i == FILE then SIZE else 0, Pointers(i)))
  }

  function Pointers(i: nat): (r: seq<Word>)
    ensures |r| == NDIRECT + 1 && forall s: nat | s <= NDIRECT :: r[s] == Pointer(i, s)
  {
    seq(NDIRECT + 1, s requires 0 <= s <= NDIRECT => Pointer(i, s))
  }

  function Bits(): (r: seq<bool>)
    ensures |r| == BLOCKS && forall b: nat | b < BLOCKS :: r[b] == (b % 4096 != 4095)
  {
    seq(BLOCKS, b => b % 4096 != 4095)
  }

  function Image(): (r: Disk)
    ensures |r| == BLOCKS && forall b: nat | b < BLOCKS :: r[b] == ZERO_BLOCK
  {
    seq(BLOCKS, b => ZERO_BLOCK)
  }

  function Owners(): (r: map<nat, Place>)
    ensures forall b: nat :: b in r <==> Held(b)
    ensures forall b: nat | b in r :: r[b] == Place(b / NDIRECT, b % NDIRECT)
  {
    map b: nat | b < BLOCKS && Held(b) :: Place(b / NDIRECT, b % NDIRECT)
  }

  lemma SlotIs(i: nat, t: nat)
    requires i < INODES && t < NSLOTS
    ensures Slot(Table()[i], Image(), t) == Pointer(i, t)
  {
    assert Table()[i].addrs[NDIRECT] == Pointer(i, NDIRECT);
    if t <= NDIRECT {
      assert Table()[i].addrs[t] == Pointer(i, t);
    }
  }

  lemma PlaceOf(i: nat, s: nat)
    requires s < NDIRECT
    ensures (NDIRECT * i + s) / NDIRECT == i && (NDIRECT * i + s) % NDIRECT == s
  {
  }

  lemma Sound()
    ensures Owned(Table(), Image(), Bits(), Owners(), FIRST)
    ensures forall i | 0 <= i < INODES :: Solid(Table()[i], Image())
  {
    hide Slot, Table, Bits, Image, Owners, SlotOk, OwnerOk, Solid;
    forall i: nat, t: nat | i < INODES && t < NSLOTS ensures SlotOk(Table(), Image(), Owners(), i, t) {
      SlotSound(i, t);
    }
    forall b: nat | b in Owners() ensures OwnerOk(Table(), Image(), Owners(), FIRST, b) {
      OwnerSound(b);
    }
    forall i: nat | i < INODES ensures Solid(Table()[i], Image()) {
      FileSound(i);
    }
  }

  lemma SlotSound(i: nat, t: nat)
    requires i < INODES && t < NSLOTS
    ensures SlotOk(Table(), Image(), Owners(), i, t)
  {
    hide Slot, Table, Image, Owners;
    SlotIs(i, t);
    if t < NDIRECT {
      PlaceOf(i, t);
    }
  }

  lemma OwnerSound(b: nat)
    requires b in Owners()
    ensures OwnerOk(Table(), Image(), Owners(), FIRST, b)
  {
    hide Slot, Table, Image, Owners;
    SlotIs(b / NDIRECT, b % NDIRECT);
  }

  lemma FileSound(i: nat)
    requires i < INODES
    ensures Solid(Table()[i], Image())
  {
    hide Slot, Table, Image;
    forall bn: nat | bn < MAXFILE && bn * BSIZE < Table()[i].size ensures Slot(Table()[i], Image(), SlotOf(bn)) != 0 {
      SlotIs(i, SlotOf(bn));
    }
  }

  lemma FourFree()
    ensures FreeSet(Bits()) == {4095, 8191, 12287, 16383} && FreeCount(Bits()) == 4
  {
    hide Bits;
    forall b: nat ensures b in FreeSet(Bits()) <==> b in {4095, 8191, 12287, 16383} {
    }
  }

  lemma FourNeeded()
    ensures BlocksEnd(SIZE, CHUNK) == 15 && SIZE / BSIZE == 11
    ensures NeedRange(Table()[FILE], Image(), 11, 15) == 4
  {
    hide Slot, Table, Image;
    SlotIs(FILE, 11);
    SlotIs(FILE, NDIRECT);
    SlotIs(FILE, 13);
    SlotIs(FILE, 14);
    SlotIs(FILE, 15);
    assert Table()[FILE].addrs[NDIRECT] == Pointer(FILE, NDIRECT);
    var ino := Table()[FILE];
    assert Unmapped(ino, Image(), 15, 15) == 0;
    assert Unmapped(ino, Image(), 14, 15) == 1;
    assert Unmapped(ino, Image(), 13, 15) == 2;
    assert Unmapped(ino, Image(), 12, 15) == 3;
    assert Unmapped(ino, Image(), 11, 15) == 3;
  }

  /** The file system at the edge of the bound. */
  ghost predicate AtEdge(fs: Fs)
    reads fs
  {
    && fs.Valid() && fs.store == Image() && fs.bitmap == Bits() && fs.inodes == Table()
    && fs.meta == FIRST && fs.bmapstart == BMAPSTART && fs.inodestart == INODESTART
  }

  /** There is such a file system. */
  method MountEdge() returns (fs: Fs)
    ensures fresh(fs) && AtEdge(fs)
  {
    hide Slot, Table, Image, Bits, Owners, Owned, Solid;
    Sound();
    fs := new Fs.Mount(BMAPSTART, INODESTART, FIRST, Image(), Bits(), Table(), Owners());
  }

  /** A chunk that logs all that begin_op reserves: four blocks of data, the indirect block, the inode, and four of the
      free map. */
  method ReachesBound(fs: Fs, src: seq<Byte>) returns (r: Outcome)
    requires AtEdge(fs) && |src| == CHUNK && forall k | 0 <= k < CHUNK :: src[k] != 0
    modifies fs
    ensures r == Count(CHUNK) && |fs.logged| == MAXOPBLOCKS
  {
    hide Slot, Table, Image, Bits, Owners, Owned, Solid, FreeCount, NeedRange, BlocksEnd, TookRange, Recorded, Bytes,
      Spliced, SameRest, WriteCost;
    FourFree();
    FourNeeded();
    r := fs.WriteChunk(FILE, SIZE, src);
    Shape(fs.inodes, fs.store, fs.bitmap, fs.owner, FIRST);
    BytesLength(Table()[FILE], Image());
    TenLogged(fs, src);
  }

  /** A block of the file that has a byte of the chunk has changed, and so is logged. */
  lemma DataLogged(inodes: seq<Inode>, store: Disk, bitmap: seq<bool>, owner: map<nat, Place>, logged: set<nat>,
                   src: seq<Byte>, s0: seq<Byte>, k: nat)
    requires Owned(inodes, store, bitmap, owner, FIRST) && |inodes| == INODES && |store| == BLOCKS
    requires |s0| == SIZE && |src| == CHUNK && SIZE <= k < SIZE + CHUNK && src[k - SIZE] != 0
    requires WellShaped(inodes) && Bytes(inodes[FILE], store) == Spliced(s0, SIZE, src)
    requires Slot(inodes[FILE], store, SlotOf(k / BSIZE)) != 0 && k / BSIZE < MAXFILE
    requires forall b: nat | b < BLOCKS && b !in logged :: store[b] == ZERO_BLOCK
    ensures FIRST <= Slot(inodes[FILE], store, SlotOf(k / BSIZE)) < BLOCKS
    ensures Slot(inodes[FILE], store, SlotOf(k / BSIZE)) in logged
  {
    hide Owned, Slot;
    Mapped(inodes, store, bitmap, owner, FIRST, FILE, k / BSIZE);
    BytesLength(inodes[FILE], store);
    var b := Slot(inodes[FILE], store, SlotOf(k / BSIZE));
    assert Bytes(inodes[FILE], store)[k] != 0;
    assert store[b][k % BSIZE] != 0;
    assert ZERO_BLOCK[k % BSIZE] == 0;
  }

  /** So has the indirect block, which had no entries. */
  lemma IndirectLogged(inodes: seq<Inode>, store: Disk, bitmap: seq<bool>, owner: map<nat, Place>, logged: set<nat>)
    requires Owned(inodes, store, bitmap, owner, FIRST) && |inodes| == INODES && |store| == BLOCKS
    requires WellShaped(inodes) && Slot(inodes[FILE], store, SlotOf(12)) != 0 && inodes[FILE].addrs[NDIRECT] != 0
    requires forall b: nat | b < BLOCKS && b !in logged :: store[b] == ZERO_BLOCK
    ensures FIRST <= inodes[FILE].addrs[NDIRECT] < BLOCKS && inodes[FILE].addrs[NDIRECT] in logged
  {
    hide Owned, Slot, GetWord;
    IndirectInRange(inodes, store, bitmap, owner, FIRST, FILE);
    EntryIsSlot(inodes[FILE], store, 0);
    ZeroBlockWords(0);
  }

  /** The blocks of the chunk's data and the indirect block are five blocks. */
  lemma FiveBlocks(inodes: seq<Inode>, store: Disk, bitmap: seq<bool>, owner: map<nat, Place>, s: nat, t: nat)
    requires Owned(inodes, store, bitmap, owner, FIRST) && |inodes| == INODES && WellShaped(inodes)
    requires s < NSLOTS && t < NSLOTS && s != t && Slot(inodes[FILE], store, s) != 0
    ensures Slot(inodes[FILE], store, s) != Slot(inodes[FILE], store, t)
  {
    if Slot(inodes[FILE], store, s) == Slot(inodes[FILE], store, t) {
      OnePath(inodes, store, bitmap, owner, FIRST, FILE, s, FILE, t);
    }
  }

  /** With no block left, each block of the free map has changed. */
  lemma BitmapLogged(bitmap: seq<bool>, logged: set<nat>)
    requires |bitmap| == BLOCKS && FreeCount(bitmap) == 0
    requires forall b: nat | b < BLOCKS && b / BPB + BMAPSTART !in logged :: bitmap[b] == Bits()[b]
    ensures {10, 11, 12, 13} <= logged
  {
    hide FreeCount, Bits;
    NoneFree(bitmap);
    forall b | b in {4095, 8191, 12287, 16383} ensures b / BPB + BMAPSTART in logged {
      assert bitmap[b] && !Bits()[b];
    }
    assert 4095 / BPB == 0 && 8191 / BPB == 1 && 12287 / BPB == 2 && 16383 / BPB == 3;
  }

  lemma Ten(logged: set<nat>, d1: nat, d2: nat, d3: nat, d4: nat, ind: nat)
    requires {10, 11, 12, 13, 106, d1, d2, d3, d4, ind} <= logged && |logged| <= MAXOPBLOCKS
    requires FIRST <= d1 && FIRST <= d2 && FIRST <= d3 && FIRST <= d4 && FIRST <= ind
    requires d1 != d2 && d1 != d3 && d1 != d4 && d2 != d3 && d2 != d4 && d3 != d4
    requires ind != d1 && ind != d2 && ind != d3 && ind != d4
    ensures |logged| == MAXOPBLOCKS
  {
    Cardinality({10, 11, 12, 13, 106, d1, d2, d3, d4, ind}, logged);
  }

  /** What the write has mapped. */
  lemma TookSlots(ino: Inode, store: Disk, free: nat, ino': Inode, store': Disk, free': nat)
    requires TookRange(ino, store, free, ino', store', free', 11, 15)
    ensures |ino'.addrs| == NDIRECT + 1 && ino'.addrs[NDIRECT] != 0 && free == free' + NeedRange(ino, store, 11, 15)
    ensures forall bn: nat | 11 <= bn < 15 :: Slot(ino', store', SlotOf(bn)) != 0
  {
  }

  lemma SplicedLength(s: seq<Byte>, src: seq<Byte>)
    requires |s| == SIZE && |src| == CHUNK
    ensures |Spliced(s, SIZE, src)| == SIZE + CHUNK
  {
  }

  lemma TenLogged(fs: Fs, src: seq<Byte>)
    requires fs.Valid() && fs.meta == FIRST && fs.bmapstart == BMAPSTART && fs.inodestart == INODESTART
    requires |fs.inodes| == INODES && WellShaped(fs.inodes) && |src| == CHUNK
    requires forall k | 0 <= k < CHUNK :: src[k] != 0
    requires |Bytes(Table()[FILE], Image())| == SIZE
    requires Bytes(fs.inodes[FILE], fs.store) == Spliced(Bytes(Table()[FILE], Image()), SIZE, src)
    requires Recorded(Image(), Bits(), {}, fs.store, fs.bitmap, fs.logged, BMAPSTART) && |fs.logged| <= MAXOPBLOCKS
    requires TookRange(Table()[FILE], Image(), 4, fs.inodes[FILE], fs.store, FreeCount(fs.bitmap), 11, 15)
    requires NeedRange(Table()[FILE], Image(), 11, 15) == 4
    requires fs.dinodes == Table() || (fs.dinodes == Table()[FILE := fs.inodes[FILE]] && fs.Iblock(FILE) in fs.logged)
    ensures |fs.logged| == MAXOPBLOCKS
  {
    hide Slot, Table, Image, Bits, Owned, Solid, FreeCount, NeedRange, TookRange, Bytes, Spliced;
    var inodes, store, bitmap, owner, logged := fs.inodes, fs.store, fs.bitmap, fs.owner, fs.logged;
    var s0 := Bytes(Table()[FILE], Image());
    TookSlots(Table()[FILE], Image(), 4, inodes[FILE], store, FreeCount(bitmap));
    BitmapLogged(bitmap, logged);
    DataLogged(inodes, store, bitmap, owner, logged, src, s0, 6143);
    DataLogged(inodes, store, bitmap, owner, logged, src, s0, 6144);
    DataLogged(inodes, store, bitmap, owner, logged, src, s0, 6656);
    DataLogged(inodes, store, bitmap, owner, logged, src, s0, 7168);
    IndirectLogged(inodes, store, bitmap, owner, logged);
    DirectSlot(inodes[FILE], store);
    forall s: nat, t: nat | s < t && s in {11, 12, 13, 14, 15} && t in {11, 12, 13, 14, 15}
      ensures Slot(inodes[FILE], store, s) != Slot(inodes[FILE], store, t)
    {
      assert Slot(inodes[FILE], store, SlotOf(11)) != 0 && Slot(inodes[FILE], store, SlotOf(12)) != 0
        && Slot(inodes[FILE], store, SlotOf(13)) != 0 && Slot(inodes[FILE], store, SlotOf(14)) != 0;
      FiveBlocks(inodes, store, bitmap, owner, s, t);
    }
    SplicedLength(s0, src);
    BytesLength(inodes[FILE], store);
    assert 106 in logged;
    Ten(logged, Slot(inodes[FILE], store, 11), Slot(inodes[FILE], store, 13), Slot(inodes[FILE], store, 14),
        Slot(inodes[FILE], store, 15), Slot(inodes[FILE], store, NDIRECT));
  }

  lemma DirectSlot(ino: Inode, store: Disk)
    requires |ino.addrs| == NDIRECT + 1
    ensures Slot(ino, store, NDIRECT) == ino.addrs[NDIRECT]
  {
  }
}
