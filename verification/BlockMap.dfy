/** The block map of inodes as a value (fs.c): which blocks each file reaches, through its direct pointers and its
    indirect block, what owns each block, and how the bytes of a file sit in its blocks. */
module BlockMap {
  import opened Blocks

  const NDIRECT: nat := 12
  const NINDIRECT: nat := 128
  const MAXFILE: nat := 140
  const NSLOTS: nat := 141

  /** The fields of an inode that the block map uses; the last of the addrs is the indirect block. */
  datatype Inode = Inode(size: nat, addrs: seq<Word>)

  /** Slot s of an inode: its direct blocks, then the indirect block, then the entries of the indirect block. */
  function Slot(ino: Inode, store: Disk, s: nat): Word
    requires |ino.addrs| == NDIRECT + 1 && s < NSLOTS
  {
    if s <= NDIRECT then ino.addrs[s]
    else if ino.addrs[NDIRECT] == 0 || ino.addrs[NDIRECT] >= |store| then 0
    else GetWord(store[ino.addrs[NDIRECT]], s - NDIRECT - 1)
  }

  /** The slot of the bn-th block of a file. */
  function SlotOf(bn: nat): nat {
    if bn < NDIRECT then bn else bn + 1
  }

  /** The data that a pointer leads to; a block that is not there reads as zeroes. */
  function DataAt(store: Disk, b: nat): Block {
    if 0 < b < |store| then store[b] else ZERO_BLOCK
  }

  datatype Place = Place(inum: nat, slot: nat)

  ghost predicate WellShaped(inodes: seq<Inode>) {
    forall i | 0 <= i < |inodes| :: |inodes[i].addrs| == NDIRECT + 1 && inodes[i].size <= MAXFILE * BSIZE
  }

  /** What slot s of inode i points to is registered as owned by it, and only by it. */
  ghost predicate SlotOk(inodes: seq<Inode>, store: Disk, owner: map<nat, Place>, i: nat, s: nat)
    requires WellShaped(inodes)
  {
    && i < |inodes| && s < NSLOTS
    && (Slot(inodes[i], store, s) != 0 ==>
          && Slot(inodes[i], store, s) in owner
          && owner[Slot(inodes[i], store, s)] == Place(i, s))
  }

  /** A registered block is in the data area and is where it says. */
  ghost predicate OwnerOk(inodes: seq<Inode>, store: Disk, owner: map<nat, Place>, meta: nat, b: nat)
    requires WellShaped(inodes) && b in owner
  {
    && meta <= b < |store|
    && owner[b].inum < |inodes| && owner[b].slot < NSLOTS
    && Slot(inodes[owner[b].inum], store, owner[b].slot) == b
  }

  /** Each block is reachable by at most one path, and the free map marks exactly the metadata and the reachable
      blocks. */
  ghost predicate Owned(inodes: seq<Inode>, store: Disk, bitmap: seq<bool>, owner: map<nat, Place>, meta: nat) {
    && WellShaped(inodes)
    && 0 < meta <= |store| == |bitmap| < 0x1_0000_0000
    && (forall i: nat, s: nat | i < |inodes| && s < NSLOTS :: SlotOk(inodes, store, owner, i, s))
    && (forall b | b in owner :: OwnerOk(inodes, store, owner, meta, b))
    && (forall b: nat | b < |bitmap| :: bitmap[b] <==> b < meta || b in owner)
  }

  /** Every block of a file below byte n is there. */
  ghost predicate NoHoles(ino: Inode, store: Disk, n: nat)
    requires |ino.addrs| == NDIRECT + 1
  {
    forall bn: nat | bn < MAXFILE && bn * BSIZE < n :: Slot(ino, store, SlotOf(bn)) != 0
  }

  ghost predicate Solid(ino: Inode, store: Disk) {
    |ino.addrs| == NDIRECT + 1 && NoHoles(ino, store, ino.size)
  }

  /** Pointers that were there still are, and the data that each slot leads to is the same. */
  ghost predicate Kept(inodes: seq<Inode>, store: Disk, inodes': seq<Inode>, store': Disk) {
    && WellShaped(inodes) && WellShaped(inodes')
    && |inodes| == |inodes'| && |store| == |store'|
    && (forall j | 0 <= j < |inodes| :: inodes'[j].size == inodes[j].size)
    && (forall j: nat, t: nat | j < |inodes| && t < NSLOTS :: SlotKept(inodes, store, inodes', store', j, t))
  }

  ghost predicate SlotKept(inodes: seq<Inode>, store: Disk, inodes': seq<Inode>, store': Disk, j: nat, t: nat)
    requires WellShaped(inodes) && WellShaped(inodes')
    requires j < |inodes| == |inodes'| && t < NSLOTS && |store| == |store'|
  {
    && (Slot(inodes[j], store, t) != 0 ==> Slot(inodes'[j], store', t) == Slot(inodes[j], store, t))
    && (t != NDIRECT ==> DataAt(store', Slot(inodes'[j], store', t)) == DataAt(store, Slot(inodes[j], store, t)))
  }

  /** No slot but s of an inode has changed. */
  ghost predicate SlotsBut(ino: Inode, store: Disk, ino': Inode, store': Disk, s: nat) {
    && |ino.addrs| == |ino'.addrs| == NDIRECT + 1
    && forall t: nat | t < NSLOTS && t != s :: Slot(ino', store', t) == Slot(ino, store, t)
  }

  lemma Shape(inodes: seq<Inode>, store: Disk, bitmap: seq<bool>, owner: map<nat, Place>, meta: nat)
    requires Owned(inodes, store, bitmap, owner, meta)
    ensures WellShaped(inodes) && 0 < meta <= |store| == |bitmap|
  {
  }

  lemma NoIndirect(ino: Inode, store: Disk, e: nat)
    requires |ino.addrs| == NDIRECT + 1 && e < NINDIRECT
    ensures ino.addrs[NDIRECT] == 0 ==> Slot(ino, store, NDIRECT + 1 + e) == 0
  {
  }

  lemma EntryIsSlot(ino: Inode, store: Disk, e: nat)
    requires |ino.addrs| == NDIRECT + 1 && e < NINDIRECT && 0 < ino.addrs[NDIRECT] < |store|
    ensures Slot(ino, store, NDIRECT + 1 + e) == GetWord(store[ino.addrs[NDIRECT]], e)
  {
  }

  lemma FreshIndirect(ino: Inode, store: Disk, e: nat)
    requires |ino.addrs| == NDIRECT + 1 && e < NINDIRECT
    requires ino.addrs[NDIRECT] < |store| && store[ino.addrs[NDIRECT]] == ZERO_BLOCK
    ensures Slot(ino, store, NDIRECT + 1 + e) == 0
  {
    ZeroBlockWords(e);
  }

  lemma KeptSelf(inodes: seq<Inode>, store: Disk)
    requires WellShaped(inodes)
    ensures Kept(inodes, store, inodes, store)
  {
  }

  lemma KeptTrans(i0: seq<Inode>, s0: Disk, i1: seq<Inode>, s1: Disk, i2: seq<Inode>, s2: Disk)
    requires Kept(i0, s0, i1, s1) && Kept(i1, s1, i2, s2)
    ensures Kept(i0, s0, i2, s2)
  {
    forall j: nat, t: nat | j < |i0| && t < NSLOTS ensures SlotKept(i0, s0, i2, s2, j, t) {
      assert SlotKept(i0, s0, i1, s1, j, t) && SlotKept(i1, s1, i2, s2, j, t);
    }
  }

  lemma IndirectInRange(inodes: seq<Inode>, store: Disk, bitmap: seq<bool>, owner: map<nat, Place>, meta: nat, i: nat)
    requires Owned(inodes, store, bitmap, owner, meta) && i < |inodes|
    ensures var ind := inodes[i].addrs[NDIRECT];
            && (ind != 0 ==> meta <= ind < |store| && ind in owner && owner[ind] == Place(i, NDIRECT))
  {
    assert SlotOk(inodes, store, owner, i, NDIRECT);
    assert inodes[i].addrs[NDIRECT] in owner ==> OwnerOk(inodes, store, owner, meta, inodes[i].addrs[NDIRECT]);
  }

  /** A slot's value when some inode and some store block change. */
  lemma SlotSame(ino: Inode, store: Disk, store': Disk, t: nat)
    requires |ino.addrs| == NDIRECT + 1 && t < NSLOTS && |store| == |store'|
    requires ino.addrs[NDIRECT] < |store| ==> store'[ino.addrs[NDIRECT]] == store[ino.addrs[NDIRECT]]
    ensures Slot(ino, store', t) == Slot(ino, store, t)
  {
  }

  lemma PointerOwned(inodes: seq<Inode>, store: Disk, bitmap: seq<bool>, owner: map<nat, Place>, meta: nat, i: nat,
                     s: nat, b: Word)
    requires Owned(inodes, store, bitmap, owner, meta) && i < |inodes| && s <= NDIRECT && inodes[i].addrs[s] == 0
    requires b < |bitmap| && !bitmap[b] && b != 0
    ensures b !in owner
    ensures var inodes' := inodes[i := Inode(inodes[i].size, inodes[i].addrs[s := b])];
            var store' := store[b := ZERO_BLOCK];
            && Owned(inodes', store', bitmap[b := true], owner[b := Place(i, s)], meta)
            && Kept(inodes, store, inodes', store') && SlotsBut(inodes[i], store, inodes'[i], store', s)
  {
    hide SlotOk, OwnerOk, SlotKept;
    var inodes' := inodes[i := Inode(inodes[i].size, inodes[i].addrs[s := b])];
    var store', owner' := store[b := ZERO_BLOCK], owner[b := Place(i, s)];
    forall j: nat, t: nat | j < |inodes'| && t < NSLOTS
      ensures SlotOk(inodes', store', owner', j, t) && SlotKept(inodes, store, inodes', store', j, t)
    {
      PointerSlot(inodes, store, bitmap, owner, meta, i, s, b, j, t);
    }
    forall t: nat | t < NSLOTS && t != s ensures Slot(inodes'[i], store', t) == Slot(inodes[i], store, t) {
      PointerSlot(inodes, store, bitmap, owner, meta, i, s, b, i, t);
    }
    forall c | c in owner' ensures OwnerOk(inodes', store', owner', meta, c) {
      PointerOwner(inodes, store, bitmap, owner, meta, i, s, b, c);
    }
  }

  lemma PointerSlot(inodes: seq<Inode>, store: Disk, bitmap: seq<bool>, owner: map<nat, Place>, meta: nat, i: nat,
                    s: nat, b: Word, j: nat, t: nat)
    requires Owned(inodes, store, bitmap, owner, meta) && i < |inodes| && s <= NDIRECT && inodes[i].addrs[s] == 0
    requires b < |bitmap| && !bitmap[b] && b != 0 && j < |inodes| && t < NSLOTS
    ensures var inodes' := inodes[i := Inode(inodes[i].size, inodes[i].addrs[s := b])];
            var store' := store[b := ZERO_BLOCK];
            && Slot(inodes'[j], store', t) == (if j == i && t == s then b else Slot(inodes[j], store, t))
            && SlotOk(inodes', store', owner[b := Place(i, s)], j, t)
            && SlotKept(inodes, store, inodes', store', j, t)
  {
    var store' := store[b := ZERO_BLOCK];
    IndirectInRange(inodes, store, bitmap, owner, meta, j);
    assert SlotOk(inodes, store, owner, j, t);
    var ino := if j == i then Inode(inodes[i].size, inodes[i].addrs[s := b]) else inodes[j];
    if j == i && s == NDIRECT {
      if t > NDIRECT { ZeroBlockWords(t - NDIRECT - 1); }
    } else {
      SlotSame(ino, store, store', t);
    }
    hide Owned;
  }

  lemma PointerOwner(inodes: seq<Inode>, store: Disk, bitmap: seq<bool>, owner: map<nat, Place>, meta: nat, i: nat,
                     s: nat, b: Word, c: nat)
    requires Owned(inodes, store, bitmap, owner, meta) && i < |inodes| && s <= NDIRECT && inodes[i].addrs[s] == 0
    requires b < |bitmap| && !bitmap[b] && b != 0 && c in owner[b := Place(i, s)]
    ensures OwnerOk(inodes[i := Inode(inodes[i].size, inodes[i].addrs[s := b])], store[b := ZERO_BLOCK],
                    owner[b := Place(i, s)], meta, c)
  {
    hide SlotOk, SlotKept;
    if c == b {
      PointerSlot(inodes, store, bitmap, owner, meta, i, s, b, i, s);
    } else {
      assert OwnerOk(inodes, store, owner, meta, c);
      PointerSlot(inodes, store, bitmap, owner, meta, i, s, b, owner[c].inum, owner[c].slot);
    }
  }

  lemma EntryOwned(inodes: seq<Inode>, store: Disk, bitmap: seq<bool>, owner: map<nat, Place>, meta: nat, i: nat,
                   e: nat, b: Word)
    requires Owned(inodes, store, bitmap, owner, meta) && i < |inodes| && e < NINDIRECT
    requires inodes[i].addrs[NDIRECT] != 0 && Slot(inodes[i], store, NDIRECT + 1 + e) == 0
    requires b < |bitmap| && !bitmap[b] && b != 0
    ensures b !in owner && inodes[i].addrs[NDIRECT] < |store| && inodes[i].addrs[NDIRECT] != b
    ensures var ind := inodes[i].addrs[NDIRECT];
            var store' := store[b := ZERO_BLOCK][ind := PutWord(store[ind], e, b)];
            && Owned(inodes, store', bitmap[b := true], owner[b := Place(i, NDIRECT + 1 + e)], meta)
            && Kept(inodes, store, inodes, store') && SlotsBut(inodes[i], store, inodes[i], store', NDIRECT + 1 + e)
            && Slot(inodes[i], store', NDIRECT + 1 + e) == b
  {
    hide SlotOk, OwnerOk, SlotKept;
    IndirectInRange(inodes, store, bitmap, owner, meta, i);
    var ind := inodes[i].addrs[NDIRECT];
    var store', owner' := store[b := ZERO_BLOCK][ind := PutWord(store[ind], e, b)],
        owner[b := Place(i, NDIRECT + 1 + e)];
    forall j: nat, t: nat | j < |inodes| && t < NSLOTS
      ensures SlotOk(inodes, store', owner', j, t) && SlotKept(inodes, store, inodes, store', j, t)
    {
      EntrySlot(inodes, store, bitmap, owner, meta, i, e, b, j, t);
    }
    EntrySlot(inodes, store, bitmap, owner, meta, i, e, b, i, NDIRECT + 1 + e);
    forall t: nat | t < NSLOTS && t != NDIRECT + 1 + e ensures Slot(inodes[i], store', t) == Slot(inodes[i], store, t) {
      EntrySlot(inodes, store, bitmap, owner, meta, i, e, b, i, t);
    }
    forall c | c in owner' ensures OwnerOk(inodes, store', owner', meta, c) {
      EntryOwner(inodes, store, bitmap, owner, meta, i, e, b, c);
    }
  }

  lemma EntrySlot(inodes: seq<Inode>, store: Disk, bitmap: seq<bool>, owner: map<nat, Place>, meta: nat, i: nat, e: nat,
                  b: Word, j: nat, t: nat)
    requires Owned(inodes, store, bitmap, owner, meta) && i < |inodes| && e < NINDIRECT
    requires inodes[i].addrs[NDIRECT] != 0 && Slot(inodes[i], store, NDIRECT + 1 + e) == 0
    requires b < |bitmap| && !bitmap[b] && b != 0 && j < |inodes| && t < NSLOTS
    ensures inodes[i].addrs[NDIRECT] < |store|
    ensures var ind := inodes[i].addrs[NDIRECT];
            var store' := store[b := ZERO_BLOCK][ind := PutWord(store[ind], e, b)];
            && Slot(inodes[j], store', t) == (if j == i && t == NDIRECT + 1 + e then b else Slot(inodes[j], store, t))
            && SlotOk(inodes, store', owner[b := Place(i, NDIRECT + 1 + e)], j, t)
            && SlotKept(inodes, store, inodes, store', j, t)
  {
    IndirectInRange(inodes, store, bitmap, owner, meta, i);
    IndirectInRange(inodes, store, bitmap, owner, meta, j);
    var ind := inodes[i].addrs[NDIRECT];
    var store' := store[b := ZERO_BLOCK][ind := PutWord(store[ind], e, b)];
    assert SlotOk(inodes, store, owner, j, t);
    if j != i {
      SlotSame(inodes[j], store, store', t);
    }
    hide Owned;
  }

  lemma EntryOwner(inodes: seq<Inode>, store: Disk, bitmap: seq<bool>, owner: map<nat, Place>, meta: nat, i: nat,
                   e: nat, b: Word, c: nat)
    requires Owned(inodes, store, bitmap, owner, meta) && i < |inodes| && e < NINDIRECT
    requires inodes[i].addrs[NDIRECT] != 0 && Slot(inodes[i], store, NDIRECT + 1 + e) == 0
    requires b < |bitmap| && !bitmap[b] && b != 0 && c in owner[b := Place(i, NDIRECT + 1 + e)]
    ensures inodes[i].addrs[NDIRECT] < |store|
    ensures var ind := inodes[i].addrs[NDIRECT];
            OwnerOk(inodes, store[b := ZERO_BLOCK][ind := PutWord(store[ind], e, b)],
                    owner[b := Place(i, NDIRECT + 1 + e)], meta, c)
  {
    hide SlotOk, SlotKept;
    if c == b {
      EntrySlot(inodes, store, bitmap, owner, meta, i, e, b, i, NDIRECT + 1 + e);
    } else {
      assert OwnerOk(inodes, store, owner, meta, c);
      EntrySlot(inodes, store, bitmap, owner, meta, i, e, b, owner[c].inum, owner[c].slot);
    }
  }

  // ---------- The bytes of a file

  /** Block bn of a file. */
  function BlockOf(ino: Inode, store: Disk, bn: nat): Block
    requires |ino.addrs| == NDIRECT + 1 && bn < MAXFILE
  {
    DataAt(store, Slot(ino, store, SlotOf(bn)))
  }

  function ByteAt(ino: Inode, store: Disk, k: nat): Byte
    requires |ino.addrs| == NDIRECT + 1 && k < MAXFILE * BSIZE
  {
    BlockOf(ino, store, k / BSIZE)[k % BSIZE]
  }

  /** The contents of a file. */
  function Bytes(ino: Inode, store: Disk): seq<Byte>
    requires |ino.addrs| == NDIRECT + 1 && ino.size <= MAXFILE * BSIZE
  {
    seq(ino.size, k requires 0 <= k < ino.size => ByteAt(ino, store, k))
  }

  /** A byte string after src is written over it at off. */
  function Spliced(s: seq<Byte>, off: nat, src: seq<Byte>): seq<Byte>
    requires off <= |s|
  {
    s[..off] + src + (if off + |src| < |s| then s[off + |src|..] else [])
  }

  /** A block after chunk is copied into it at lo. */
  function Patched(b: Block, lo: nat, chunk: seq<Byte>): Block
    requires lo + |chunk| <= BSIZE
  {
    b[..lo] + chunk + b[lo + |chunk|..]
  }

  ghost predicate SameBlock(ino: Inode, store: Disk, ino': Inode, store': Disk, bn: nat)
    requires |ino.addrs| == |ino'.addrs| == NDIRECT + 1 && bn < MAXFILE
  {
    && BlockOf(ino', store', bn) == BlockOf(ino, store, bn)
    && (Slot(ino, store, SlotOf(bn)) != 0 ==> Slot(ino', store', SlotOf(bn)) != 0)
  }

  /** A file that reads as before, with no block lost. */
  ghost predicate SameFile(ino: Inode, store: Disk, ino': Inode, store': Disk) {
    && |ino.addrs| == |ino'.addrs| == NDIRECT + 1
    && ino'.size == ino.size
    && forall bn: nat | bn < MAXFILE :: SameBlock(ino, store, ino', store', bn)
  }

  /** A file of which block k now holds blk, with no other change to what it reads as. */
  ghost predicate PutFile(ino: Inode, store: Disk, ino': Inode, store': Disk, k: nat, blk: Block) {
    && |ino.addrs| == |ino'.addrs| == NDIRECT + 1
    && k < MAXFILE
    && ino'.size == ino.size
    && (forall bn: nat | bn < MAXFILE && bn != k :: SameBlock(ino, store, ino', store', bn))
    && BlockOf(ino', store', k) == blk && Slot(ino', store', SlotOf(k)) != 0
  }

  ghost predicate OthersSame(inodes: seq<Inode>, store: Disk, inodes': seq<Inode>, store': Disk, i: nat) {
    && |inodes| == |inodes'|
    && forall j: nat | j < |inodes| && j != i ::
         inodes'[j] == inodes[j] && SameFile(inodes[j], store, inodes[j], store')
  }

  lemma OthersSelf(inodes: seq<Inode>, store: Disk, i: nat)
    requires WellShaped(inodes)
    ensures OthersSame(inodes, store, inodes, store, i)
  {
  }

  lemma OthersTrans(i0: seq<Inode>, s0: Disk, i1: seq<Inode>, s1: Disk, i2: seq<Inode>, s2: Disk, i: nat)
    requires OthersSame(i0, s0, i1, s1, i) && OthersSame(i1, s1, i2, s2, i)
    ensures OthersSame(i0, s0, i2, s2, i)
  {
    hide SameFile;
    forall j: nat | j < |i0| && j != i ensures SameFile(i0[j], s0, i0[j], s2) {
      assert i1[j] == i0[j];
      assert SameFile(i0[j], s0, i0[j], s1) && SameFile(i0[j], s1, i0[j], s2);
      SameFileTrans(i0[j], s0, i0[j], s1, i0[j], s2);
    }
  }

  lemma SameFileTrans(a: Inode, s0: Disk, b: Inode, s1: Disk, c: Inode, s2: Disk)
    requires SameFile(a, s0, b, s1) && SameFile(b, s1, c, s2)
    ensures SameFile(a, s0, c, s2)
  {
    hide BlockOf, Slot, SlotOf;
    forall bn: nat | bn < MAXFILE ensures SameBlock(a, s0, c, s2, bn) {
      assert SameBlock(a, s0, b, s1, bn) && SameBlock(b, s1, c, s2, bn);
    }
  }

  lemma SameFileBytes(ino: Inode, store: Disk, ino': Inode, store': Disk)
    requires SameFile(ino, store, ino', store') && ino.size <= MAXFILE * BSIZE
    ensures Bytes(ino', store') == Bytes(ino, store)
    ensures Solid(ino, store) ==> Solid(ino', store')
  {
    hide BlockOf, Slot;
    forall k: nat | k < ino.size ensures ByteAt(ino', store', k) == ByteAt(ino, store, k) {
      assert SameBlock(ino, store, ino', store', k / BSIZE);
    }
    if Solid(ino, store) {
      forall bn: nat | bn < MAXFILE && bn * BSIZE < ino.size ensures Slot(ino', store', SlotOf(bn)) != 0 {
        assert SameBlock(ino, store, ino', store', bn);
      }
    }
  }

  /** Mapping blocks does not change what any file reads as. */
  lemma KeptFile(inodes: seq<Inode>, store: Disk, inodes': seq<Inode>, store': Disk, j: nat)
    requires Kept(inodes, store, inodes', store') && j < |inodes|
    ensures SameFile(inodes[j], store, inodes'[j], store')
  {
    hide Slot, DataAt;
    forall bn: nat | bn < MAXFILE ensures SameBlock(inodes[j], store, inodes'[j], store', bn) {
      assert SlotKept(inodes, store, inodes', store', j, SlotOf(bn));
    }
  }

  lemma KeptOthers(inodes: seq<Inode>, store: Disk, inodes': seq<Inode>, store': Disk, i: nat)
    requires Kept(inodes, store, inodes', store') && i < |inodes| && inodes' == inodes[i := inodes'[i]]
    ensures OthersSame(inodes, store, inodes', store', i) && |store'| == |store|
    ensures inodes[i].addrs[NDIRECT] != 0 ==> inodes'[i].addrs[NDIRECT] == inodes[i].addrs[NDIRECT]
  {
    hide SlotKept, SameFile;
    forall j: nat | j < |inodes| && j != i ensures SameFile(inodes[j], store, inodes'[j], store') {
      KeptFile(inodes, store, inodes', store', j);
    }
    IndirectKept(inodes, store, inodes', store', i);
  }

  lemma IndirectKept(inodes: seq<Inode>, store: Disk, inodes': seq<Inode>, store': Disk, i: nat)
    requires Kept(inodes, store, inodes', store') && i < |inodes|
    ensures inodes[i].addrs[NDIRECT] != 0 ==> inodes'[i].addrs[NDIRECT] == inodes[i].addrs[NDIRECT]
  {
    assert SlotKept(inodes, store, inodes', store', i, NDIRECT);
  }

  lemma PutTrans(a: Inode, s0: Disk, b: Inode, s1: Disk, c: Inode, s2: Disk, k: nat, blk: Block)
    requires SameFile(a, s0, b, s1) && PutFile(b, s1, c, s2, k, blk)
    ensures PutFile(a, s0, c, s2, k, blk)
    ensures BlockOf(b, s1, k) == BlockOf(a, s0, k)
  {
    hide BlockOf, Slot, SlotOf;
    forall bn: nat | bn < MAXFILE && bn != k ensures SameBlock(a, s0, c, s2, bn) {
      assert SameBlock(a, s0, b, s1, bn) && SameBlock(b, s1, c, s2, bn);
    }
    assert SameBlock(a, s0, b, s1, k);
  }

  /** A mapped block of a file is in the data area. */
  lemma Mapped(inodes: seq<Inode>, store: Disk, bitmap: seq<bool>, owner: map<nat, Place>, meta: nat, i: nat, bn: nat)
    requires Owned(inodes, store, bitmap, owner, meta) && i < |inodes| && bn < MAXFILE
    requires Slot(inodes[i], store, SlotOf(bn)) != 0
    ensures 0 < meta <= Slot(inodes[i], store, SlotOf(bn)) < |store|
    ensures BlockOf(inodes[i], store, bn) == store[Slot(inodes[i], store, SlotOf(bn))]
  {
    assert SlotOk(inodes, store, owner, i, SlotOf(bn));
    assert OwnerOk(inodes, store, owner, meta, Slot(inodes[i], store, SlotOf(bn)));
  }

  lemma WrittenSlot(inodes: seq<Inode>, store: Disk, bitmap: seq<bool>, owner: map<nat, Place>, meta: nat, i: nat,
                    s: nat, blk: Block, j: nat, t: nat)
    requires Owned(inodes, store, bitmap, owner, meta) && i < |inodes| && s < NSLOTS && s != NDIRECT
    requires Slot(inodes[i], store, s) != 0 && j < |inodes| && t < NSLOTS
    ensures Slot(inodes[i], store, s) < |store|
    ensures var store' := store[Slot(inodes[i], store, s) := blk];
            && Slot(inodes[j], store', t) == Slot(inodes[j], store, t)
            && SlotOk(inodes, store', owner, j, t)
            && (t != NDIRECT ==>
                  DataAt(store', Slot(inodes[j], store, t))
                  == if j == i && t == s then blk else DataAt(store, Slot(inodes[j], store, t)))
  {
    assert SlotOk(inodes, store, owner, i, s) && SlotOk(inodes, store, owner, j, t);
    var b := Slot(inodes[i], store, s);
    assert OwnerOk(inodes, store, owner, meta, b);
    IndirectInRange(inodes, store, bitmap, owner, meta, j);
    SlotSame(inodes[j], store, store[b := blk], t);
  }

  /** Writing a data block of a file leaves the block map as it is, and changes just that block of just that file. */
  lemma WrittenOwned(inodes: seq<Inode>, store: Disk, bitmap: seq<bool>, owner: map<nat, Place>, meta: nat, i: nat,
                     bn: nat, blk: Block)
    requires Owned(inodes, store, bitmap, owner, meta) && i < |inodes| && bn < MAXFILE
    requires Slot(inodes[i], store, SlotOf(bn)) != 0
    ensures Slot(inodes[i], store, SlotOf(bn)) < |store|
    ensures var store' := store[Slot(inodes[i], store, SlotOf(bn)) := blk];
            && Owned(inodes, store', bitmap, owner, meta)
            && OthersSame(inodes, store, inodes, store', i)
            && PutFile(inodes[i], store, inodes[i], store', bn, blk)
            && forall c: nat | c < MAXFILE :: Slot(inodes[i], store', SlotOf(c)) == Slot(inodes[i], store, SlotOf(c))
  {
    hide SlotOk, OwnerOk, Slot, DataAt;
    var s := SlotOf(bn);
    WrittenSlot(inodes, store, bitmap, owner, meta, i, s, blk, i, s);
    var store' := store[Slot(inodes[i], store, s) := blk];
    forall j: nat, t: nat | j < |inodes| && t < NSLOTS
      ensures SlotOk(inodes, store', owner, j, t) && Slot(inodes[j], store', t) == Slot(inodes[j], store, t)
    {
      WrittenSlot(inodes, store, bitmap, owner, meta, i, s, blk, j, t);
    }
    forall c | c in owner ensures OwnerOk(inodes, store', owner, meta, c) {
      assert OwnerOk(inodes, store, owner, meta, c);
      OwnerStays(inodes, store, store', owner, meta, c);
    }
    forall j: nat, b: nat | j < |inodes| && b < MAXFILE && !(j == i && b == bn)
      ensures SameBlock(inodes[j], store, inodes[j], store', b)
    {
      WrittenSlot(inodes, store, bitmap, owner, meta, i, s, blk, j, SlotOf(b));
    }
  }

  lemma OwnerStays(inodes: seq<Inode>, store: Disk, store': Disk, owner: map<nat, Place>, meta: nat, c: nat)
    requires WellShaped(inodes) && c in owner && OwnerOk(inodes, store, owner, meta, c) && |store'| == |store|
    requires forall j: nat, t: nat | j < |inodes| && t < NSLOTS ::
              Slot(inodes[j], store', t) == Slot(inodes[j], store, t)
    ensures OwnerOk(inodes, store', owner, meta, c)
  {
  }

  /** The part of a write that is done: outside what is left, bytes pos to end, the file reads as the result w. */
  ghost predicate WrittenUpTo(ino: Inode, store: Disk, w: seq<Byte>, pos: nat, end: nat) {
    && |ino.addrs| == NDIRECT + 1
    && |w| <= MAXFILE * BSIZE
    && forall k: nat | k < |w| && !(pos <= k < end) :: ByteAt(ino, store, k) == w[k]
  }

  /** Before a write, the file reads as the result outside the bytes to be written. */
  lemma WriteBegin(ino: Inode, store: Disk, off: nat, src: seq<Byte>)
    requires |ino.addrs| == NDIRECT + 1 && off <= ino.size <= MAXFILE * BSIZE && off + |src| <= MAXFILE * BSIZE
    ensures var w := Spliced(Bytes(ino, store), off, src);
            && off + |src| <= |w| <= MAXFILE * BSIZE && w[off..off + |src|] == src
            && |w| == (if off + |src| > ino.size then off + |src| else ino.size)
            && WrittenUpTo(ino, store, w, off, off + |src|)
  {
    hide BlockOf, Slot;
    var c := Bytes(ino, store);
    var w := Spliced(c, off, src);
    assert w[off..off + |src|] == src;
    forall k: nat | k < |w| && !(off <= k < off + |src|) ensures ByteAt(ino, store, k) == w[k] {
      assert c[k] == ByteAt(ino, store, k);
    }
  }

  /** After it, the file reads as the result once its size is right. */
  lemma WriteEnd(ino: Inode, store: Disk, w: seq<Byte>, pos: nat)
    requires WrittenUpTo(ino, store, w, pos, pos)
    ensures Bytes(Inode(|w|, ino.addrs), store) == w
  {
    hide BlockOf, Slot;
    var ino' := Inode(|w|, ino.addrs);
    forall k: nat | k < |w| ensures ByteAt(ino', store, k) == w[k] {
      ResizedBlock(ino, store, |w|, k / BSIZE);
    }
  }

  /** What a write achieves, once the size is right: this file reads as the result, the others as before, and none has
      holes. */
  lemma WriteResult(inodes0: seq<Inode>, store0: Disk, inodes: seq<Inode>, store: Disk, i: nat, w: seq<Byte>, end: nat)
    requires WellShaped(inodes0) && i < |inodes0| == |inodes| && |w| <= MAXFILE * BSIZE
    requires OthersSame(inodes0, store0, inodes, store, i)
    requires forall j | 0 <= j < |inodes0| :: Solid(inodes0[j], store0)
    requires |inodes[i].addrs| == NDIRECT + 1 && WrittenUpTo(inodes[i], store, w, end, end)
    requires NoHoles(inodes[i], store, |w|)
    ensures var inodes' := inodes[i := Inode(|w|, inodes[i].addrs)];
            && WellShaped(inodes') && (forall j | 0 <= j < |inodes'| :: Solid(inodes'[j], store))
            && Bytes(inodes'[i], store) == w
            && SameRest(inodes0, store0, inodes', store, i)
  {
    hide Slot, Bytes, Solid, NoHoles, WrittenUpTo, SameFile;
    var inodes' := inodes[i := Inode(|w|, inodes[i].addrs)];
    ResizedSolid(inodes[i], store, |w|);
    WriteEnd(inodes[i], store, w, end);
    forall j: nat | j < |inodes'| && j != i
      ensures Solid(inodes'[j], store) && Bytes(inodes'[j], store) == Bytes(inodes0[j], store0)
    {
      SameFileBytes(inodes0[j], store0, inodes'[j], store);
    }
  }

  lemma ResizedSolid(ino: Inode, store: Disk, n: nat)
    requires |ino.addrs| == NDIRECT + 1 && NoHoles(ino, store, n)
    ensures Solid(Inode(n, ino.addrs), store)
  {
  }

  lemma ResizedOwned(inodes: seq<Inode>, store: Disk, bitmap: seq<bool>, owner: map<nat, Place>, meta: nat, i: nat,
                     n: nat)
    requires Owned(inodes, store, bitmap, owner, meta) && i < |inodes| && n <= MAXFILE * BSIZE
    ensures Owned(inodes[i := Inode(n, inodes[i].addrs)], store, bitmap, owner, meta)
  {
    hide SlotOk, OwnerOk;
    var inodes' := inodes[i := Inode(n, inodes[i].addrs)];
    forall j: nat, t: nat | j < |inodes| && t < NSLOTS ensures SlotOk(inodes', store, owner, j, t) {
      assert SlotOk(inodes, store, owner, j, t);
      ResizedSlot(inodes, store, owner, meta, i, n, j, t);
    }
    forall c | c in owner ensures OwnerOk(inodes', store, owner, meta, c) {
      assert OwnerOk(inodes, store, owner, meta, c);
      ResizedOwner(inodes, store, owner, meta, i, n, c);
    }
  }

  lemma ResizedSlot(inodes: seq<Inode>, store: Disk, owner: map<nat, Place>, meta: nat, i: nat, n: nat, j: nat, t: nat)
    requires WellShaped(inodes) && i < |inodes| && n <= MAXFILE * BSIZE && SlotOk(inodes, store, owner, j, t)
    ensures SlotOk(inodes[i := Inode(n, inodes[i].addrs)], store, owner, j, t)
  {
  }

  lemma ResizedOwner(inodes: seq<Inode>, store: Disk, owner: map<nat, Place>, meta: nat, i: nat, n: nat, c: nat)
    requires WellShaped(inodes) && i < |inodes| && n <= MAXFILE * BSIZE && c in owner
    requires OwnerOk(inodes, store, owner, meta, c)
    ensures OwnerOk(inodes[i := Inode(n, inodes[i].addrs)], store, owner, meta, c)
  {
  }

  lemma BytesLength(ino: Inode, store: Disk)
    requires |ino.addrs| == NDIRECT + 1 && ino.size <= MAXFILE * BSIZE
    ensures |Bytes(ino, store)| == ino.size
    ensures Solid(ino, store) ==> NoHoles(ino, store, ino.size)
  {
  }

  lemma ResizedBlock(ino: Inode, store: Disk, n: nat, bn: nat)
    requires |ino.addrs| == NDIRECT + 1 && bn < MAXFILE
    ensures Slot(Inode(n, ino.addrs), store, SlotOf(bn)) == Slot(ino, store, SlotOf(bn))
    ensures BlockOf(Inode(n, ino.addrs), store, bn) == BlockOf(ino, store, bn)
  {
  }

  /** Part of one block of a file. */
  lemma ReadStep(ino: Inode, store: Disk, pos: nat, m: nat)
    requires |ino.addrs| == NDIRECT + 1 && pos + m <= ino.size <= MAXFILE * BSIZE && pos % BSIZE + m <= BSIZE && 0 < m
    ensures BlockOf(ino, store, pos / BSIZE)[pos % BSIZE..pos % BSIZE + m] == Bytes(ino, store)[pos..pos + m]
  {
    hide BlockOf;
    var a, b := BlockOf(ino, store, pos / BSIZE)[pos % BSIZE..pos % BSIZE + m], Bytes(ino, store)[pos..pos + m];
    forall k: nat | k < m ensures a[k] == b[k] {
      var at := pos + k;
      assert at / BSIZE == pos / BSIZE && at % BSIZE == pos % BSIZE + k;
      assert b[k] == ByteAt(ino, store, at);
    }
  }

  lemma SplicedNothing(s: seq<Byte>, off: nat)
    ensures off <= |s| ==> Spliced(s, off, []) == s
  {
  }

  /** Every file but the i-th is as it was. */
  ghost predicate SameRest(inodes0: seq<Inode>, store0: Disk, inodes: seq<Inode>, store: Disk, i: nat) {
    && WellShaped(inodes0) && WellShaped(inodes) && |inodes| == |inodes0|
    && forall j: nat | j < |inodes| && j != i ::
         inodes[j] == inodes0[j] && Bytes(inodes[j], store) == Bytes(inodes0[j], store0)
  }

  lemma SameRestSelf(inodes: seq<Inode>, store: Disk, i: nat)
    requires WellShaped(inodes)
    ensures SameRest(inodes, store, inodes, store, i)
  {
  }

  lemma SameRestTrans(i0: seq<Inode>, s0: Disk, i1: seq<Inode>, s1: Disk, i2: seq<Inode>, s2: Disk, i: nat)
    requires SameRest(i0, s0, i1, s1, i) && SameRest(i1, s1, i2, s2, i)
    ensures SameRest(i0, s0, i2, s2, i)
  {
    hide Bytes;
  }

  /** Two writes, the second starting where the first ended. */
  lemma SplicedTwice(s: seq<Byte>, off: nat, a: seq<Byte>, b: seq<Byte>)
    requires off <= |s|
    ensures off + |a| <= |Spliced(s, off, a)|
    ensures Spliced(Spliced(s, off, a), off + |a|, b) == Spliced(s, off, a + b)
  {
    var t := Spliced(s, off, a);
    assert t[..off + |a|] == s[..off] + a;
    assert off + |a| + |b| < |s| ==> t[off + |a| + |b|..] == s[off + |a| + |b|..];
  }

  /** One block of a write. */
  lemma WriteStep(ino: Inode, store: Disk, ino': Inode, store': Disk, w: seq<Byte>, pos: nat, m: nat, end: nat)
    requires WrittenUpTo(ino, store, w, pos, end) && pos + m <= end <= |w| && pos % BSIZE + m <= BSIZE
    requires pos < MAXFILE * BSIZE
    requires PutFile(ino, store, ino', store', pos / BSIZE,
                     Patched(BlockOf(ino, store, pos / BSIZE), pos % BSIZE, w[pos..pos + m]))
    ensures WrittenUpTo(ino', store', w, pos + m, end)
  {
    hide BlockOf, Slot, SlotOf;
    forall k: nat | k < |w| && !(pos + m <= k < end) ensures ByteAt(ino', store', k) == w[k] {
      if k / BSIZE == pos / BSIZE {
        var lo, at := pos % BSIZE, k % BSIZE;
        assert k - pos == at - lo;
        assert at < lo || at >= lo + m ==> ByteAt(ino', store', k) == ByteAt(ino, store, k);
        assert lo <= at < lo + m ==> ByteAt(ino', store', k) == w[pos..pos + m][at - lo];
      } else {
        assert SameBlock(ino, store, ino', store', k / BSIZE);
      }
    }
  }

  /** A write has mapped everything below byte pos. */
  lemma MapStep(ino: Inode, store: Disk, ino': Inode, store': Disk, blk: Block, n: nat, pos: nat, m: nat)
    requires |ino.addrs| == NDIRECT + 1 && NoHoles(ino, store, n) && n >= pos && pos < MAXFILE * BSIZE
    requires pos % BSIZE + m <= BSIZE
    requires PutFile(ino, store, ino', store', pos / BSIZE, blk)
    ensures NoHoles(ino', store', if n > pos + m then n else pos + m)
  {
    hide BlockOf, Slot;
    var n' := if n > pos + m then n else pos + m;
    forall bn: nat | bn < MAXFILE && bn * BSIZE < n' ensures Slot(ino', store', SlotOf(bn)) != 0 {
      if bn != pos / BSIZE {
        assert SameBlock(ino, store, ino', store', bn);
      }
    }
  }

  /** No block is reached by two paths, whether in one file or in two. */
  lemma OnePath(inodes: seq<Inode>, store: Disk, bitmap: seq<bool>, owner: map<nat, Place>, meta: nat,
                i: nat, s: nat, j: nat, t: nat)
    requires Owned(inodes, store, bitmap, owner, meta) && i < |inodes| && j < |inodes| && s < NSLOTS && t < NSLOTS
    requires Slot(inodes[i], store, s) == Slot(inodes[j], store, t) != 0
    ensures i == j && s == t
  {
    assert SlotOk(inodes, store, owner, i, s) && SlotOk(inodes, store, owner, j, t);
  }

  /** The free map marks the metadata blocks and the blocks that some inode reaches, and no others. */
  lemma BitmapExact(inodes: seq<Inode>, store: Disk, bitmap: seq<bool>, owner: map<nat, Place>, meta: nat, b: nat)
    requires Owned(inodes, store, bitmap, owner, meta) && b < |bitmap|
    ensures bitmap[b] <==>
              || b < meta
              || exists i: nat, s: nat :: i < |inodes| && s < NSLOTS && Slot(inodes[i], store, s) == b
  {
    if b >= meta {
      if b in owner {
        assert OwnerOk(inodes, store, owner, meta, b);
      }
      forall i: nat, s: nat | i < |inodes| && s < NSLOTS && Slot(inodes[i], store, s) == b ensures b in owner {
        assert SlotOk(inodes, store, owner, i, s);
      }
    }
  }

  // ---------- How many blocks a write needs

  ghost function FreeSet(bitmap: seq<bool>): set<nat> {
    set b: nat | b < |bitmap| && !bitmap[b]
  }

  ghost function FreeCount(bitmap: seq<bool>): nat {
    |FreeSet(bitmap)|
  }

  lemma OneLess(bitmap: seq<bool>, b: nat)
    requires b < |bitmap| && !bitmap[b]
    ensures FreeCount(bitmap[b := true]) == FreeCount(bitmap) - 1
  {
    assert FreeSet(bitmap[b := true]) == FreeSet(bitmap) - {b};
  }

  lemma NoneFree(bitmap: seq<bool>)
    ensures FreeCount(bitmap) == 0 <==> forall b | 0 <= b < |bitmap| :: bitmap[b]
  {
    if b :| 0 <= b < |bitmap| && !bitmap[b] {
      assert b in FreeSet(bitmap);
    }
  }

  /** What mapping block bn of a file takes: nothing, the block, or the indirect block as well. */
  function NeedOf(ino: Inode, store: Disk, bn: nat): nat
    requires |ino.addrs| == NDIRECT + 1 && bn < MAXFILE
  {
    if Slot(ino, store, SlotOf(bn)) != 0 then 0
    else if bn >= NDIRECT && ino.addrs[NDIRECT] == 0 then 2 else 1
  }

  function Unmapped(ino: Inode, store: Disk, lo: nat, hi: nat): nat
    requires |ino.addrs| == NDIRECT + 1 && hi <= MAXFILE
    decreases hi - lo
  {
    if lo >= hi then 0 else (if Slot(ino, store, SlotOf(lo)) == 0 then 1 else 0) + Unmapped(ino, store, lo + 1, hi)
  }

  /** The blocks that mapping blocks lo to hi of a file takes: each that is not there, and the indirect block if it is
      not. */
  function NeedRange(ino: Inode, store: Disk, lo: nat, hi: nat): nat
    requires |ino.addrs| == NDIRECT + 1 && hi <= MAXFILE
  {
    Unmapped(ino, store, lo, hi) + (if ino.addrs[NDIRECT] == 0 && lo < hi && hi > NDIRECT then 1 else 0)
  }

  /** Blocks a to b of a file have been mapped, at just the cost of what was missing, and no other. */
  ghost predicate TookRange(ino: Inode, store: Disk, free: nat, ino': Inode, store': Disk, free': nat, a: nat, b: nat) {
    && |ino.addrs| == |ino'.addrs| == NDIRECT + 1 && a <= b <= MAXFILE
    && (forall c: nat | c < MAXFILE && !(a <= c < b) :: Slot(ino', store', SlotOf(c)) == Slot(ino, store, SlotOf(c)))
    && (forall c: nat | a <= c < b :: Slot(ino', store', SlotOf(c)) != 0)
    && (ino'.addrs[NDIRECT] == 0 <==> ino.addrs[NDIRECT] == 0 && !(a < b && b > NDIRECT))
    && free == free' + NeedRange(ino, store, a, b)
  }

  lemma {:induction false} SameUnmapped(ino: Inode, store: Disk, ino': Inode, store': Disk, lo: nat, hi: nat)
    requires |ino.addrs| == |ino'.addrs| == NDIRECT + 1 && hi <= MAXFILE
    requires forall c: nat | lo <= c < hi :: Slot(ino', store', SlotOf(c)) == Slot(ino, store, SlotOf(c))
    ensures Unmapped(ino', store', lo, hi) == Unmapped(ino, store, lo, hi)
    decreases hi - lo
  {
    hide Slot;
    if lo < hi {
      SameUnmapped(ino, store, ino', store', lo + 1, hi);
    }
  }

  lemma {:induction false} AllMapped(ino: Inode, store: Disk, lo: nat, hi: nat)
    requires |ino.addrs| == NDIRECT + 1 && hi <= MAXFILE
    requires forall c: nat | lo <= c < hi :: Slot(ino, store, SlotOf(c)) != 0
    ensures Unmapped(ino, store, lo, hi) == 0
    decreases hi - lo
  {
    hide Slot;
    if lo < hi {
      AllMapped(ino, store, lo + 1, hi);
    }
  }

  lemma {:induction false} UnmappedSplit(ino: Inode, store: Disk, lo: nat, mid: nat, hi: nat)
    requires |ino.addrs| == NDIRECT + 1 && lo <= mid <= hi <= MAXFILE
    ensures Unmapped(ino, store, lo, hi) == Unmapped(ino, store, lo, mid) + Unmapped(ino, store, mid, hi)
    decreases mid - lo
  {
    hide Slot;
    if lo < mid {
      UnmappedSplit(ino, store, lo + 1, mid, hi);
    }
  }

  /** What two ranges need, the second after the first has been mapped, is what they need together, even if they
      overlap. */
  lemma NeedSplit(ino: Inode, store: Disk, free: nat, ino1: Inode, store1: Disk, free1: nat, a: nat, b: nat, m: nat,
                  e: nat)
    requires TookRange(ino, store, free, ino1, store1, free1, a, b) && a <= m <= b <= e <= MAXFILE
    ensures NeedRange(ino, store, a, e) == NeedRange(ino, store, a, b) + NeedRange(ino1, store1, m, e)
  {
    hide Slot;
    UnmappedSplit(ino, store, a, b, e);
    UnmappedSplit(ino1, store1, m, b, e);
    AllMapped(ino1, store1, m, b);
    SameUnmapped(ino, store, ino1, store1, b, e);
  }

  lemma TookBoth(ino: Inode, store: Disk, free: nat, ino1: Inode, store1: Disk, free1: nat,
                 ino2: Inode, store2: Disk, free2: nat, a: nat, b: nat, m: nat, e: nat)
    requires TookRange(ino, store, free, ino1, store1, free1, a, b)
    requires TookRange(ino1, store1, free1, ino2, store2, free2, m, e)
    requires a <= m <= b <= e
    ensures TookRange(ino, store, free, ino2, store2, free2, a, e)
  {
    hide Slot, NeedRange;
    NeedSplit(ino, store, free, ino1, store1, free1, a, b, m, e);
  }

  lemma TookNone(ino: Inode, store: Disk, free: nat, a: nat)
    requires |ino.addrs| == NDIRECT + 1 && a <= MAXFILE
    ensures TookRange(ino, store, free, ino, store, free, a, a)
  {
  }

  lemma NeedOfOne(ino: Inode, store: Disk, bn: nat)
    requires |ino.addrs| == NDIRECT + 1 && bn < MAXFILE
    ensures NeedOf(ino, store, bn) == NeedRange(ino, store, bn, bn + 1)
    ensures NeedOf(ino, store, bn) == 0 || ino.addrs[NDIRECT] != 0 || bn < NDIRECT || NeedOf(ino, store, bn) == 2
  {
    if bn >= NDIRECT {
      NoIndirect(ino, store, bn - NDIRECT);
    }
    assert Unmapped(ino, store, bn + 1, bn + 1) == 0;
  }

  /** What is needed grows with the range. */
  lemma NeedMonotone(ino: Inode, store: Disk, a: nat, b: nat, e: nat)
    requires |ino.addrs| == NDIRECT + 1 && a <= b <= e <= MAXFILE
    ensures NeedRange(ino, store, a, b) <= NeedRange(ino, store, a, e)
  {
    UnmappedSplit(ino, store, a, b, e);
  }

  lemma ResizedTook(ino: Inode, store: Disk, free: nat, ino': Inode, store': Disk, free': nat, a: nat, b: nat, n: nat)
    requires TookRange(ino, store, free, ino', store', free', a, b)
    ensures TookRange(ino, store, free, Inode(n, ino'.addrs), store', free', a, b)
  {
    hide Slot, NeedRange;
    forall c: nat | c < MAXFILE ensures Slot(Inode(n, ino'.addrs), store', SlotOf(c)) == Slot(ino', store', SlotOf(c)) {
      ResizedBlock(ino', store', n, c);
    }
  }

  // ---------- Truncation

  /** The free map while the blocks at the given slots of inode i have been freed. */
  ghost predicate Freed(owner: map<nat, Place>, bitmap: seq<bool>, meta: nat, i: nat, done: set<nat>) {
    forall b: nat | b < |bitmap| ::
      bitmap[b] <==> b < meta || (b in owner && !(owner[b].inum == i && owner[b].slot in done))
  }

  lemma FreedNone(inodes: seq<Inode>, store: Disk, bitmap: seq<bool>, owner: map<nat, Place>, meta: nat, i: nat)
    requires Owned(inodes, store, bitmap, owner, meta)
    ensures Freed(owner, bitmap, meta, i, {})
  {
  }

  lemma NoIndirectSlots(ino: Inode, store: Disk)
    requires |ino.addrs| == NDIRECT + 1
    ensures ino.addrs[NDIRECT] == 0 ==> forall t: nat | NDIRECT <= t < NSLOTS :: Slot(ino, store, t) == 0
  {
  }

  /** Freeing what the next slot points to: it is not free already. */
  lemma FreeStep(inodes: seq<Inode>, store: Disk, bitmap0: seq<bool>, owner: map<nat, Place>, meta: nat, i: nat,
                 bitmap: seq<bool>, done: set<nat>, t: nat)
    requires Owned(inodes, store, bitmap0, owner, meta) && i < |inodes| && |bitmap| == |store|
    requires Freed(owner, bitmap, meta, i, done) && t < NSLOTS && t !in done
    ensures var b := Slot(inodes[i], store, t);
            if b == 0 then Freed(owner, bitmap, meta, i, done + {t})
            else b < |bitmap| && bitmap[b] && Freed(owner, bitmap[b := false], meta, i, done + {t})
  {
    hide Slot;
    var b := Slot(inodes[i], store, t);
    assert SlotOk(inodes, store, owner, i, t);
    if b != 0 {
      assert OwnerOk(inodes, store, owner, meta, b);
    }
    forall c: nat | c < |bitmap| && c in owner ensures owner[c] == Place(i, t) <==> b != 0 && c == b {
      assert OwnerOk(inodes, store, owner, meta, c);
    }
  }

  function Without(owner: map<nat, Place>, i: nat): map<nat, Place> {
    map b | b in owner && owner[b].inum != i :: owner[b]
  }

  /** With every block of the inode freed and its pointers cleared, the rest owns what it did. */
  lemma TruncOwned(inodes: seq<Inode>, store: Disk, bitmap0: seq<bool>, owner: map<nat, Place>, meta: nat, i: nat,
                   bitmap: seq<bool>, done: set<nat>, ino: Inode)
    requires Owned(inodes, store, bitmap0, owner, meta) && i < |inodes| && |bitmap| == |store|
    requires Freed(owner, bitmap, meta, i, done)
    requires forall t: nat | t < NSLOTS :: t in done || Slot(inodes[i], store, t) == 0
    requires ino.size == 0 && |ino.addrs| == NDIRECT + 1 && forall s | 0 <= s <= NDIRECT :: ino.addrs[s] == 0
    ensures Owned(inodes[i := ino], store, bitmap, Without(owner, i), meta)
    ensures forall b: nat | b < |bitmap| :: bitmap[b] <==> bitmap0[b] && !(b in owner && owner[b].inum == i)
    ensures Solid(ino, store)
  {
    hide OwnerOk, SlotOk;
    var inodes', owner' := inodes[i := ino], Without(owner, i);
    forall b | b in owner
      ensures OwnerOk(inodes, store, owner, meta, b) && owner[b].slot < NSLOTS && owner[b].inum < |inodes|
                                  && meta <= b && (owner[b].inum == i ==> owner[b].slot in done)
    {
      assert OwnerOk(inodes, store, owner, meta, b);
      OwnerFacts(inodes, store, owner, meta, b);
    }
    forall j: nat, t: nat | j < |inodes'| && t < NSLOTS ensures SlotOk(inodes', store, owner', j, t) {
      assert SlotOk(inodes, store, owner, j, t);
      TruncSlot(inodes, store, owner, i, ino, j, t);
    }
    forall b | b in owner' ensures OwnerOk(inodes', store, owner', meta, b) {
      TruncOwner(inodes, store, owner, meta, i, ino, b);
    }
  }

  lemma OwnerFacts(inodes: seq<Inode>, store: Disk, owner: map<nat, Place>, meta: nat, b: nat)
    requires WellShaped(inodes) && b in owner && OwnerOk(inodes, store, owner, meta, b)
    ensures meta <= b < |store| && owner[b].inum < |inodes| && owner[b].slot < NSLOTS
    ensures Slot(inodes[owner[b].inum], store, owner[b].slot) == b
  {
  }

  lemma TruncSlot(inodes: seq<Inode>, store: Disk, owner: map<nat, Place>, i: nat, ino: Inode, j: nat, t: nat)
    requires WellShaped(inodes) && i < |inodes| && SlotOk(inodes, store, owner, j, t)
    requires ino.size == 0 && |ino.addrs| == NDIRECT + 1 && forall s | 0 <= s <= NDIRECT :: ino.addrs[s] == 0
    ensures SlotOk(inodes[i := ino], store, Without(owner, i), j, t)
  {
  }

  lemma TruncOwner(inodes: seq<Inode>, store: Disk, owner: map<nat, Place>, meta: nat, i: nat, ino: Inode, b: nat)
    requires WellShaped(inodes) && i < |inodes| && b in owner && owner[b].inum != i
    requires OwnerOk(inodes, store, owner, meta, b)
    requires ino.size == 0 && |ino.addrs| == NDIRECT + 1
    ensures OwnerOk(inodes[i := ino], store, Without(owner, i), meta, b)
  {
  }
}
