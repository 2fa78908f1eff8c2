/** log.c: group commit on top of the buffer cache and the redo log. */
module Log {
  import opened Blocks
  import opened BufferCache
  import opened Params
  import opened Redo

  type Pos = x: int | x > 0 witness 1

  function Users(held: map<nat, Pos>, b: Buf): nat {
    if b.dev == 1 && b.blockno in held then held[b.blockno] else 0
  }

  /** One more user of block k. */
  function Inc(held: map<nat, Pos>, k: nat): map<nat, Pos> {
    held[k := if k in held then held[k] + 1 else 1]
  }

  /** The buffers in use are those of the blocks in held, each by as many users. */
  ghost predicate Refs(buf: seq<Buf>, held: map<nat, Pos>) {
    && (forall i | 0 <= i < |buf| :: buf[i].refcnt == Users(held, buf[i]))
    && (forall k | k in held :: Cached(buf, k))
  }

  lemma RefsKept(buf: seq<Buf>, buf': seq<Buf>, b: nat, held: map<nat, Pos>)
    requires Refs(buf, held) && b < |buf| == |buf'| && buf' == buf[b := buf'[b]]
    requires buf[b].refcnt == buf'[b].refcnt && buf[b].dev == buf'[b].dev && buf[b].blockno == buf'[b].blockno
    ensures Refs(buf', held)
  {
    forall k | k in held ensures Cached(buf', k) {
      SameCached(buf, buf', k);
    }
  }

  /** What bread does. */
  lemma RefsTaken(buf: seq<Buf>, buf': seq<Buf>, b: nat, k: nat, held: map<nat, Pos>)
    requires Refs(buf, held) && Unique(buf') && b < |buf| == |buf'| && buf' == buf[b := buf'[b]] && Caches(buf', b, k)
    requires if Caches(buf, b, k) then buf'[b].refcnt == buf[b].refcnt + 1
             else !Cached(buf, k) && !Pinned(buf[b]) && buf'[b].refcnt == 1
    ensures Refs(buf', Inc(held, k))
  {
    forall j | j in Inc(held, k) ensures Cached(buf', j) {
      if j == k {
        assert Caches(buf', b, k);
      } else {
        var i :| Caches(buf, i, j);
        assert buf[i].refcnt == held[j];
        assert i == b ==> Caches(buf, b, k);
        assert Caches(buf', i, j);
      }
    }
  }

  lemma HeldStay(buf: seq<Buf>, buf': seq<Buf>, b: nat, k: nat, held: map<nat, Pos>)
    requires Refs(buf, held) && b < |buf| == |buf'| && buf' == buf[b := buf'[b]]
    requires Caches(buf, b, k) || !Pinned(buf[b])
    ensures forall i, j | j in held && j != k && Caches(buf, i, j) :: buf'[i] == buf[i]
  {
  }

  /** What brelse does. */
  lemma RefsGiven(buf: seq<Buf>, buf': seq<Buf>, b: nat, k: nat, held: map<nat, Pos>)
    requires Refs(buf, Inc(held, k)) && Unique(buf) && Caches(buf, b, k) && buf[b].refcnt > 0
    requires buf' == buf[b := buf[b].(refcnt := buf[b].refcnt - 1)]
    ensures Refs(buf', held)
  {
    forall j | j in held ensures Cached(buf', j) {
      assert j in Inc(held, k);
      SameCached(buf, buf', j);
    }
  }

  lemma IncSwap(held: map<nat, Pos>, j: nat, k: nat)
    ensures Inc(Inc(held, j), k) == Inc(Inc(held, k), j)
  {
  }

  /** A buffer without B_DIRTY holds what the disk holds, in use or not. */
  ghost predicate Clean(buf: seq<Buf>, disk: Disk) {
    forall i | 0 <= i < |buf| && buf[i].dev == 1 && !buf[i].dirty ::
      buf[i].blockno < |disk| && buf[i].data == disk[buf[i].blockno]
  }

  /** A buffer has been read, or is dirty. */
  lemma CleanTaken(buf: seq<Buf>, buf': seq<Buf>, disk: Disk, view: Disk, b: nat, k: nat)
    requires Clean(buf, disk) && IsView(buf, disk, view) && b < |buf| == |buf'| && buf' == buf[b := buf'[b]]
    requires Caches(buf', b, k) && k < |disk| && buf'[b].data == view[k]
    requires Cached(buf, k) ==> Caches(buf, b, k) && buf'[b].dirty == buf[b].dirty
    ensures Clean(buf', disk)
  {
  }

  lemma CleanKept(buf: seq<Buf>, buf': seq<Buf>, disk: Disk, b: nat)
    requires Clean(buf, disk) && b < |buf| == |buf'| && buf' == buf[b := buf'[b]]
    requires buf'[b].dirty || (!buf[b].dirty && buf'[b] == buf[b].(refcnt := buf'[b].refcnt))
    ensures Clean(buf', disk)
  {
  }

  /** A buffer has been written to the disk. */
  lemma CleanPut(buf: seq<Buf>, buf': seq<Buf>, disk: Disk, b: nat, data: Block)
    requires Clean(buf, disk) && Unique(buf) && b < |buf| == |buf'|
    requires buf' == buf[b := buf[b].(data := data, dirty := false)] && buf[b].dev == 1 && buf[b].blockno < |disk|
    ensures Clean(buf', disk[buf[b].blockno := data])
  {
  }

  ghost predicate DirtyAt(buf: seq<Buf>, k: nat) {
    exists i :: Caches(buf, i, k) && buf[i].dirty
  }

  /** Exactly the blocks ks have a buffer with B_DIRTY. */
  ghost predicate DirtyIs(buf: seq<Buf>, ks: seq<Word>) {
    && (forall i | 0 <= i < |buf| && buf[i].dirty :: buf[i].dev == 1 && buf[i].blockno in ks)
    && (forall j | 0 <= j < |ks| :: DirtyAt(buf, ks[j]))
  }

  /** Changing one buffer that neither was nor is dirty, or one that keeps its block and its flag. */
  lemma DirtyKept(buf: seq<Buf>, buf': seq<Buf>, b: nat, ks: seq<Word>)
    requires DirtyIs(buf, ks) && b < |buf| == |buf'| && buf' == buf[b := buf'[b]]
    requires
      || (!buf[b].dirty && !buf'[b].dirty)
      || (buf[b].dirty == buf'[b].dirty && buf[b].dev == buf'[b].dev && buf[b].blockno == buf'[b].blockno)
    ensures DirtyIs(buf', ks)
  {
    forall j | 0 <= j < |ks| ensures DirtyAt(buf', ks[j]) {
      var i :| Caches(buf, i, ks[j]) && buf[i].dirty;
      assert Caches(buf', i, ks[j]) && buf'[i].dirty;
    }
  }

  /** Clearing the flag of the first block. */
  lemma DirtyCleared(buf: seq<Buf>, buf': seq<Buf>, b: nat, ks: seq<Word>)
    requires DirtyIs(buf, ks) && b < |buf| == |buf'| && ks != [] && Distinct(ks)
    requires forall i | Caches(buf, i, ks[0]) :: i == b
    requires Caches(buf, b, ks[0]) && buf' == buf[b := buf[b].(dirty := false)]
    ensures DirtyIs(buf', ks[1..])
  {
    forall i | 0 <= i < |buf| && buf'[i].dirty ensures buf'[i].dev == 1 && buf'[i].blockno in ks[1..] {
      var j :| 0 <= j < |ks| && ks[j] == buf[i].blockno;
      assert Caches(buf, i, ks[j]);
      assert j != 0;
      assert ks[1..][j - 1] == ks[j];
    }
    forall j | 0 <= j < |ks[1..]| ensures DirtyAt(buf', ks[1..][j]) {
      var i :| Caches(buf, i, ks[1 + j]) && buf[i].dirty;
      assert Caches(buf', i, ks[1 + j]) && buf'[i].dirty;
    }
  }

  lemma DirtyAdded(buf: seq<Buf>, buf': seq<Buf>, b: nat, ks: seq<Word>, k: Word)
    requires DirtyIs(buf, ks) && b < |buf| == |buf'|
    requires Caches(buf, b, k) && buf' == buf[b := buf[b].(dirty := true)]
    ensures DirtyIs(buf', ks + [k])
    ensures k in ks ==> DirtyIs(buf', ks)
  {
    assert DirtyAt(buf', k) by { assert Caches(buf', b, k) && buf'[b].dirty; }
    forall j | 0 <= j < |ks| ensures DirtyAt(buf', ks[j]) {
      var i :| Caches(buf, i, ks[j]) && buf[i].dirty;
      assert Caches(buf', i, ks[j]) && buf'[i].dirty;
    }
  }

  lemma DirtyCached(buf: seq<Buf>, ks: seq<Word>, k: Word)
    requires DirtyIs(buf, ks) && k in ks
    ensures Cached(buf, k)
    ensures Unique(buf) ==> forall i | Caches(buf, i, k) :: buf[i].dirty
  {
    var j :| 0 <= j < |ks| && ks[j] == k;
    assert DirtyAt(buf, ks[j]);
  }

  ghost function Members(ks: seq<Word>): set<nat> {
    set k: nat | k in ks
  }

  /** The blocks whose buffers may not be recycled: the dirty ones, and those in use. */
  ghost function Busy(ks: seq<Word>, held: map<nat, Pos>): set<nat> {
    Members(ks) + held.Keys
  }

  lemma PinnedAreBusy(buf: seq<Buf>, ks: seq<Word>, held: map<nat, Pos>)
    requires DirtyIs(buf, ks) && Refs(buf, held)
    ensures PinnedBlocks(buf) == Busy(ks, held)
    ensures forall i | 0 <= i < |buf| && Pinned(buf[i]) :: buf[i].dev == 1
  {
    forall k | k in Busy(ks, held) ensures k in PinnedBlocks(buf) {
      if k in ks {
        var j :| 0 <= j < |ks| && ks[j] == k;
        assert DirtyAt(buf, ks[j]);
      } else {
        var i :| Caches(buf, i, k);
        assert buf[i].refcnt == held[k];
      }
    }
  }

  lemma {:induction false} DistinctSize(ks: seq<Word>)
    requires Distinct(ks)
    ensures |Members(ks)| == |ks|
  {
    if ks != [] {
      var n := |ks| - 1;
      DistinctSize(ks[..n]);
      assert Members(ks) == Members(ks[..n]) + {ks[n]};
    }
  }

  /** Whether bread finds a buffer. */
  lemma BreadFails(buf: seq<Buf>, ks: seq<Word>, held: map<nat, Pos>, k: nat)
    requires DirtyIs(buf, ks) && Refs(buf, held) && Unique(buf)
    ensures |Busy(ks, held)| <= |buf|
    ensures !Cached(buf, k) && |PinnedBlocks(buf)| == |buf| <==> k !in Busy(ks, held) && |Busy(ks, held)| == |buf|
  {
    PinnedAreBusy(buf, ks, held);
    AllPinned(buf);
    if k in ks {
      DirtyCached(buf, ks, k);
    }
    if Cached(buf, k) && |PinnedBlocks(buf)| == |buf| {
      var i :| Caches(buf, i, k);
      assert Pinned(buf[i]);
    }
  }

  /** When nobody else is there, only the logged blocks are busy. */
  lemma {:induction false} BusyAlone(ks: seq<Word>)
    requires Distinct(ks)
    ensures |Busy(ks, map[])| == |ks|
  {
    DistinctSize(ks);
    assert Busy(ks, map[]) == Members(ks);
  }

  /** A block that is not dirty is on the disk as the logical disk has it. */
  lemma CleanBlock(buf: seq<Buf>, disk: Disk, view: Disk, ks: seq<Word>, k: nat)
    requires IsView(buf, disk, view) && Clean(buf, disk) && DirtyIs(buf, ks) && k < |disk| && k !in ks
    ensures view[k] == disk[k]
  {
    if Cached(buf, k) {
      var i :| Caches(buf, i, k);
      assert !buf[i].dirty;
    }
  }

  class LogState {
    const lay: Layout
    const bc: BCache
    var outstanding: nat
    var committing: bool
    var n: nat
    var block: seq<Word>
    /** The operations between begin_op and end_op, and the blocks that each of them has logged. */
    ghost var ops: map<nat, set<nat>>
    /** The home blocks as the last commit left them. */
    ghost var durable: Disk
    /** The blocks whose buffers others are reading, as fileread does outside of operations. */
    ghost var held: map<nat, Pos>

    /** The cache with blocks ks dirty and buffers in use as h says. */
    ghost predicate InCache(ks: seq<Word>, h: map<nat, Pos>)
      reads bc
    {
      bc.Valid() && DirtyIs(bc.buf, ks) && Refs(bc.buf, h) && Clean(bc.buf, bc.disk)
    }

    ghost predicate Ready(ks: seq<Word>)
      reads this`n, this`block, this`held, bc
    {
      && InCache(ks, held)
      && lay.size > 0
      && lay.start + lay.size <= |bc.disk| == |bc.view|
      && n <= |block| == LOGSIZE
      && Distinct(ks)
      && forall k | k in held :: k < |bc.disk| && !InLog(lay, k)
    }

    function Blocks(): seq<Word>
      reads this`n, this`block
      requires n <= |block|
    {
      block[..n]
    }

    /** bread.  All that may be in the way is a cache full of busy blocks. */
    method Take(k: nat, ghost ks: seq<Word>, ghost h: map<nat, Pos>) returns (b: int)
      requires InCache(ks, h) && k < |bc.disk| == |bc.view|
      modifies bc`buf, bc`disk, bc`trace
      ensures bc.disk == old(bc.disk) && bc.trace == old(bc.trace)
      ensures b == PANIC <==> k !in Busy(ks, h) && |Busy(ks, h)| == NBUF
      ensures |Busy(ks, h)| <= NBUF
      ensures b != PANIC ==>
                && 0 <= b < |bc.buf| == |old(bc.buf)| == NBUF && InCache(ks, Inc(h, k)) && Caches(bc.buf, b, k)
                && bc.buf[b].data == bc.view[k] && (k !in ks ==> bc.view[k] == bc.disk[k])
                && forall i, j | j in h && j != k && Caches(old(bc.buf), i, j) :: bc.buf[i] == old(bc.buf[i])
    {
      ghost var buf0 := bc.buf;
      BreadFails(buf0, ks, h, k);
      if k !in ks {
        CleanBlock(bc.buf, bc.disk, bc.view, ks, k);
      }
      hide Linked, IsView, Coherent, PinnedBlocks, Busy, Refs, Clean;
      b := bc.Bread(1, k);
      if b != PANIC {
        TakenDirty(buf0, bc.buf, b, k, ks);
        hide Unique, DirtyIs;
        RefsTaken(buf0, bc.buf, b, k, h);
        HeldStay(buf0, bc.buf, b, k, h);
        CleanTaken(buf0, bc.buf, bc.disk, bc.view, b, k);
      }
    }

    /** brelse, by a user who leaves the buffer as the disk has it or dirty. */
    method Give(b: nat, ghost k: nat, ghost ks: seq<Word>, ghost h: map<nat, Pos>)
      requires InCache(ks, Inc(h, k)) && b < NBUF && Caches(bc.buf, b, k)
      modifies bc`buf, bc`ring, bc`next, bc`prev, bc`released, bc`clock
      ensures InCache(ks, h)
      ensures bc.buf == old(bc.buf)[b := old(bc.buf)[b].(refcnt := old(bc.buf)[b].refcnt - 1)]
    {
      ghost var buf0 := bc.buf;
      assert buf0[b].refcnt > 0;
      hide Linked, IsView, Coherent, DirtyIs, Refs, Unique;
      bc.Brelse(b);
      RefsGiven(buf0, bc.buf, b, k, h);
      DirtyKept(buf0, bc.buf, b, ks);
      hide Clean;
      CleanKept(buf0, bc.buf, bc.disk, b);
    }

    /** memmove(b->data, data); bwrite(b). */
    method Store(b: nat, data: Block, ghost k: nat, ghost ks: seq<Word>, ghost h: map<nat, Pos>)
      requires InCache(ks, h) && b < NBUF && Caches(bc.buf, b, k) && k in h && k < |bc.disk| == |bc.view|
      requires ks == [] || k !in ks || (k == ks[0] && Distinct(ks))
      modifies bc`buf, bc`view, bc`disk, bc`trace
      ensures InCache(if k in ks then ks[1..] else ks, h)
      ensures bc.buf == old(bc.buf)[b := old(bc.buf)[b].(data := data, dirty := false)]
      ensures bc.view == old(bc.view)[k := data]
      ensures bc.disk == old(bc.disk)[k := data] && bc.trace == old(bc.trace) + [bc.disk]
    {
      ghost var buf0, disk0 := bc.buf, bc.disk;
      OnlyHere(buf0, b, k);
      hide Linked, Coherent, Unique, DirtyIs, IsView, Refs, Clean, Distinct;
      bc.SetData(b, data);
      bc.Bwrite(b);
      FlagCleared(buf0, bc.buf, b, k, ks);
      RefsKept(buf0, bc.buf, b, h);
      CleanPut(buf0, bc.buf, disk0, b, data);
    }

    /** The two breads of a loop body: a log block and a home block. */
    method BreadPair(log: nat, home: nat, ghost ks: seq<Word>) returns (a: int, b: int)
      requires Ready(ks) && log < |bc.disk| && home < |bc.disk| && log !in ks && log !in held && log != home
      requires home in ks || (ks == [] && held == map[])
      modifies bc`buf, bc`disk, bc`trace
      ensures bc.disk == old(bc.disk) && bc.trace == old(bc.trace)
      ensures a == PANIC || b == PANIC <==> |Busy(ks, held)| == NBUF
      ensures |Busy(ks, held)| <= NBUF
      ensures a != PANIC && b != PANIC ==>
                && 0 <= a < NBUF && 0 <= b < NBUF && a != b && InCache(ks, Inc(Inc(held, log), home))
                && Caches(bc.buf, a, log) && bc.buf[a].data == bc.view[log] == bc.disk[log]
                && Caches(bc.buf, b, home) && bc.buf[b].data == bc.view[home]
    {
      hide LogState.InCache, BCache.Valid, Distinct, Busy;
      b := PANIC;
      SecondBread(ks, held, log, home);
      a := Take(log, ks, held);
      if a == PANIC {
        return;
      }
      assert log in Inc(held, log);
      b := Take(home, ks, Inc(held, log));
    }

    /** The body of the loop of write_log: a cached block goes to the log. */
    method WriteLogBlock(log: nat, home: nat, ghost ks: seq<Word>) returns (ok: bool)
      requires Ready(ks) && InLog(lay, log) && home < |bc.disk|
      requires log !in ks && log != home && home in ks
      modifies bc
      ensures ok <==> |Busy(ks, held)| < NBUF
      ensures ok ==>
                && Ready(ks)
                && SameHome(lay, old(bc.view), bc.view)
                && home < |old(bc.view)|
                && bc.disk == old(bc.disk)[log := old(bc.view)[home]]
                && bc.trace == old(bc.trace) + [bc.disk]
    {
      hide LogState.InCache, BCache.Valid, Distinct, Busy, SameHome;
      var to, from := BreadPair(log, home, ks);
      ok := to != PANIC && from != PANIC;
      if ok {
        LogWriteKeepsHome(lay, bc.view, log, bc.buf[from].data);
        Store(to, bc.buf[from].data, log, ks, Inc(Inc(held, log), home));
        Give(from, home, ks, Inc(held, log));
        Give(to, log, ks, held);
      }
    }

    /** The body of the loop of install_trans: a logged block goes home.  In a commit the home blocks still to come are
        dirty in the cache; in a recovery nothing is, and nobody else is there. */
    method InstallBlock(log: nat, home: nat, ghost ks: seq<Word>)
      requires Ready(ks) && |Busy(ks, held)| < NBUF && InLog(lay, log) && home < |bc.disk|
      requires log !in ks && log != home
      requires if ks == [] then held == map[] else ks[0] == home
      modifies bc
      ensures Ready(Rest(ks))
      ensures log < |old(bc.disk)| && bc.disk == old(bc.disk)[home := old(bc.disk)[log]]
      ensures bc.trace == old(bc.trace) + [bc.disk]
    {
      hide LogState.InCache, BCache.Valid, Distinct, Busy;
      RestDistinct(ks);
      var lbuf, dbuf := BreadPair(log, home, ks);
      Store(dbuf, bc.buf[lbuf].data, home, ks, Inc(Inc(held, log), home));
      IncSwap(held, log, home);
      Give(lbuf, log, Rest(ks), Inc(held, home));
      Give(dbuf, home, Rest(ks), held);
    }

    /** One round of write_log, recorded in the trace. */
    method WriteLogRound(tail: nat, ghost ks: seq<Word>, ghost disk: Disk, ghost view: Disk, ghost trace: seq<Disk>)
      returns (ok: bool)
      requires Ready(ks) && Loggable(lay, disk, ks) && |view| == |disk| == |bc.disk|
      requires tail < n == |ks| <= |block| && ks == Blocks()
      requires SameHome(lay, view, bc.view)
      requires LogSteps(lay, disk, Contents(view, ks), trace, bc.trace, bc.disk, tail)
      modifies bc
      ensures ok <==> |Busy(ks, held)| < NBUF
      ensures ok ==>
                && Ready(ks) && SameHome(lay, view, bc.view) && |bc.disk| == |disk|
                && LogSteps(lay, disk, Contents(view, ks), trace, bc.trace, bc.disk, tail + 1)
    {
      hide Distinct, LogState.InCache, Busy, Logged, LogSteps, Contents, Loggable, SameHome, BCache.Valid;
      ghost var d, t, v := bc.disk, bc.trace, bc.view;
      LogPlace(lay, disk, ks, tail);
      LoggedInRange(lay, disk, ks);
      RoundData(lay, disk, view, v, ks, tail);
      LogStep(lay, disk, Contents(view, ks), trace, t, d, tail);
      ok := WriteLogBlock(lay.start + tail + 1, block[tail], ks);
      SameHomeTrans(lay, view, v, bc.view);
    }

    /** write_log: every logged block's cached contents go to the log area, in order. */
    method WriteLog(ghost ks: seq<Word>) returns (ok: bool)
      requires n <= |block| && Ready(ks) && Loggable(lay, bc.disk, ks) && ks == Blocks()
      modifies bc
      ensures ok <==> n == 0 || |Busy(ks, held)| < NBUF
      ensures ok ==>
                && Ready(ks) && SameHome(lay, old(bc.view), bc.view) && |old(bc.view)| == |old(bc.disk)|
                && LogSteps(lay, old(bc.disk), Contents(old(bc.view), ks), old(bc.trace), bc.trace, bc.disk, n)
    {
      hide LogState.InCache, BCache.Valid, Busy, LogSteps, Contents, Loggable, Distinct;
      ghost var disk, view, trace := bc.disk, bc.view, bc.trace;
      LogSteps0(lay, disk, ks, view, trace);
      var tail := 0;
      while tail < n
        invariant tail <= n
        invariant tail > 0 ==> |Busy(ks, held)| < NBUF
        invariant Ready(ks) && |bc.disk| == |disk| && SameHome(lay, view, bc.view)
        invariant LogSteps(lay, disk, Contents(view, ks), trace, bc.trace, bc.disk, tail)
        modifies bc
      {
        ok := WriteLogRound(tail, ks, disk, view, trace);
        if !ok {
          return;
        }
        tail := tail + 1;
      }
      ok := true;
    }

    /** One round of install_trans, recorded in the trace. */
    method InstallRound(tail: nat, ghost left: seq<Word>, ghost disk: Disk, ghost blocks: seq<Word>,
                        ghost data: seq<Block>,
                        ghost trace: seq<Disk>)
      requires Ready(left) && Loggable(lay, disk, blocks) && |bc.disk| == |disk|
      requires tail < n <= |block| && blocks == Blocks()
      requires |Busy(left, held)| < NBUF && if left == [] then held == map[] else left == blocks[tail..]
      requires |data| == n && InLogBlocks(lay, disk, data)
      requires InstallSteps(disk, blocks, data, trace, bc.trace, bc.disk, tail)
      modifies bc
      ensures Ready(Rest(left)) && |bc.disk| == |disk| && |Busy(Rest(left), held)| < NBUF
      ensures InstallSteps(disk, blocks, data, trace, bc.trace, bc.disk, tail + 1)
    {
      hide Distinct, LogState.InCache, Busy, InstallSteps, Loggable, BCache.Valid, InLogBlocks;
      ghost var d, t := bc.disk, bc.trace;
      LogPlace(lay, disk, blocks, tail);
      InstallSource(lay, disk, blocks, data, trace, t, d, tail);
      InstallStep(disk, blocks, data, trace, t, d, tail);
      FewerBusy(left, held);
      InstallBlock(lay.start + tail + 1, block[tail], left);
    }

    /** install_trans: every logged block goes home, in order. */
    method InstallTrans(ghost ks: seq<Word>, ghost blocks: seq<Word>, ghost data: seq<Block>)
      requires n <= |block| && Ready(ks) && Loggable(lay, bc.disk, blocks) && blocks == Blocks()
      requires |Busy(ks, held)| < NBUF && if ks == [] then held == map[] else ks == blocks
      requires |data| == n && InLogBlocks(lay, bc.disk, data)
      modifies bc
      ensures Ready([]) && |Busy([], held)| < NBUF
      ensures InstallSteps(old(bc.disk), blocks, data, old(bc.trace), bc.trace, bc.disk, n)
    {
      hide LogState.Ready, LogState.InCache, BCache.Valid, InstallSteps, Loggable, Busy, InLogBlocks;
      ghost var disk, trace := bc.disk, bc.trace;
      ghost var left := ks;
      InstallSteps0(lay, disk, blocks, data, trace);
      var tail := 0;
      while tail < n
        invariant tail <= n
        invariant left == if ks == [] then [] else blocks[tail..]
        invariant Ready(left) && |bc.disk| == |disk| && |Busy(left, held)| < NBUF
        invariant InstallSteps(disk, blocks, data, trace, bc.trace, bc.disk, tail)
        modifies bc
      {
        InstallRound(tail, left, disk, blocks, data, trace);
        left := Rest(left);
        tail := tail + 1;
      }
    }

    /** write_head: the header block takes the in-memory count and block numbers. */
    method WriteHead(ghost ks: seq<Word>)
      requires n <= |block| && Ready(ks) && |Busy(ks, held)| < NBUF
      requires forall i | 0 <= i < |ks| :: !InLog(lay, ks[i])
      modifies bc
      ensures Ready(ks) && SameHome(lay, old(bc.view), bc.view)
      ensures bc.disk == WithHeader(lay, old(bc.disk), Blocks())
      ensures bc.trace == old(bc.trace) + [bc.disk]
    {
      hide LogState.InCache, BCache.Valid, Distinct, Busy, PutHeader, SameHome;
      var b := Take(lay.start, ks, held);
      var hb := HeaderBytes(bc.buf[b].data);
      LogWriteKeepsHome(lay, bc.view, lay.start, hb);
      Store(b, hb, lay.start, ks, Inc(held, lay.start));
      Give(b, lay.start, ks, held);
    }

    /** The stores of write_head into the header block. */
    method HeaderBytes(h: Block) returns (hb: Block)
      requires n <= |block| && n <= LOGSIZE
      ensures hb == PutHeader(h, Blocks())
    {
      hb := PutWord(h, 0, n);
      var i := 0;
      while i < n
        invariant i <= n
        invariant hb == PutBlocks(h, Blocks(), i)
      {
        hb := PutWord(hb, i + 1, block[i]);
        i := i + 1;
      }
    }

    /** read_head: the in-memory count and block numbers come from the header block. */
    method ReadHead()
      requires n <= |block| && Ready([]) && |Busy([], held)| < NBUF && HeaderCount(bc.disk[lay.start]) <= LOGSIZE
      modifies this`n, this`block, bc`buf, bc`disk, bc`trace, bc`ring, bc`next, bc`prev, bc`released, bc`clock
      ensures Ready([])
      ensures bc.disk == old(bc.disk) && bc.trace == old(bc.trace)
      ensures Blocks() == HeaderBlocks(bc.disk[lay.start])
    {
      hide LogState.InCache, BCache.Valid, Busy;
      var b := Take(lay.start, [], held);
      CopyHeader(bc.buf[b].data);
      Give(b, lay.start, [], held);
    }

    method CopyHeader(hb: Block)
      requires |block| == LOGSIZE && HeaderCount(hb) <= LOGSIZE
      modifies this`n, this`block
      ensures n <= |block| == LOGSIZE && Blocks() == HeaderBlocks(hb)
    {
      n := GetWord(hb, 0);
      var i := 0;
      while i < n
        invariant i <= n == HeaderCount(hb) && |block| == LOGSIZE
        invariant forall j | 0 <= j < i :: block[j] == GetWord(hb, j + 1)
      {
        block := block[i := GetWord(hb, i + 1)];
        i := i + 1;
      }
    }

    /** What recovery and commit have in common: install_trans, and a cleared header. */
    method InstallAndClear(ghost ks: seq<Word>, ghost blocks: seq<Word>)
      requires n <= |block| && Ready(ks) && Recoverable(lay, bc.disk)
      requires blocks == Blocks() == HeaderBlocks(bc.disk[lay.start])
      requires |Busy(ks, held)| < NBUF && if ks == [] then held == map[] else ks == blocks
      modifies this`n, this`block, bc
      ensures n == 0 && |block| == LOGSIZE && Ready([])
      ensures bc.disk == Recover(lay, old(bc.disk)) && bc.trace == old(bc.trace) + RecoveryTrace(lay, old(bc.disk))
    {
      hide InstallSteps, Loggable, RecoveryTrace, Recover, HeaderBlocks, LogState.InCache, BCache.Valid, Busy, SameHome;
      ghost var disk, trace := bc.disk, bc.trace;
      LogDataThere(lay, disk);
      InstallTrans(ks, blocks, LogData(lay, disk));
      ghost var mid, e := bc.trace, bc.disk;
      n := 0;
      WriteHead([]);
      assert Blocks() == [];
      Finished(lay, disk, trace, mid, e);
    }

    /** recover_from_log on a cache that has just been set up: the disk goes through the images of a recovery. */
    method RecoverFromLog()
      requires n <= |block| && Ready([]) && held == map[] && Recoverable(lay, bc.disk)
      modifies this`n, this`block, bc
      ensures n == 0 && |block| == LOGSIZE && Ready([])
      ensures bc.disk == Recover(lay, old(bc.disk)) && bc.trace == old(bc.trace) + RecoveryTrace(lay, old(bc.disk))
    {
      hide RecoveryTrace, Recover, LogState.InCache, BCache.Valid, Busy, HeaderBlocks;
      BusyAlone([]);
      ReadHead();
      InstallAndClear([], Blocks());
    }

    /** commit: the disk goes through the images of a commit of the logged blocks with their cached contents.  It panics
        in bget exactly when the logged blocks and those that others hold fill the whole cache. */
    method Commit(ghost ks: seq<Word>) returns (ok: bool)
      requires n <= |block| && Ready(ks) && Loggable(lay, bc.disk, ks) && ks == Blocks()
      modifies this`n, this`block, bc
      ensures ok <==> ks == [] || |Busy(ks, held)| < NBUF
      ensures ok ==> n == 0 && |block| == LOGSIZE && Ready([]) && |old(bc.view)| == |old(bc.disk)|
      ensures ok && ks == [] ==> bc.disk == old(bc.disk) && bc.trace == old(bc.trace) && bc.view == old(bc.view)
      ensures ok && ks != [] ==>
                var data := Contents(old(bc.view), ks);
                && Recoverable(lay, Committed(lay, old(bc.disk), ks, data))
                && bc.disk == Recover(lay, Committed(lay, old(bc.disk), ks, data))
                && bc.trace == old(bc.trace) + CommitTrace(lay, old(bc.disk), ks, data)
    {
      ok := true;
      if n > 0 {
        ok := DoCommit(ks);
      }
    }

    /** The five calls of commit. */
    method DoCommit(ghost ks: seq<Word>) returns (ok: bool)
      requires n <= |block| && Ready(ks) && Loggable(lay, bc.disk, ks) && ks == Blocks() && n > 0
      modifies this`n, this`block, bc
      ensures ok <==> |Busy(ks, held)| < NBUF
      ensures ok ==> n == 0 && |block| == LOGSIZE && Ready([]) && |old(bc.view)| == |old(bc.disk)|
      ensures ok ==>
                var data := Contents(old(bc.view), ks);
                && Recoverable(lay, Committed(lay, old(bc.disk), ks, data))
                && bc.disk == Recover(lay, Committed(lay, old(bc.disk), ks, data))
                && bc.trace == old(bc.trace) + CommitTrace(lay, old(bc.disk), ks, data)
    {
      hide LogSteps, Committed, WithHeader, RecoveryTrace, CommitTrace, Recover, Logged, LogState.InCache,
        BCache.Valid, Busy, HeaderBlocks, Contents, SameHome, Distinct, Recoverable, Loggable;
      LoggedInRange(lay, bc.disk, ks);
      ghost var disk, trace, data := bc.disk, bc.trace, Contents(bc.view, ks);
      CommitReady(lay, disk, ks, data);
      ok := WriteLog(ks);
      if !ok {
        return;
      }
      ghost var t1, d1 := bc.trace, bc.disk;
      LogStepsCommitted(lay, disk, ks, data, trace, t1, d1);
      WriteHead(ks);
      InstallAndClear(ks, ks);
      CommitFinished(lay, disk, ks, data, trace, t1, d1);
    }

    // ---- operations ---------------------------------------------------------------------------------------

    /** What holds whenever log.lock is free. */
    ghost predicate Valid()
      reads this, bc
    {
      && n <= |block|
      && Ready(Blocks())
      && Loggable(lay, bc.disk, Blocks())
      && HeaderCount(bc.disk[lay.start]) == 0
      && SameHome(lay, bc.disk, durable)
      && outstanding == |ops|
      && Reserved(ops, Blocks())
      && (committing ==> outstanding == 0)
      && (outstanding == 0 && !committing ==> n == 0)
    }

    /** initlog: boot on any disk that can be recovered from. */
    constructor (lay: Layout, bc: BCache)
      requires bc.Valid() && bc.trace == [bc.disk] && Recoverable(lay, bc.disk)
      requires forall i | 0 <= i < |bc.buf| :: bc.buf[i].dev == 0 && !Pinned(bc.buf[i])
      modifies bc
      ensures this.lay == lay && this.bc == bc && Valid() && outstanding == 0 && !committing && ops == map[]
      ensures held == map[]
      ensures SameHome(lay, durable, Recover(lay, old(bc.disk)))
      ensures bc.trace == old(bc.trace) + RecoveryTrace(lay, old(bc.disk))
    {
      hide BCache.Valid, DirtyIs, Refs, Clean, Recover, RecoveryTrace, Recoverable, Loggable, HeaderCount, Reserved;
      this.lay, this.bc := lay, bc;
      n, block := 0, seq(LOGSIZE, i => 0);
      outstanding, committing := 0, false;
      ops, durable, held := map[], [], map[];
      new;
      FreshCache(bc.disk, bc.buf);
      FreshDisk(lay, bc.disk);
      ViewSize(bc);
      RecoverFromLog();
      durable := bc.disk;
      assert Blocks() == [];
    }

    /** One round of the loop of begin_op: false means the caller goes to sleep. */
    method BeginOp(ghost o: nat) returns (admitted: bool)
      requires Valid() && o !in ops
      modifies this`outstanding, this`ops
      ensures Valid()
      ensures admitted <==> !committing && n + (old(outstanding) + 1) * MAXOPBLOCKS <= LOGSIZE
      ensures old(outstanding) == 0 && !committing ==> admitted
      ensures admitted ==> ops == old(ops)[o := {}] && outstanding == old(outstanding) + 1
      ensures !admitted ==> ops == old(ops) && outstanding == old(outstanding)
    {
      hide BCache.Valid, LogState.Ready, Loggable, HeaderCount, SameHome, Reserved;
      if committing {
        admitted := false;
      } else if n + (outstanding + 1) * MAXOPBLOCKS > LOGSIZE {
        admitted := false;
      } else {
        ReservedBegin(ops, Blocks(), o);
        outstanding := outstanding + 1;
        ops := ops[o := {}];
        admitted := true;
      }
    }

    /** The critical section of end_op.  Its panic cannot happen. */
    method EndOp(ghost o: nat) returns (panicked: bool, doCommit: bool)
      requires Valid() && o in ops
      modifies this`outstanding, this`ops, this`committing
      ensures !panicked && Valid()
      ensures ops == old(ops) - {o} && outstanding == old(outstanding) - 1
      ensures doCommit <==> outstanding == 0
      ensures committing == doCommit
    {
      hide BCache.Valid, LogState.Ready, Loggable, HeaderCount, SameHome, Reserved, LogState.Blocks;
      ReservedEnd(ops, Blocks(), o);
      doCommit := false;
      outstanding := outstanding - 1;
      ops := ops - {o};
      if committing {
        return true, false;
      }
      if outstanding == 0 {
        doCommit := true;
        committing := true;
      }
      panicked := false;
    }

    /** log_write.  False is a panic; the test comes before the search for the block, so that even a block that is in
        the log already cannot be logged again when the log is full. */
    method LogWrite(b: nat, ghost ks: seq<Word>) returns (ok: bool)
      requires bc.Valid() && b < NBUF && bc.buf[b].refcnt > 0 && bc.buf[b].dev == 1 && bc.buf[b].blockno < 0x1_0000_0000
      requires n <= |block| == LOGSIZE && ks == Blocks() && DirtyIs(bc.buf, ks)
      modifies this`n, this`block, bc`buf
      ensures ok <==> |ks| < LOGSIZE && |ks| < lay.size - 1 && outstanding > 0
      ensures n <= |block| == LOGSIZE
      ensures ok ==>
                && Blocks() == Absorb(ks, old(bc.buf)[b].blockno)
                && bc.Valid() && DirtyIs(bc.buf, Blocks())
                && bc.buf == old(bc.buf)[b := old(bc.buf)[b].(dirty := true)]
    {
      hide Linked, Unique, IsView, Coherent, DirtyIs;
      if n >= LOGSIZE || n >= lay.size - 1 {
        return false;
      }
      if outstanding < 1 {
        return false;
      }
      var k := bc.buf[b].blockno;
      var i := 0;
      while i < n
        invariant i <= n
        invariant forall j | 0 <= j < i :: block[j] != k
      {
        if block[i] == k {
          break;
        }
        i := i + 1;
      }
      assert i < n ==> ks[i] == k;
      assert i == n ==> k !in ks;
      block := block[i := k];
      if i == n {
        n := n + 1;
        assert Blocks() == ks + [k];
      } else {
        assert Blocks() == ks;
      }
      ghost var buf0 := bc.buf;
      bc.MarkDirty(b);
      DirtyAdded(buf0, bc.buf, b, ks, k);
      ok := true;
    }

    /** bread, modify, log_write, brelse. */
    method UpdateBlock(k: Word, data: Block, ghost ks: seq<Word>) returns (ok: bool)
      requires n <= |block| && Ready(ks) && ks == Blocks() && k < |bc.disk| && outstanding > 0
      requires Distinct(Absorb(ks, k))
      modifies this`n, this`block, bc
      ensures ok <==> |ks| < LOGSIZE && |ks| < lay.size - 1 && (k in Busy(ks, held) || |Busy(ks, held)| < NBUF)
      ensures ok ==>
                && n <= |block| && Blocks() == Absorb(ks, k) && Ready(Blocks())
                && k < |old(bc.view)| && bc.view == old(bc.view)[k := data]
                && bc.disk == old(bc.disk) && bc.trace == old(bc.trace)
    {
      hide LogState.InCache, BCache.Valid, Distinct, Busy;
      var b := Take(k, ks, held);
      if b == PANIC {
        return false;
      }
      ok := ModifyBlock(b, k, data, ks);
      if ok {
        Give(b, k, Absorb(ks, k), held);
      }
    }

    /** What happens between the bread and the brelse. */
    method ModifyBlock(b: nat, k: Word, data: Block, ghost ks: seq<Word>) returns (ok: bool)
      requires InCache(ks, Inc(held, k)) && b < NBUF && Caches(bc.buf, b, k) && outstanding > 0 && k < |bc.view|
      requires n <= |block| == LOGSIZE && ks == Blocks()
      modifies this`n, this`block, bc`buf, bc`view
      ensures ok <==> |ks| < LOGSIZE && |ks| < lay.size - 1
      ensures n <= |block| == LOGSIZE
      ensures ok ==>
                && Blocks() == Absorb(ks, k) && InCache(Absorb(ks, k), Inc(held, k)) && Caches(bc.buf, b, k)
                && bc.view == old(bc.view)[k := data]
    {
      ghost var buf0 := bc.buf;
      hide Linked, IsView, Coherent, Unique, DirtyIs, Clean;
      bc.SetData(b, data);
      DirtyKept(buf0, bc.buf, b, ks);
      ok := LogWrite(b, ks);
      if ok {
        RefsKept(buf0, bc.buf, b, Inc(held, k));
        CleanKept(buf0, bc.buf, bc.disk, b);
      }
    }

    /** The use log.c documents, by an operation that stays within its MAXOPBLOCKS blocks.  A block new to the operation
        never finds the log full of entries; the panics left are that of a log area smaller than LOGSIZE + 1 and that of
        a cache full of busy blocks. */
    method LoggedUpdate(ghost o: nat, k: Word, data: Block) returns (ok: bool)
      requires Valid() && o in ops && k < |bc.disk| && !InLog(lay, k)
      requires |ops[o] + {k}| <= MAXOPBLOCKS
      modifies this`n, this`block, this`ops, bc
      ensures ok <==>
                && old(n) < LOGSIZE && old(n) < lay.size - 1
                && (k in Busy(old(Blocks()), held) || |Busy(old(Blocks()), held)| < NBUF)
      ensures k !in old(ops)[o] ==> old(n) < LOGSIZE
      ensures ok ==>
                && Valid()
                && Blocks() == Absorb(old(Blocks()), k)
                && ops == old(ops)[o := old(ops)[o] + {k}]
                && k < |old(bc.view)| && bc.view == old(bc.view)[k := data]
                && bc.disk == old(bc.disk) && bc.trace == old(bc.trace)
    {
      hide LogState.InCache, BCache.Valid, Busy, Distinct, HeaderCount, SameHome, Reserved;
      ghost var ks := Blocks();
      AbsorbLoggable(lay, bc.disk, ks, k);
      AbsorbReserved(ops, ks, o, k);
      HasOp(ops, o);
      ok := UpdateBlock(k, data, ks);
      if ok {
        ops := ops[o := ops[o] + {k}];
      }
    }

    /** bread by a reader who is in no operation, as fileread is not; it may come at any time. */
    method Hold(k: nat) returns (b: int)
      requires Valid() && k < |bc.disk| && !InLog(lay, k)
      modifies this`held, bc`buf, bc`disk, bc`trace
      ensures b == PANIC <==> k !in Busy(Blocks(), old(held)) && |Busy(Blocks(), old(held))| == NBUF
      ensures b != PANIC ==>
                && Valid() && held == Inc(old(held), k) && bc.disk == old(bc.disk) && bc.trace == old(bc.trace)
                && Caches(bc.buf, b, k) && bc.buf[b].data == bc.view[k]
    {
      hide BCache.Valid, LogState.InCache, Busy, Distinct, HeaderCount, SameHome, Reserved, Loggable;
      b := Take(k, Blocks(), held);
      held := Inc(held, k);
    }

    /** brelse by a reader. */
    method LetGo(b: nat, ghost k: nat, ghost h: map<nat, Pos>)
      requires Valid() && held == Inc(h, k) && Caches(bc.buf, b, k)
      modifies this`held, bc`buf, bc`ring, bc`next, bc`prev, bc`released, bc`clock
      ensures Valid() && held == h
    {
      hide BCache.Valid, LogState.InCache, Busy, Distinct, HeaderCount, SameHome, Reserved, Loggable;
      BufferSize(this, b, k);
      GoneFrom(h, k);
      Give(b, k, Blocks(), h);
      held := h;
    }

    /** commit, and the critical section after it.  The commit holds all the updates of whole operations, as no
        operation is running.  A crash during it, at any of its writes, recovers either the home blocks of the last
        commit or the whole logical disk, and the latter exactly from the header write on. */
    method FinishCommit() returns (ok: bool)
      requires Valid() && committing
      modifies this`n, this`block, this`committing, this`durable, bc
      ensures old(ops) == map[]
      ensures ok <==> old(n) == 0 || |Busy(old(Blocks()), held)| < NBUF
      ensures ok ==>
                && Valid() && !committing && n == 0
                && SameHome(lay, durable, old(bc.view))
                && SameHome(lay, bc.disk, old(bc.view))
                && bc.trace == old(bc.trace) + Since(old(bc.trace), bc.trace)
                && |Since(old(bc.trace), bc.trace)| == (if old(n) == 0 then 0 else 2 * old(n) + 2)
                && AllOrNothing(lay, Since(old(bc.trace), bc.trace), old(n), old(durable), old(bc.view))
    {
      hide LogState.InCache, BCache.Valid, Busy, HeaderCount, SameHome, Reserved, Contents, CommitTrace, Recover,
        Loggable, AllOrNothing;
      ghost var ks, disk, view, trace := Blocks(), bc.disk, bc.view, bc.trace;
      LoggedInRange(lay, disk, ks);
      NoOps(ops);
      UnloggedHome(this, ks);
      ok := Commit(ks);
      if !ok {
        return;
      }
      if ks != [] {
        AfterCommit(lay, disk, view, ks);
        CommitOutcome(lay, disk, view, durable, ks);
        assert Since(trace, bc.trace) == CommitTrace(lay, disk, ks, Contents(view, ks));
      } else {
        NoImages(lay, durable, view);
        assert Since(trace, bc.trace) == [];
        NothingLogged(lay, disk, view);
      }
      committing := false;
      durable := bc.disk;
      assert Blocks() == [];
      NothingReserved(lay, bc.disk);
    }
  }

  /** What is needed to use the log from outside. */
  lemma Opened(log: LogState)
    requires log.Valid()
    ensures log.n <= |log.block| && |log.Blocks()| == log.n && Reserved(log.ops, log.Blocks()) && Distinct(log.Blocks())
    ensures |log.bc.disk| == |log.durable|
    ensures log.outstanding == |log.ops| && (log.outstanding == 0 && !log.committing ==> log.n == 0)
  {
  }

  /** The room that begin_op asks for is what the new operation may log. */
  lemma ReservedBegin(ops: map<nat, set<nat>>, blocks: seq<Word>, o: nat)
    requires Reserved(ops, blocks) && o !in ops && |blocks| + (|ops| + 1) * MAXOPBLOCKS <= LOGSIZE
    ensures Reserved(ops[o := {}], blocks) && |ops[o := {}]| == |ops| + 1
  {
    SpentWith(ops, o, {});
  }

  lemma ReservedEnd(ops: map<nat, set<nat>>, blocks: seq<Word>, o: nat)
    requires Reserved(ops, blocks) && o in ops
    ensures Reserved(ops - {o}, blocks) && |ops - {o}| == |ops| - 1
  {
    SpentWithout(ops, o);
    CardWithout(ops, o);
  }

  lemma BufferSize(log: LogState, b: nat, k: nat)
    requires log.Valid() && Caches(log.bc.buf, b, k)
    ensures b < NBUF
  {
  }

  lemma GoneFrom(h: map<nat, Pos>, k: nat)
    ensures forall j | j in h :: j in Inc(h, k)
  {
  }

  /** The images written since the trace was before. */
  ghost function Since(before: seq<Disk>, after: seq<Disk>): seq<Disk> {
    if |before| <= |after| then after[|before|..] else []
  }

  lemma NoImages(lay: Layout, before: Disk, after: Disk)
    ensures AllOrNothing(lay, [], 0, before, after)
  {
  }

  lemma LoggedInRange(lay: Layout, d: Disk, ks: seq<Word>)
    requires Loggable(lay, d, ks)
    ensures InRange(ks, |d|)
  {
  }

  lemma NothingLogged(lay: Layout, d: Disk, view: Disk)
    requires |view| == |d| && forall k: nat | k < |d| :: view[k] == d[k]
    ensures SameHome(lay, d, view)
  {
  }

  lemma NothingReserved(lay: Layout, d: Disk)
    ensures Reserved(map[], []) && SameHome(lay, d, d)
  {
  }

  /** A running operation whose reservation is not used up leaves room in the log. */
  lemma HasRoom(ops: map<nat, set<nat>>, ks: seq<Word>, o: nat)
    requires Reserved(ops, ks) && o in ops && |ops[o]| < MAXOPBLOCKS
    ensures |ks| < LOGSIZE
  {
    SpentWithout(ops, o);
    CardWithout(ops, o);
    SpentBound(ops - {o});
  }

  lemma HasOp(ops: map<nat, set<nat>>, o: nat)
    requires o in ops
    ensures |ops| > 0
  {
    CardWithout(ops, o);
  }

  lemma NoOps(ops: map<nat, set<nat>>)
    requires |ops| == 0
    ensures ops == map[]
  {
    if o :| o in ops {
      HasOp(ops, o);
    }
  }

  lemma AbsorbLoggable(lay: Layout, d: Disk, ks: seq<Word>, k: Word)
    requires Loggable(lay, d, ks) && k < |d| && !InLog(lay, k)
    ensures Distinct(Absorb(ks, k))
    ensures |ks| < LOGSIZE && |ks| < lay.size - 1 ==> Loggable(lay, d, Absorb(ks, k))
  {
  }

  /** Logging a block within an operation's reservation keeps the reservation invariant. */
  lemma AbsorbReserved(ops: map<nat, set<nat>>, ks: seq<Word>, o: nat, k: Word)
    requires Reserved(ops, ks) && o in ops && |ops[o] + {k}| <= MAXOPBLOCKS
    ensures Reserved(ops[o := ops[o] + {k}], Absorb(ks, k))
    ensures k !in ops[o] ==> |ks| < LOGSIZE
  {
    SpentWith(ops, o, ops[o] + {k});
    if k in ops[o] {
      assert ops[o] + {k} == ops[o];
      assert ops[o := ops[o] + {k}] == ops;
    } else {
      assert |ops[o] + {k}| == |ops[o]| + 1;
      HasRoom(ops, ks, o);
    }
  }

  lemma UnloggedHome(log: LogState, ks: seq<Word>)
    requires log.InCache(ks, log.held)
    ensures |log.bc.view| == |log.bc.disk|
    ensures forall k: nat | k < |log.bc.disk| && k !in ks :: log.bc.view[k] == log.bc.disk[k]
  {
    forall k: nat | k < |log.bc.disk| && k !in ks ensures log.bc.view[k] == log.bc.disk[k] {
      CleanBlock(log.bc.buf, log.bc.disk, log.bc.view, ks, k);
    }
  }

  lemma FreshCache(d: Disk, buf: seq<Buf>)
    requires forall i | 0 <= i < |buf| :: buf[i].dev == 0 && !Pinned(buf[i])
    ensures Refs(buf, map[]) && Clean(buf, d) && DirtyIs(buf, [])
  {
  }

  lemma FreshDisk(lay: Layout, d: Disk)
    requires Recoverable(lay, d)
    ensures lay.size > 0 && lay.start + lay.size <= |d|
    ensures Loggable(lay, Recover(lay, d), []) && HeaderCount(Recover(lay, d)[lay.start]) == 0
    ensures Reserved(map[], [])
  {
    FreshHeader(lay, d);
    hide Recover, HeaderBlocks, HeaderCount;
  }

  lemma ViewSize(bc: BCache)
    requires bc.Valid()
    ensures |bc.view| == |bc.disk| && |bc.buf| == NBUF
  {
  }

  /** What a commit makes of the home blocks. */
  lemma AfterCommit(lay: Layout, d: Disk, view: Disk, ks: seq<Word>)
    requires Loggable(lay, d, ks) && |view| == |d|
    requires forall k: nat | k < |d| && k !in ks :: view[k] == d[k]
    ensures var m := Committed(lay, d, ks, Contents(view, ks));
            && Recoverable(lay, m)
            && SameHome(lay, Recover(lay, m), view)
            && HeaderCount(Recover(lay, m)[lay.start]) == 0
            && Loggable(lay, Recover(lay, m), [])
  {
    hide Recover, Committed;
    var data := Contents(view, ks);
    CommittedImage(lay, d, ks, data);
    UpdatedIsView(lay, d, ks, view, Recover(lay, Committed(lay, d, ks, data)));
    FreshHeader(lay, Committed(lay, d, ks, data));
  }

  lemma FreshHeader(lay: Layout, d: Disk)
    requires Recoverable(lay, d)
    ensures HeaderCount(Recover(lay, d)[lay.start]) == 0
  {
    hide Installed;
    HeaderRoundTrip(Installed(d, HeaderBlocks(d[lay.start]), LogData(lay, d), HeaderCount(d[lay.start]))[lay.start],
                    []);
  }

  lemma UpdatedIsView(lay: Layout, d: Disk, ks: seq<Word>, view: Disk, e: Disk)
    requires |view| == |d| && InRange(ks, |d|)
    requires forall k: nat | k < |d| && k !in ks :: view[k] == d[k]
    requires HomeUpdated(lay, d, ks, Contents(view, ks), e)
    ensures SameHome(lay, e, view)
  {
    forall k | 0 <= k < |d| && !InLog(lay, k) ensures e[k] == view[k] {
      if k in ks {
        var i :| 0 <= i < |ks| && ks[i] == k;
        assert Contents(view, ks)[i] == view[k];
      }
    }
  }

  /** What a crash at one of the writes of a commit makes of the home blocks. */
  lemma CrashInCommit(lay: Layout, d: Disk, view: Disk, durable: Disk, ks: seq<Word>, c: nat, cuts: seq<nat>)
    requires Loggable(lay, d, ks) && HeaderCount(d[lay.start]) == 0 && |view| == |d| && 1 <= c <= 2 * |ks| + 2
    requires forall k: nat | k < |d| && k !in ks :: view[k] == d[k]
    requires SameHome(lay, d, durable)
    ensures |CommitTrace(lay, d, ks, Contents(view, ks))| == 2 * |ks| + 2
    ensures var e := CommitTrace(lay, d, ks, Contents(view, ks))[c - 1];
            && Recoverable(lay, e)
            && SameHome(lay, RecoverAfterCrashes(lay, e, cuts), if c <= |ks| then durable else view)
  {
    hide CommitTrace, RecoverAfterCrashes, CommitImage, Recoverable, HeaderCount, Contents;
    var data := Contents(view, ks);
    CommitTraceAt(lay, d, ks, data, c);
    CrashAtomicity(lay, d, ks, data, c, cuts);
    if c > |ks| {
      UpdatedIsView(lay, d, ks, view, RecoverAfterCrashes(lay, CommitImage(lay, d, ks, data, c), cuts));
    }
  }

  /** Whatever crashes follow, the first n images recover to the home blocks of before, the others to those of after. */
  ghost predicate AllOrNothing(lay: Layout, images: seq<Disk>, n: nat, before: Disk, after: Disk) {
    && (forall i, cuts: seq<nat> | 0 <= i < |images| && i < n :: RecoversTo(lay, images[i], cuts, before))
    && (forall i, cuts: seq<nat> | n <= i < |images| :: RecoversTo(lay, images[i], cuts, after))
  }

  /** Recoveries that crash after the given numbers of writes, and then a complete one, give the home blocks of home. */
  ghost predicate RecoversTo(lay: Layout, d: Disk, cuts: seq<nat>, home: Disk) {
    Recoverable(lay, d) && SameHome(lay, RecoverAfterCrashes(lay, d, cuts), home)
  }

  lemma CommitOutcome(lay: Layout, d: Disk, view: Disk, durable: Disk, ks: seq<Word>)
    requires Loggable(lay, d, ks) && HeaderCount(d[lay.start]) == 0 && |view| == |d|
    requires forall k: nat | k < |d| && k !in ks :: view[k] == d[k]
    requires SameHome(lay, d, durable)
    ensures var images := CommitTrace(lay, d, ks, Contents(view, ks));
            |images| == 2 * |ks| + 2 && AllOrNothing(lay, images, |ks|, durable, view)
  {
    hide CommitTrace, RecoverAfterCrashes, Recoverable, HeaderCount, Contents, SameHome;
    var images := CommitTrace(lay, d, ks, Contents(view, ks));
    CrashInCommit(lay, d, view, durable, ks, 1, []);
    forall i, cuts: seq<nat> | 0 <= i < |ks| ensures RecoversTo(lay, images[i], cuts, durable) {
      CrashInCommit(lay, d, view, durable, ks, i + 1, cuts);
    }
    forall i, cuts: seq<nat> | |ks| <= i < |images| ensures RecoversTo(lay, images[i], cuts, view) {
      CrashInCommit(lay, d, view, durable, ks, i + 1, cuts);
    }
  }

  /** Between commits the disk recovers, after any crashes, to what the last commit left. */
  lemma CrashAtRest(lay: Layout, d: Disk, durable: Disk, cuts: seq<nat>)
    requires lay.size > 0 && lay.start + lay.size <= |d| && HeaderCount(d[lay.start]) == 0
    requires SameHome(lay, d, durable)
    ensures RecoversTo(lay, d, cuts, durable)
  {
    hide RecoverAfterCrashes, HeaderCount, Recover;
    EmptyLog(lay, d);
    CrashesDoNotMatter(lay, d, cuts);
  }

  /** The log is complete but for its header. */
  lemma LogStepsCommitted(lay: Layout, d: Disk, ks: seq<Word>, data: seq<Block>, before: seq<Disk>, after: seq<Disk>,
                          disk: Disk)
    requires Loggable(lay, d, ks) && |data| == |ks| && LogSteps(lay, d, data, before, after, disk, |ks|)
    ensures lay.start < |disk| && WithHeader(lay, disk, ks) == Committed(lay, d, ks, data)
  {
  }

  lemma CommitReady(lay: Layout, d: Disk, ks: seq<Word>, data: seq<Block>)
    requires Loggable(lay, d, ks) && |data| == |ks|
    ensures Recoverable(lay, Committed(lay, d, ks, data)) && lay.start < |d|
    ensures HeaderCount(Committed(lay, d, ks, data)[lay.start]) <= LOGSIZE
    ensures HeaderBlocks(Committed(lay, d, ks, data)[lay.start]) == ks
    ensures forall i | 0 <= i < |ks| :: !InLog(lay, ks[i])
  {
    CommittedImage(lay, d, ks, data);
  }

  /** The log block for a logged block is not itself logged. */
  lemma LogPlace(lay: Layout, d: Disk, ks: seq<Word>, tail: nat)
    requires Loggable(lay, d, ks) && tail < |ks|
    ensures InLog(lay, lay.start + tail + 1) && lay.start + tail + 1 < |d|
    ensures lay.start + tail + 1 !in ks && ks[tail] in ks && ks[tail] < |d| && ks[tail] != lay.start + tail + 1
    ensures forall k | k in ks[tail..] :: k in ks
  {
  }

  lemma RoundData(lay: Layout, d: Disk, view: Disk, view': Disk, ks: seq<Word>, tail: nat)
    requires Loggable(lay, d, ks) && |view| == |d| && SameHome(lay, view, view') && tail < |ks|
    ensures InRange(ks, |view|) && ks[tail] < |view'| && Contents(view, ks)[tail] == view'[ks[tail]]
  {
  }

  lemma SameHomeTrans(lay: Layout, a: Disk, b: Disk, c: Disk)
    requires SameHome(lay, a, b)
    ensures SameHome(lay, b, c) ==> SameHome(lay, a, c) && |c| == |a|
  {
  }

  lemma RestDistinct(ks: seq<Word>)
    requires Distinct(ks)
    ensures Distinct(Rest(ks))
  {
  }

  ghost predicate InRange(ks: seq<Word>, size: nat) {
    forall i | 0 <= i < |ks| :: ks[i] < size
  }

  /** The contents of the blocks ks on a disk. */
  ghost function Contents(d: Disk, ks: seq<Word>): (r: seq<Block>)
    requires InRange(ks, |d|)
    ensures |r| == |ks|
  {
    seq(|ks|, i requires 0 <= i < |ks| => d[ks[i]])
  }

  lemma LogWriteKeepsHome(lay: Layout, d: Disk, k: nat, data: Block)
    requires k < |d| && InLog(lay, k)
    ensures SameHome(lay, d, d[k := data])
  {
  }

  /** The trace has grown by the first t log writes, the last of which left disk. */
  ghost predicate LogSteps(lay: Layout, d: Disk, data: seq<Block>, before: seq<Disk>, after: seq<Disk>, disk: Disk,
                           t: nat) {
    && t <= |data| < lay.size && lay.start + lay.size <= |d|
    && disk == Logged(lay, d, data, t)
    && after == before + LogTrace(lay, d, data, t)
  }

  lemma LogSteps0(lay: Layout, d: Disk, ks: seq<Word>, view: Disk, before: seq<Disk>)
    requires Loggable(lay, d, ks) && |view| == |d|
    ensures InRange(ks, |view|) && LogSteps(lay, d, Contents(view, ks), before, before, d, 0)
    ensures SameHome(lay, view, view)
  {
    assert before + [] == before;
  }

  lemma LogStep(lay: Layout, d: Disk, data: seq<Block>, before: seq<Disk>, after: seq<Disk>, disk: Disk, t: nat)
    requires LogSteps(lay, d, data, before, after, disk, t) && t < |data|
    ensures lay.start + t + 1 < |disk|
    ensures var disk' := disk[lay.start + t + 1 := data[t]];
            LogSteps(lay, d, data, before, after + [disk'], disk', t + 1)
  {
    var disk' := disk[lay.start + t + 1 := data[t]];
    assert (before + LogTrace(lay, d, data, t)) + [disk'] == before + (LogTrace(lay, d, data, t) + [disk']);
  }

  /** The trace has grown by the first t installs, the last of which left disk. */
  ghost predicate InstallSteps(d: Disk, blocks: seq<Word>, data: seq<Block>, before: seq<Disk>, after: seq<Disk>,
                               disk: Disk, t: nat) {
    && t <= |blocks| == |data|
    && (forall i | 0 <= i < |blocks| :: blocks[i] < |d|)
    && disk == Installed(d, blocks, data, t)
    && after == before + InstallTrace(d, blocks, data, t)
  }

  lemma InstallSteps0(lay: Layout, d: Disk, blocks: seq<Word>, data: seq<Block>, before: seq<Disk>)
    requires |blocks| == |data| && Loggable(lay, d, blocks)
    ensures InstallSteps(d, blocks, data, before, before, d, 0)
  {
    assert before + [] == before;
  }

  /** The log's data blocks hold data. */
  ghost predicate InLogBlocks(lay: Layout, d: Disk, data: seq<Block>) {
    lay.start + 1 + |data| <= |d| && data == d[lay.start + 1..lay.start + 1 + |data|]
  }

  lemma LogDataThere(lay: Layout, d: Disk)
    requires Recoverable(lay, d)
    ensures InLogBlocks(lay, d, LogData(lay, d)) && Loggable(lay, d, HeaderBlocks(d[lay.start]))
  {
  }

  lemma InstallSource(lay: Layout, d: Disk, blocks: seq<Word>, data: seq<Block>, before: seq<Disk>, after: seq<Disk>,
                      disk: Disk, t: nat)
    requires InstallSteps(d, blocks, data, before, after, disk, t) && t < |blocks| && Loggable(lay, d, blocks)
    requires InLogBlocks(lay, d, data)
    ensures disk[lay.start + t + 1] == data[t]
  {
    assert InLog(lay, lay.start + t + 1);
    InstalledElsewhere(d, blocks, data, t, lay.start + t + 1);
  }

  lemma InstallStep(d: Disk, blocks: seq<Word>, data: seq<Block>, before: seq<Disk>, after: seq<Disk>, disk: Disk,
                    t: nat)
    requires InstallSteps(d, blocks, data, before, after, disk, t) && t < |blocks|
    ensures blocks[t] < |disk|
    ensures var disk' := disk[blocks[t] := data[t]];
            InstallSteps(d, blocks, data, before, after + [disk'], disk', t + 1)
  {
    var disk' := disk[blocks[t] := data[t]];
    assert (before + InstallTrace(d, blocks, data, t)) + [disk']
        == before + (InstallTrace(d, blocks, data, t) + [disk']);
  }

  lemma Finished(lay: Layout, d: Disk, before: seq<Disk>, mid: seq<Disk>, e: Disk)
    requires Recoverable(lay, d)
    requires var blocks := HeaderBlocks(d[lay.start]);
             InstallSteps(d, blocks, LogData(lay, d), before, mid, e, |blocks|)
    ensures WithHeader(lay, e, []) == Recover(lay, d)
    ensures mid + [Recover(lay, d)] == before + RecoveryTrace(lay, d)
  {
    hide Installed, InstallTrace, HeaderBlocks, LogData, WithHeader;
    assert Recoverable(lay, d);
    var blocks := HeaderBlocks(d[lay.start]);
    assert (before + InstallTrace(d, blocks, LogData(lay, d), |blocks|)) + [Recover(lay, d)]
        == before + (InstallTrace(d, blocks, LogData(lay, d), |blocks|) + [Recover(lay, d)]);
  }

  lemma Associate(a: seq<Disk>, b: seq<Disk>, m: Disk, c: seq<Disk>)
    ensures (a + b) + [m] + c == a + (b + [m] + c)
  {
  }

  lemma CommitFinished(lay: Layout, d: Disk, blocks: seq<Word>, data: seq<Block>, before: seq<Disk>, mid: seq<Disk>,
                       e: Disk)
    requires Loggable(lay, d, blocks) && |data| == |blocks|
    requires LogSteps(lay, d, data, before, mid, e, |blocks|)
    requires Recoverable(lay, Committed(lay, d, blocks, data))
    ensures mid + [Committed(lay, d, blocks, data)] + RecoveryTrace(lay, Committed(lay, d, blocks, data))
         == before + CommitTrace(lay, d, blocks, data)
  {
    hide Committed, Logged, LogTrace, RecoveryTrace, Recoverable, Loggable;
    var m := Committed(lay, d, blocks, data);
    var l, r := LogTrace(lay, d, data, |data|), RecoveryTrace(lay, m);
    Associate(before, l, m, r);
  }

  /** Log absorption: a block is listed once. */
  function Absorb(ks: seq<Word>, k: Word): seq<Word> {
    if k in ks then ks else ks + [k]
  }

  // ---- reservations ---------------------------------------------------------------------------------------

  ghost function Pick(ops: map<nat, set<nat>>): (o: nat)
    requires |ops| > 0
    ensures o in ops
  {
    assert |ops.Keys| > 0;
    var o :| o in ops.Keys;
    o
  }

  /** Log entries that the operations have used of their reservations, counting a block once for each of them. */
  ghost function Spent(ops: map<nat, set<nat>>): nat
    decreases |ops|
  {
    if |ops| == 0 then 0
    else
      CardWithout(ops, Pick(ops));
      |ops[Pick(ops)]| + Spent(ops - {Pick(ops)})
  }

  lemma {:induction false} SpentWithout(ops: map<nat, set<nat>>, o: nat)
    requires o in ops
    ensures Spent(ops) == |ops[o]| + Spent(ops - {o})
    decreases |ops|
  {
    var p := Pick(ops);
    CardWithout(ops, p);
    CardWithout(ops, o);
    if p != o {
      SpentWithout(ops - {p}, o);
      SpentWithout(ops - {o}, p);
      TwoWithout(ops, p, o);
    }
  }

  lemma TwoWithout(ops: map<nat, set<nat>>, p: nat, o: nat)
    ensures ops - {p} - {o} == ops - {o} - {p}
  {
  }

  lemma CardWithout(ops: map<nat, set<nat>>, o: nat)
    requires o in ops
    ensures |ops - {o}| == |ops| - 1
  {
    assert (ops - {o}).Keys == ops.Keys - {o};
    assert |(ops - {o}).Keys| == |ops.Keys| - 1;
  }

  lemma SpentWith(ops: map<nat, set<nat>>, o: nat, s: set<nat>)
    ensures Spent(ops[o := s]) == Spent(ops) + |s| - (if o in ops then |ops[o]| else 0)
    ensures |ops[o := s]| == |ops| + (if o in ops then 0 else 1)
  {
    hide Spent;
    SpentWithout(ops[o := s], o);
    CardWithout(ops[o := s], o);
    if o in ops {
      SpentWithout(ops, o);
      CardWithout(ops, o);
      assert ops[o := s] - {o} == ops - {o};
    } else {
      assert ops[o := s] - {o} == ops;
    }
  }

  /** The reservation invariant: what is logged, plus what the running operations may still log, fits the log. */
  ghost predicate Reserved(ops: map<nat, set<nat>>, blocks: seq<Word>) {
    && |blocks| + MAXOPBLOCKS * |ops| <= LOGSIZE + Spent(ops)
    && forall o | o in ops :: |ops[o]| <= MAXOPBLOCKS && forall k | k in ops[o] :: k in blocks
  }

  lemma {:induction false} SpentBound(ops: map<nat, set<nat>>)
    requires forall o | o in ops :: |ops[o]| <= MAXOPBLOCKS
    ensures Spent(ops) <= MAXOPBLOCKS * |ops|
    decreases |ops|
  {
    if |ops| > 0 {
      var o :| o in ops;
      SpentWithout(ops, o);
      SpentBound(ops - {o});
    }
  }

  /** The blocks from a to b. */
  function Numbers(a: Word, b: Word): seq<Word>
    requires a <= b
  {
    seq(b - a, i requires 0 <= i < b - a => a + i)
  }

  ghost function NumberSet(a: Word, b: Word): set<nat>
    requires a <= b
  {
    set k: nat | k in Numbers(a, b)
  }

  lemma InNumberSet(a: Word, b: Word, k: nat)
    requires a <= b
    ensures k in NumberSet(a, b) <==> a <= k < b
  {
    if a <= k < b {
      assert Numbers(a, b)[k - a] == k;
    }
  }

  lemma {:induction false} NumberSetSize(a: Word, b: Word)
    requires a <= b
    ensures |NumberSet(a, b)| == b - a
    ensures forall k: nat :: k in NumberSet(a, b) <==> a <= k < b
    decreases b - a
  {
    hide NumberSet, Numbers;
    forall k: nat ensures k in NumberSet(a, b) <==> a <= k < b {
      InNumberSet(a, b, k);
    }
    if a < b {
      NumberSetSize(a, b - 1);
      assert NumberSet(a, b) == NumberSet(a, b - 1) + {b - 1};
    } else {
      assert NumberSet(a, b) == {};
    }
  }

  /** Three operations that have logged spent blocks between them. */
  lemma ThreeOps(spent: nat) returns (ops: map<nat, set<nat>>, ks: seq<Word>)
    requires 20 <= spent <= LOGSIZE
    ensures |ks| == spent && Distinct(ks) && Reserved(ops, ks)
    ensures 2 in ops && |ops[2]| == spent - 20 && forall k | k in ks :: 100 <= k < 100 + spent
    ensures spent > 20 ==> 120 in ops[2]
  {
    var s0, s1, s2 := NumberSet(100, 110), NumberSet(110, 120), NumberSet(120, 100 + spent);
    NumberSetSize(100, 110);
    NumberSetSize(110, 120);
    NumberSetSize(120, 100 + spent);
    NumberSetSize(100, 100 + spent);
    ks := Numbers(100, 100 + spent);
    assert forall k: nat | k in NumberSet(100, 100 + spent) :: k in ks;
    assert forall k: nat | k in s0 || k in s1 || k in s2 :: k in NumberSet(100, 100 + spent);
    ops := ThreeSets(s0, s1, s2, ks);
  }

  lemma ThreeSets(s0: set<nat>, s1: set<nat>, s2: set<nat>, ks: seq<Word>) returns (ops: map<nat, set<nat>>)
    requires |s0| == |s1| == MAXOPBLOCKS && |s2| <= MAXOPBLOCKS && |ks| == |s0| + |s1| + |s2|
    requires forall k: nat | k in s0 || k in s1 || k in s2 :: k in ks
    ensures ops == map[0 := s0, 1 := s1, 2 := s2] && Reserved(ops, ks)
  {
    SpentWith(map[], 0, s0);
    SpentWith(map[0 := s0], 1, s1);
    SpentWith(map[0 := s0][1 := s1], 2, s2);
    hide Spent;
    ops := map[0 := s0][1 := s1][2 := s2];
  }

  /** When the second test of log_write's panic guard keeps the promise of begin_op: no operation that has logged fewer
      than MAXOPBLOCKS blocks ever finds the log area full, exactly if the area holds more than LOGSIZE blocks.  mkfs
      makes it LOGSIZE blocks. */
  lemma PromiseKept(size: nat)
    ensures (forall ops, ks, o | Reserved(ops, ks) && o in ops && |ops[o]| < MAXOPBLOCKS :: |ks| < size - 1)
            <==> size > LOGSIZE
  {
    if size > LOGSIZE {
      forall ops, ks, o | Reserved(ops, ks) && o in ops && |ops[o]| < MAXOPBLOCKS ensures |ks| < size - 1 {
        HasRoom(ops, ks, o);
      }
    } else {
      var ops, ks := ThreeOps(29);
      assert Reserved(ops, ks) && 2 in ops && |ops[2]| < MAXOPBLOCKS;
    }
  }

  lemma FewerBusy(ks: seq<Word>, held: map<nat, Pos>)
    ensures |Busy(Rest(ks), held)| <= |Busy(ks, held)|
  {
    assert Busy(ks, held) == Busy(Rest(ks), held) + (Busy(ks, held) - Busy(Rest(ks), held));
  }

  ghost function Rest(ks: seq<Word>): seq<Word> {
    if ks == [] then [] else ks[1..]
  }

  lemma FlagCleared(buf: seq<Buf>, buf': seq<Buf>, b: nat, k: nat, ks: seq<Word>)
    requires DirtyIs(buf, ks) && b < |buf| == |buf'| && Caches(buf, b, k) && forall i | Caches(buf, i, k) :: i == b
    requires buf' == buf[b := buf[b].(data := buf'[b].data, dirty := false)]
    requires ks == [] || k !in ks || (k == ks[0] && Distinct(ks))
    ensures DirtyIs(buf', if k in ks then ks[1..] else ks)
  {
    if k !in ks {
      DirtyKept(buf, buf', b, ks);
    } else {
      var buf1 := buf[b := buf[b].(data := buf'[b].data)];
      DirtyKept(buf, buf1, b, ks);
      assert forall i | Caches(buf1, i, k) :: Caches(buf, i, k);
      DirtyCleared(buf1, buf', b, ks);
    }
  }

  lemma OnlyHere(buf: seq<Buf>, b: nat, k: nat)
    requires Unique(buf) && Caches(buf, b, k)
    ensures forall i | Caches(buf, i, k) :: i == b
  {
  }

  lemma TakenDirty(buf: seq<Buf>, buf': seq<Buf>, b: nat, k: nat, ks: seq<Word>)
    requires DirtyIs(buf, ks) && Unique(buf) && Unique(buf') && b < |buf| == |buf'| && buf' == buf[b := buf'[b]]
    requires Caches(buf', b, k)
    requires if Caches(buf, b, k) then buf'[b].dirty == buf[b].dirty
             else !Cached(buf, k) && !Pinned(buf[b]) && !buf'[b].dirty
    ensures DirtyIs(buf', ks) && (buf'[b].dirty <==> k in ks)
    ensures forall i | Caches(buf', i, k) :: i == b
    ensures Cached(buf, k) ==> Caches(buf, b, k)
  {
    if k in ks {
      DirtyCached(buf, ks, k);
    }
    DirtyKept(buf, buf', b, ks);
    OnlyHere(buf', b, k);
    if i :| Caches(buf, i, k) {
      assert i != b ==> Caches(buf', i, k);
    }
  }

  /** With the log block in hand, the home block is dirty in the cache, or the cache is all but empty. */
  lemma SecondBread(ks: seq<Word>, held: map<nat, Pos>, log: nat, home: nat)
    requires log !in ks && log !in held && (home in ks || (ks == [] && held == map[]))
    ensures log !in Busy(ks, held) && (home in Busy(ks, Inc(held, log)) || |Busy(ks, Inc(held, log))| < NBUF)
  {
    if ks == [] && held == map[] {
      assert Busy(ks, Inc(held, log)) == {log};
    }
  }}
