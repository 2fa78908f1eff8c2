/** Runs of the log, from boot on, that end in a panic of the kernel. */
module LogRuns {
  import opened Blocks
  import opened BufferCache
  import opened Log
  import opened Params
  import opened Redo

  /** What holds after t blocks have been logged, ten by each of three operations in turn. */
  ghost predicate Shares(ops: map<nat, set<nat>>, blocks: seq<Word>, first: Word, t: nat) {
    && first + t < 0x1_0000_0000 && blocks == Numbers(first, first + t)
    && ops.Keys == {0, 1, 2}
    && (forall o | o in ops :: |ops[o]| == Share(o, t))
    && (t > 20 ==> first + 20 in ops[2])
  }

  function Share(o: nat, t: nat): nat {
    if t <= 10 * o then 0 else if t < 10 * o + 10 then t - 10 * o else 10
  }

  lemma AllNumbers(first: Word, t: nat)
    requires first + t < 0x1_0000_0000
    ensures |Numbers(first, first + t)| == t && Distinct(Numbers(first, first + t))
    ensures first + t !in Numbers(first, first + t)
    ensures t > 0 ==> first + (t - 1) in Numbers(first, first + t)
  {
    assert t > 0 ==> Numbers(first, first + t)[t - 1] == first + (t - 1);
  }

  lemma NewToAll(ops: map<nat, set<nat>>, blocks: seq<Word>, first: Word, t: nat)
    requires Reserved(ops, blocks) && first + t < 0x1_0000_0000 && blocks == Numbers(first, first + t)
    ensures forall o | o in ops :: first + t !in ops[o]
  {
    AllNumbers(first, t);
  }

  lemma NoShares(ops: map<nat, set<nat>>, blocks: seq<Word>, first: Word)
    requires ops == map[0 := {}, 1 := {}, 2 := {}] && blocks == []
    ensures Shares(ops, blocks, first, 0)
  {
  }

  lemma NextNumber(first: Word, t: nat)
    requires first + t + 1 < 0x1_0000_0000
    ensures Absorb(Numbers(first, first + t), first + t) == Numbers(first, first + (t + 1))
  {
    AllNumbers(first, t);
  }

  lemma NextShare(ops: map<nat, set<nat>>, blocks: seq<Word>, first: Word, t: nat, o: nat)
    requires Shares(ops, blocks, first, t) && Reserved(ops, blocks) && t < LOGSIZE && first + t + 1 < 0x1_0000_0000
    requires 10 * o <= t < 10 * o + 10
    ensures o in ops && |ops[o] + {first + t}| <= MAXOPBLOCKS
    ensures Shares(ops[o := ops[o] + {first + t}], Absorb(blocks, first + t), first, t + 1)
  {
    hide Reserved, Absorb, Numbers;
    NewToAll(ops, blocks, first, t);
    NextNumber(first, t);
    assert o in {0, 1, 2};
    assert |ops[o] + {first + t}| == |ops[o]| + 1;
  }

  lemma LoggedSoFar(ops: map<nat, set<nat>>, blocks: seq<Word>, first: Word, t: nat)
    requires Shares(ops, blocks, first, t)
    ensures |blocks| == t && first + t < 0x1_0000_0000 && ops.Keys == {0, 1, 2}
    ensures t > 20 ==> first + 20 in ops[2] && |ops[2] + {first + 20}| == Share(2, t)
  {
    assert t > 20 ==> ops[2] + {first + 20} == ops[2];
  }

  /** A disk to boot from, with room for LOGSIZE + 1 blocks behind the log. */
  ghost predicate Bootable(lay: Layout, bc: BCache)
    reads bc
  {
    && bc.Valid() && bc.trace == [bc.disk] && Recoverable(lay, bc.disk)
    && (forall i | 0 <= i < |bc.buf| :: bc.buf[i].dev == 0 && !Pinned(bc.buf[i]))
    && lay.start + lay.size + LOGSIZE < |bc.disk| < 0x1_0000_0000
  }

  /** A log in which three operations have logged t of the blocks right behind it. */
  ghost predicate Filled(log: LogState, t: nat)
    reads log, log.bc
  {
    && log.Valid() && log.held == map[] && !log.committing
    && log.lay.start + log.lay.size + LOGSIZE < |log.bc.disk| < 0x1_0000_0000
    && Shares(log.ops, log.Blocks(), log.lay.start + log.lay.size, t)
  }

  /** Boot, and three times begin_op. */
  method Boot(lay: Layout, bc: BCache) returns (log: LogState)
    requires Bootable(lay, bc)
    modifies bc
    ensures fresh(log) && log.lay == lay && log.bc == bc && Filled(log, 0)
  {
    hide BCache.Valid, LogState.Valid, LogState.Blocks, HeaderCount, SameHome, Recover, RecoveryTrace, Recoverable,
      Shares;
    BootSize(lay, bc);
    log := new LogState(lay, bc);
    SameSize(lay, log.durable, Recover(lay, old(bc.disk)));
    Opened(log);
    BeginThree(log);
  }

  method BeginThree(log: LogState)
    requires log.Valid() && log.ops == map[] && !log.committing
    requires log.lay.start + log.lay.size + LOGSIZE < |log.bc.disk| < 0x1_0000_0000
    modifies log`outstanding, log`ops
    ensures log.Valid() && Shares(log.ops, log.Blocks(), log.lay.start + log.lay.size, 0)
  {
    hide BCache.Valid, LogState.Valid, LogState.Blocks, Shares, Reserved;
    Opened(log);
    var a0 := log.BeginOp(0);
    Opened(log);
    var a1 := log.BeginOp(1);
    Opened(log);
    var a2 := log.BeginOp(2);
    Opened(log);
    NoShares(log.ops, log.Blocks(), log.lay.start + log.lay.size);
  }

  lemma SameSize(lay: Layout, d: Disk, e: Disk)
    requires SameHome(lay, d, e)
    ensures |d| == |e|
  {
  }

  lemma BootSize(lay: Layout, bc: BCache)
    requires Bootable(lay, bc)
    ensures Recoverable(lay, bc.disk) && |Recover(lay, bc.disk)| == |bc.disk|
  {
  }

  /** The next block is logged; there is a panic exactly when the log area is full. */
  method LogNext(log: LogState, t: nat) returns (ok: bool)
    requires Filled(log, t) && t < LOGSIZE
    modifies log, log.bc
    ensures ok <==> t < log.lay.size - 1
    ensures ok ==> Filled(log, t + 1)
  {
    hide BCache.Valid, LogState.Valid, LogState.Blocks, HeaderCount, SameHome, Busy, Reserved, Distinct, Shares,
      Absorb, Numbers;
    Opened(log);
    var first := log.lay.start + log.lay.size;
    LoggedSoFar(log.ops, log.Blocks(), first, t);
    ghost var o, ops, blocks := t / 10, log.ops, log.Blocks();
    NextShare(ops, blocks, first, t, o);
    BusyAlone(blocks);
    ok := log.LoggedUpdate(o, first + t, ZERO_BLOCK);
    if ok {
      Opened(log);
      assert log.ops == ops[o := ops[o] + {first + t}];
      assert log.Blocks() == Absorb(blocks, first + t);
      assert Shares(log.ops, log.Blocks(), first, t + 1);
    }
  }

  method FillLog(log: LogState, m: nat) returns (ok: bool, t: nat)
    requires Filled(log, 0) && m <= LOGSIZE
    modifies log, log.bc
    ensures ok <==> m < log.lay.size || m == 0
    ensures if ok then t == m && Filled(log, m) else t < m
  {
    hide Filled;
    t, ok := 0, true;
    while t < m
      invariant t <= m && Filled(log, t) && (t > 0 ==> t < log.lay.size)
    {
      ok := LogNext(log, t);
      if !ok {
        return;
      }
      t := t + 1;
    }
  }

  /** The three operations end, and the last of them is to commit. */
  method EndThree(log: LogState)
    requires log.Valid() && log.ops.Keys == {0, 1, 2}
    modifies log`outstanding, log`ops, log`committing
    ensures log.Valid() && log.committing
  {
    hide BCache.Valid, LogState.Valid, LogState.Blocks, Reserved, Distinct;
    var p0, c0 := log.EndOp(0);
    var p1, c1 := log.EndOp(1);
    var p2, c2 := log.EndOp(2);
    Opened(log);
    NoKeys(log.ops);
  }

  method EndAll(log: LogState, ghost t: nat)
    requires Filled(log, t)
    modifies log`outstanding, log`ops, log`committing
    ensures log.Valid() && log.committing && log.n == t && log.n <= |log.block| && log.held == map[]
    ensures ToCommit(log.Blocks(), log.lay.start + log.lay.size + t, t)
  {
    hide BCache.Valid, LogState.Valid, LogState.Blocks, ToCommit, Shares, Reserved, Distinct;
    Opened(log);
    LoggedSoFar(log.ops, log.Blocks(), log.lay.start + log.lay.size, t);
    NotLogged(log.ops, log.Blocks(), log.lay.start + log.lay.size, t);
    EndThree(log);
  }

  /** There are t blocks to be committed, and k is not among them. */
  ghost predicate ToCommit(ks: seq<Word>, k: nat, t: nat) {
    |ks| == t && Distinct(ks) && k !in ks
  }

  lemma NotLogged(ops: map<nat, set<nat>>, blocks: seq<Word>, first: Word, t: nat)
    requires Shares(ops, blocks, first, t)
    ensures ToCommit(blocks, first + t, t)
  {
    AllNumbers(first, t);
  }

  lemma NoKeys(ops: map<nat, set<nat>>)
    requires ops.Keys == {}
    ensures |ops| == 0
  {
  }

  /** From boot on any disk, however large its log: an operation within its reservation meets the panic when it logs a
      block again, which would take no log entry. */
  method RelogPanics(lay: Layout, bc: BCache) returns (log: LogState, ghost ops: map<nat, set<nat>>, k: Word, ok: bool)
    requires Bootable(lay, bc) && lay.size > LOGSIZE
    modifies bc
    ensures 2 in ops && k in ops[2] && |ops[2] + {k}| <= MAXOPBLOCKS && !ok
  {
    hide BCache.Valid, LogState.Valid, LogState.Blocks, Busy, HeaderCount, SameHome, Bootable, Shares, Absorb;
    log := Boot(lay, bc);
    var filled, t := FillLog(log, LOGSIZE);
    Opened(log);
    LoggedSoFar(log.ops, log.Blocks(), lay.start + lay.size, LOGSIZE);
    k := lay.start + lay.size + 20;
    ops := log.ops;
    ok := log.LoggedUpdate(2, k, ZERO_BLOCK);
  }

  /** The disk that mkfs makes has a log of LOGSIZE blocks.  Operations that log 29 blocks, with one more block in the
      hands of a reader who is in no operation, make the commit panic. */
  method ReaderPanics(lay: Layout, bc: BCache) returns (log: LogState, b: int, ok: bool)
    requires Bootable(lay, bc) && lay.size == LOGSIZE
    modifies bc
    ensures b != PANIC && !ok
  {
    hide BCache.Valid, LogState.Valid, LogState.Blocks, Busy, Bootable, ToCommit, Since, AllOrNothing, SameHome,
      Shares, Inc;
    log := Boot(lay, bc);
    var filled, t := FillLog(log, 29);
    Opened(log);
    EndAll(log, 29);
    BusyToCommit(log.Blocks(), lay.start + lay.size + 29, 29);
    b := log.Hold(lay.start + lay.size + 29);
    ok := log.FinishCommit();
  }

  lemma BusyToCommit(ks: seq<Word>, k: nat, t: nat)
    requires ToCommit(ks, k, t)
    ensures |Busy(ks, map[])| == t && |Busy(ks, Inc(map[], k))| == t + 1
  {
    BusyAlone(ks);
    assert Busy(ks, Inc(map[], k)) == Busy(ks, map[]) + {k};
  }

  /** No log is large enough and yet not too large.  With at most LOGSIZE blocks, an operation within its reservation is
      refused a block that is new to it; with more, LOGSIZE blocks can be logged, and then they fill the cache and the
      commit panics. */
  method NoSizeIsSafe(lay: Layout, bc: BCache) returns (log: LogState, logged: bool, committed: bool)
    requires Bootable(lay, bc)
    modifies bc
    ensures logged <==> lay.size > LOGSIZE
    ensures !committed
  {
    hide BCache.Valid, LogState.Valid, LogState.Blocks, Busy, Bootable, ToCommit, Since, AllOrNothing, SameHome,
      Shares, Inc;
    log := Boot(lay, bc);
    committed := false;
    var t;
    logged, t := FillLog(log, LOGSIZE);
    if logged {
      EndAll(log, LOGSIZE);
      BusyToCommit(log.Blocks(), lay.start + lay.size + LOGSIZE, LOGSIZE);
      committed := log.FinishCommit();
    }
  }
}
