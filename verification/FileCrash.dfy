/** filewrite on top of the log, from the bytes of a file down to the writes of the disk.  The packing of the free map
    and of inodes into blocks may be any that puts 4096 bits, or 8 inodes, in a block. */
module FileCrash {
  import opened Blocks
  import opened BlockMap
  import opened BufferCache
  import opened FileBlocks
  import opened Log
  import opened Params
  import opened Redo

  datatype Coding = Coding(bits: seq<bool> -> Block, table: seq<Inode> -> Block)

  /** Where things are on the disk, as the superblock has it; boot is the disk as mkfs made it. */
  datatype Geometry = Geometry(lay: Layout, bmapstart: nat, inodestart: nat, meta: nat, boot: Disk)

  /** How many groups of n it takes. */
  function Groups(count: nat, n: nat): nat
    requires n > 0
  {
    (count + n - 1) / n
  }

  /** The j-th n elements. */
  function Slice<T>(s: seq<T>, n: nat, j: nat): seq<T> {
    if n * j + n <= |s| then s[n * j..n * j + n] else if n * j <= |s| then s[n * j..] else []
  }

  predicate InBits(g: Geometry, img: Image, b: nat) {
    g.bmapstart <= b < g.bmapstart + Groups(|img.bits|, BPB)
  }

  predicate InTable(g: Geometry, img: Image, b: nat) {
    g.inodestart <= b < g.inodestart + Groups(|img.table|, IPB)
  }

  /** Block b of the disk that holds the image. */
  function BlockIn(c: Coding, g: Geometry, img: Image, b: nat): Block
    requires b < |g.boot| == |img.store|
  {
    if b >= g.meta then img.store[b]
    else if InBits(g, img, b) then c.bits(Slice(img.bits, BPB, b - g.bmapstart))
    else if InTable(g, img, b) then c.table(Slice(img.table, IPB, b - g.inodestart))
    else g.boot[b]
  }

  function Encode(c: Coding, g: Geometry, img: Image): (d: Disk)
    requires |g.boot| == |img.store|
    ensures |d| == |g.boot| && forall b: nat | b < |d| :: d[b] == BlockIn(c, g, img, b)
  {
    seq(|g.boot|, b requires 0 <= b < |g.boot| => BlockIn(c, g, img, b))
  }

  /** The log, the free map and the inodes lie before the data, and apart from each other. */
  ghost predicate Apart(g: Geometry, img: Image) {
    && |img.store| == |img.bits| == |g.boot| < 0x1_0000_0000
    && g.lay.start + g.lay.size <= g.meta
    && g.bmapstart + Groups(|img.bits|, BPB) <= g.meta && g.inodestart + Groups(|img.table|, IPB) <= g.meta
    && (forall b: nat | InLog(g.lay, b) :: !InBits(g, img, b) && !InTable(g, img, b))
    && (forall b: nat | InBits(g, img, b) :: !InTable(g, img, b))
  }

  /** What a packing of n things in a block must not do: lose any. */
  ghost predicate Lossless<T(!new)>(pack: seq<T> -> Block, n: nat) {
    forall s: seq<T>, t: seq<T> | |s| == |t| <= n && pack(s) == pack(t) :: s == t
  }

  lemma SameElements<T(!new)>(pack: seq<T> -> Block, s: seq<T>, t: seq<T>, n: nat)
    requires n > 0 && |s| == |t| && Lossless(pack, n)
    requires forall j: nat | j < Groups(|s|, n) :: pack(Slice(s, n, j)) == pack(Slice(t, n, j))
    ensures s == t
  {
    hide Slice, Groups, Lossless;
    forall i: nat | i < |s| ensures s[i] == t[i] {
      SameElement(pack, s, t, n, i, i / n);
    }
  }

  lemma SameElement<T(!new)>(pack: seq<T> -> Block, s: seq<T>, t: seq<T>, n: nat, i: nat, j: nat)
    requires n > 0 && i < |s| == |t| && j == i / n && Lossless(pack, n)
    requires j < Groups(|s|, n) ==> pack(Slice(s, n, j)) == pack(Slice(t, n, j))
    ensures s[i] == t[i]
  {
    hide Slice, Groups, Lossless;
    GroupOf(i, |s|, n, j);
    SliceAt(s, n, i, j);
    SliceAt(t, n, i, j);
    Unpacked(pack, Slice(s, n, j), Slice(t, n, j), n);
  }

  lemma Unpacked<T(!new)>(pack: seq<T> -> Block, s: seq<T>, t: seq<T>, n: nat)
    requires Lossless(pack, n) && |s| == |t| <= n && pack(s) == pack(t)
    ensures s == t
  {
  }

  lemma GroupOf(i: nat, count: nat, n: nat, j: nat)
    requires i < count && n > 0 && j == i / n
    ensures n * j <= i < n * j + n && j < Groups(count, n)
  {
    var g := Groups(count, n);
    assert i == n * j + i % n && count + n - 1 == n * g + (count + n - 1) % n;
    OneMore(n, g, j);
  }

  lemma SliceAt<T>(s: seq<T>, n: nat, i: nat, j: nat)
    requires n * j <= i < n * j + n && i < |s|
    ensures |Slice(s, n, j)| == Min(n, |s| - n * j) && i - n * j < |Slice(s, n, j)| && Slice(s, n, j)[i - n * j] == s[i]
  {
  }

  /** Nothing of an image is lost on the disk: two images of a size that give one disk have the same free map, inodes
      and data. */
  lemma EncodeLosesNothing(c: Coding, g: Geometry, a: Image, b: Image)
    requires Lossless(c.bits, BPB) && Lossless(c.table, IPB)
    requires Apart(g, a) && Apart(g, b) && g.meta <= |g.boot| && |a.table| == |b.table|
    requires Encode(c, g, a) == Encode(c, g, b)
    ensures a.bits == b.bits && a.table == b.table && a.store[g.meta..] == b.store[g.meta..]
  {
    hide Slice, Groups, Lossless;
    var d := Encode(c, g, a);
    forall j: nat | j < Groups(|a.bits|, BPB)
      ensures c.bits(Slice(a.bits, BPB, j)) == c.bits(Slice(b.bits, BPB, j))
    {
      assert InBits(g, a, g.bmapstart + j) && InBits(g, b, g.bmapstart + j);
      assert d[g.bmapstart + j] == BlockIn(c, g, a, g.bmapstart + j) == BlockIn(c, g, b, g.bmapstart + j);
    }
    SameElements(c.bits, a.bits, b.bits, BPB);
    forall j: nat | j < Groups(|a.table|, IPB)
      ensures c.table(Slice(a.table, IPB, j)) == c.table(Slice(b.table, IPB, j))
    {
      assert InTable(g, a, g.inodestart + j) && InTable(g, b, g.inodestart + j);
      assert d[g.inodestart + j] == BlockIn(c, g, a, g.inodestart + j) == BlockIn(c, g, b, g.inodestart + j);
    }
    SameElements(c.table, a.table, b.table, IPB);
    forall k: nat | g.meta <= k < |g.boot| ensures a.store[k] == b.store[k] {
      assert d[k] == BlockIn(c, g, a, k) == BlockIn(c, g, b, k);
    }
  }

  ghost function Diff(d: Disk, e: Disk): set<nat>
    requires |d| == |e|
  {
    set b: nat | b < |d| && d[b] != e[b]
  }

  lemma SameSlice<T>(s: seq<T>, t: seq<T>, n: nat, j: nat)
    requires n > 0 && |s| == |t| && forall i: nat | i < |s| && i / n == j :: s[i] == t[i]
    ensures Slice(s, n, j) == Slice(t, n, j)
  {
    forall i: nat | n * j <= i < n * j + n ensures i / n == j {
      InGroup(i, n, j);
    }
  }

  lemma InGroup(i: nat, n: nat, j: nat)
    requires n > 0 && n * j <= i < n * j + n
    ensures i / n == j
  {
    var q := i / n;
    assert i == n * q + i % n;
    OneMore(n, q, j);
    OneMore(n, j, q);
  }

  /** A block that an operation does not log is the same on the disk. */
  lemma Unlogged(c: Coding, g: Geometry, a: Image, b: Image, l: set<nat>, k: nat)
    requires Apart(g, a) && StepBy(a, b, l, g.bmapstart, g.inodestart) && k < |g.boot| && k !in l
    ensures |b.store| == |g.boot| && BlockIn(c, g, b, k) == BlockIn(c, g, a, k)
  {
    if k < g.meta {
      if InBits(g, a, k) {
        SameSlice(b.bits, a.bits, BPB, k - g.bmapstart);
      } else if InTable(g, a, k) {
        SameSlice(b.table, a.table, IPB, k - g.inodestart);
      }
    }
  }

  /** An operation within its reservation changes no more blocks of the disk, and none of the log. */
  lemma SmallStep(c: Coding, g: Geometry, a: Image, b: Image)
    requires Apart(g, a) && Step(a, b, g.bmapstart, g.inodestart)
    ensures Apart(g, b) && |Diff(Encode(c, g, a), Encode(c, g, b))| <= MAXOPBLOCKS
    ensures forall k | k in Diff(Encode(c, g, a), Encode(c, g, b)) :: !InLog(g.lay, k)
  {
    hide InLog, InBits, InTable;
    var l :| StepBy(a, b, l, g.bmapstart, g.inodestart) && |l| <= MAXOPBLOCKS;
    StaysApart(g, a, b);
    var diff := Diff(Encode(c, g, a), Encode(c, g, b));
    forall k | k in diff ensures k in l && !InLog(g.lay, k) {
      if k !in l {
        Unlogged(c, g, a, b, l, k);
      }
      if InLog(g.lay, k) {
        LogBlock(c, g, a, k);
        LogBlock(c, g, b, k);
      }
    }
    Cardinality(diff, l);
  }

  lemma StaysApart(g: Geometry, a: Image, b: Image)
    requires Apart(g, a) && |b.store| == |a.store| && |b.bits| == |a.bits| && |b.table| == |a.table|
    ensures Apart(g, b)
  {
    forall k: nat ensures InBits(g, b, k) == InBits(g, a, k) && InTable(g, b, k) == InTable(g, a, k) {
    }
  }

  lemma LogBlock(c: Coding, g: Geometry, a: Image, k: nat)
    requires Apart(g, a) && InLog(g.lay, k) && k < |g.boot|
    ensures BlockIn(c, g, a, k) == g.boot[k]
  {
  }

  // ---------- One operation through the log

  /** A log that is not in use, with few buffers in the hands of others, and what the home blocks hold. */
  ghost predicate AtRest(log: LogState, home: Disk)
    reads log, log.bc
  {
    && log.Valid() && log.ops == map[] && !log.committing
    && log.lay.size >= LOGSIZE && |log.held| + MAXOPBLOCKS < NBUF && |log.bc.disk| < 0x1_0000_0000
    && SameHome(log.lay, log.durable, home)
  }

  /** The blocks before k in which the two disks differ. */
  ghost function DiffTo(d: Disk, e: Disk, k: nat): set<nat>
    requires |d| == |e|
  {
    set b: nat | b < |d| && b < k && d[b] != e[b]
  }

  /** In the middle of an operation that turns d into e: the blocks before k have been logged where they differ. */
  ghost predicate Midway(log: LogState, d: Disk, e: Disk, k: nat)
    reads log, log.bc
  {
    && log.Valid() && !log.committing && |log.bc.disk| == |e|
    && Logging(log.lay, d, e, k, log.ops, log.Blocks(), log.bc.view)
  }

  ghost predicate Logging(lay: Layout, d: Disk, e: Disk, k: nat, ops: map<nat, set<nat>>, ks: seq<Word>, view: Disk) {
    && ops.Keys == {0} && |d| == |e| == |view| && k <= |e|
    && ops[0] == DiffTo(d, e, k) == Members(ks)
    && forall b: nat | b < |e| && !InLog(lay, b) :: view[b] == if b < k then e[b] else d[b]
  }

  lemma BusyBound(ks: seq<Word>, held: map<nat, Pos>)
    requires Distinct(ks)
    ensures |Busy(ks, held)| <= |ks| + |held|
  {
    DistinctSize(ks);
    assert |held.Keys| == |held|;
    assert Busy(ks, held) == Members(ks) + (held.Keys - Members(ks));
    Cardinality(held.Keys - Members(ks), held.Keys);
  }

  lemma DiffNext(d: Disk, e: Disk, k: nat)
    requires |d| == |e| && k < |d|
    ensures DiffTo(d, e, k + 1) == DiffTo(d, e, k) + (if d[k] != e[k] then {k} else {})
    ensures |DiffTo(d, e, k)| <= |Diff(d, e)| && |DiffTo(d, e, k + 1)| <= |Diff(d, e)| && k !in DiffTo(d, e, k)
  {
    Cardinality(DiffTo(d, e, k), Diff(d, e));
    Cardinality(DiffTo(d, e, k + 1), Diff(d, e));
  }

  /** When the next block is logged, the log and the cache have room. */
  lemma RoomForNext(log: LogState, d: Disk, e: Disk, k: nat)
    requires Midway(log, d, e, k) && k < |e| && d[k] != e[k] && |Diff(d, e)| <= MAXOPBLOCKS
    requires log.lay.size >= LOGSIZE && |log.held| + MAXOPBLOCKS < NBUF
    ensures log.n < LOGSIZE && log.n < log.lay.size - 1 && |Busy(log.Blocks(), log.held)| < NBUF
    ensures |log.ops[0] + {k}| <= MAXOPBLOCKS
  {
    DiffNext(d, e, k);
    DistinctSize(log.Blocks());
    BusyBound(log.Blocks(), log.held);
  }

  lemma BeginMidway(log: LogState, d: Disk, e: Disk)
    requires log.Valid() && log.ops == map[0 := {}] && !log.committing && log.n == 0
    requires |d| == |e| == |log.bc.disk| && SameHome(log.lay, log.durable, d)
    ensures Midway(log, d, e, 0)
  {
    UnloggedHome(log, log.Blocks());
  }

  /** What there is to know of a log in Midway, at its end, or of one at rest. */
  lemma MidwayEnds(log: LogState, d: Disk, e: Disk)
    requires Midway(log, d, e, |e|) && |Diff(d, e)| <= MAXOPBLOCKS && |log.held| + MAXOPBLOCKS < NBUF
    ensures log.Valid() && log.ops.Keys == {0} && |log.ops| == 1 && SameHome(log.lay, log.bc.view, e)
    ensures |Busy(log.Blocks(), log.held)| < NBUF && log.outstanding == 1
  {
    hide LogState.Valid, Busy, Members, InLog;
    Opened(log);
    assert DiffTo(d, e, |e|) == Diff(d, e);
    DistinctSize(log.Blocks());
    BusyBound(log.Blocks(), log.held);
    OneOp(log.ops);
  }

  lemma OneOp(ops: map<nat, set<nat>>)
    requires ops.Keys == {0}
    ensures |ops| == 1
  {
    assert |ops.Keys| == 1;
  }

  lemma RestFacts(log: LogState, home: Disk)
    requires AtRest(log, home)
    ensures log.outstanding == 0 && log.n == 0 && |log.bc.disk| == |home| && SameHome(log.lay, log.durable, home)
    ensures log.Valid() && log.ops == map[] && !log.committing
    ensures log.lay.size >= LOGSIZE && |log.held| + MAXOPBLOCKS < NBUF && |log.bc.disk| < 0x1_0000_0000
  {
  }

  method LogBlockOf(log: LogState, d: Disk, e: Disk, k: nat)
    requires Midway(log, d, e, k) && k < |e| && |Diff(d, e)| <= MAXOPBLOCKS
    requires forall b | b in Diff(d, e) :: !InLog(log.lay, b)
    requires log.lay.size >= LOGSIZE && |log.held| + MAXOPBLOCKS < NBUF && |log.bc.disk| < 0x1_0000_0000
    modifies log`n, log`block, log`ops, log.bc
    ensures Midway(log, d, e, k + 1) && log.bc.disk == old(log.bc.disk) && log.bc.trace == old(log.bc.trace)
  {
    hide BCache.Valid, LogState.Valid, Busy, InLog, Absorb, Midway;
    MidwayFacts(log, d, e, k);
    ghost var ks, ops, view := log.Blocks(), log.ops, log.bc.view;
    if d[k] != e[k] {
      RoomForNext(log, d, e, k);
      var ok := log.LoggedUpdate(0, k, e[k]);
    }
    Opened(log);
    MidwayNext(log, d, e, k, ops, ks, view);
  }

  lemma MidwayFacts(log: LogState, d: Disk, e: Disk, k: nat)
    requires Midway(log, d, e, k) && k < |e| && forall b | b in Diff(d, e) :: !InLog(log.lay, b)
    ensures log.Valid() && log.n <= |log.block| && |log.bc.disk| == |d| == |e| && 0 in log.ops
    ensures d[k] != e[k] ==> !InLog(log.lay, k)
    ensures Logging(log.lay, d, e, k, log.ops, log.Blocks(), log.bc.view)
  {
    Opened(log);
    assert d[k] != e[k] ==> k in Diff(d, e);
  }

  lemma MidwayNext(log: LogState, d: Disk, e: Disk, k: Word, ops: map<nat, set<nat>>, ks: seq<Word>, view: Disk)
    requires Logging(log.lay, d, e, k, ops, ks, view) && k < |e| == |log.bc.disk| && log.Valid() && !log.committing
    requires log.n <= |log.block|
    requires if d[k] != e[k]
             then log.Blocks() == Absorb(ks, k) && log.ops == ops[0 := ops[0] + {k}] && log.bc.view == view[k := e[k]]
             else log.Blocks() == ks && log.ops == ops && log.bc.view == view
    ensures Midway(log, d, e, k + 1)
  {
    hide LogState.Valid, Absorb, Members, DiffTo, InLog;
    DiffNext(d, e, k);
    AbsorbMembers(ks, k);
  }

  lemma AbsorbMembers(ks: seq<Word>, k: Word)
    ensures Members(Absorb(ks, k)) == Members(ks) + {k}
  {
    assert k !in ks ==> (ks + [k])[|ks|] == k;
  }

  /** An operation that turns the home blocks from d into e, and its commit, on a log at rest: it succeeds, and whenever
      there is a crash, recovery gives d or e. */
  method Transact(log: LogState, d: Disk, e: Disk)
    requires AtRest(log, d) && |e| == |d| && |Diff(d, e)| <= MAXOPBLOCKS
    requires forall b | b in Diff(d, e) :: !InLog(log.lay, b)
    modifies log, log.bc
    ensures AtRest(log, e) && log.bc.trace == old(log.bc.trace) + Since(old(log.bc.trace), log.bc.trace)
    ensures OneOrOther(log.lay, Since(old(log.bc.trace), log.bc.trace), d, e)
  {
    hide BCache.Valid, LogState.Valid, Busy, InLog, Absorb, Midway, SameHome, AllOrNothing, Since, AtRest;
    RestFacts(log, d);
    ghost var trace := log.bc.trace;
    var admitted := log.BeginOp(0);
    BeginMidway(log, d, e);
    var k := 0;
    while k < |e|
      invariant k <= |e| && Midway(log, d, e, k) && log.durable == old(log.durable) && log.held == old(log.held)
      invariant log.bc.trace == trace && |log.bc.disk| == |d|
      modifies log`n, log`block, log`ops, log.bc
    {
      LogBlockOf(log, d, e, k);
      k := k + 1;
    }
    MidwayEnds(log, d, e);
    var panicked, doCommit := log.EndOp(0);
    ghost var view, n := log.bc.view, log.n;
    var ok := log.FinishCommit();
    Outcome(log.lay, Since(trace, log.bc.trace), n, log.durable, view, old(log.durable), d, e);
    RestAgain(log, e);
  }

  /** Each image recovers, whatever crashes follow, to d or to e, and to e from the first that does so on. */
  ghost predicate OneOrOther(lay: Layout, images: seq<Disk>, d: Disk, e: Disk) {
    exists n: nat :: AllOrNothing(lay, images, n, d, e)
  }

  lemma Outcome(lay: Layout, images: seq<Disk>, n: nat, durable: Disk, view: Disk, durable0: Disk, d: Disk, e: Disk)
    requires AllOrNothing(lay, images, n, durable0, view) && SameHome(lay, durable0, d) && SameHome(lay, view, e)
    requires SameHome(lay, durable, view)
    ensures OneOrOther(lay, images, d, e) && SameHome(lay, durable, e)
  {
    hide InLog, RecoverAfterCrashes, Recoverable;
    forall i, cuts: seq<nat> | 0 <= i < |images| && i < n ensures RecoversTo(lay, images[i], cuts, d) {
      assert RecoversTo(lay, images[i], cuts, durable0);
    }
    forall i, cuts: seq<nat> | n <= i < |images| ensures RecoversTo(lay, images[i], cuts, e) {
      assert RecoversTo(lay, images[i], cuts, view);
    }
    assert AllOrNothing(lay, images, n, d, e);
  }

  lemma RestAgain(log: LogState, home: Disk)
    requires log.Valid() && !log.committing && log.n == 0 && |log.ops| == 0 && SameHome(log.lay, log.durable, home)
    requires log.lay.size >= LOGSIZE && |log.held| + MAXOPBLOCKS < NBUF && |home| < 0x1_0000_0000
    ensures AtRest(log, home)
  {
  }

  // ---------- One operation after the other

  ghost predicate SmallDiff(lay: Layout, d: Disk, e: Disk) {
    |d| == |e| && |Diff(d, e)| <= MAXOPBLOCKS && forall b | b in Diff(d, e) :: !InLog(lay, b)
  }

  ghost predicate SmallDiffs(lay: Layout, homes: seq<Disk>) {
    forall j: nat, k | k == j + 1 < |homes| :: SmallDiff(lay, homes[j], homes[k])
  }

  /** Whatever crashes follow, each image recovers to the home blocks after a whole number of operations, never fewer
      than the image before it. */
  ghost predicate Whole(lay: Layout, images: seq<Disk>, homes: seq<Disk>, at: seq<nat>) {
    && |at| == |images|
    && (forall i | 0 <= i < |at| :: at[i] < |homes|)
    && (forall i, j | 0 <= i < j < |at| :: at[i] <= at[j])
    && (forall i, cuts: seq<nat> | 0 <= i < |images| && at[i] < |homes| ::
          RecoversTo(lay, images[i], cuts, homes[at[i]]))
  }

  /** The images of one more operation. */
  lemma WholeMore(lay: Layout, images: seq<Disk>, more: seq<Disk>, homes: seq<Disk>, at: seq<nat>, j: nat)
    returns (at': seq<nat>)
    requires Whole(lay, images, homes, at) && j + 1 < |homes| && forall i | 0 <= i < |at| :: at[i] <= j
    requires OneOrOther(lay, more, homes[j], homes[j + 1])
    ensures Whole(lay, images + more, homes, at') && forall i | 0 <= i < |at'| :: at'[i] <= j + 1
  {
    hide RecoversTo;
    var n: nat :| AllOrNothing(lay, more, n, homes[j], homes[j + 1]);
    at' := at + seq(|more|, i => if i < n then j else j + 1);
    var all := images + more;
    forall i, cuts: seq<nat> | 0 <= i < |all| ensures RecoversTo(lay, all[i], cuts, homes[at'[i]]) {
      if i < |images| {
        assert RecoversTo(lay, images[i], cuts, homes[at[i]]);
      } else {
        var q := i - |images|;
        assert all[i] == more[q];
        assert RecoversTo(lay, more[q], cuts, if q < n then homes[j] else homes[j + 1]);
      }
    }
  }

  lemma SinceMore(t0: seq<Disk>, t1: seq<Disk>, t2: seq<Disk>)
    requires t1 == t0 + Since(t0, t1) && t2 == t1 + Since(t1, t2)
    ensures t2 == t0 + Since(t0, t2) && Since(t0, t2) == Since(t0, t1) + Since(t1, t2)
  {
  }

  /** Operations that turn the home blocks from each disk into the next. */
  method TransactAll(log: LogState, homes: seq<Disk>) returns (ghost at: seq<nat>)
    requires homes != [] && AtRest(log, homes[0]) && SmallDiffs(log.lay, homes)
    modifies log, log.bc
    ensures AtRest(log, homes[|homes| - 1])
    ensures log.bc.trace == old(log.bc.trace) + Since(old(log.bc.trace), log.bc.trace)
    ensures Whole(log.lay, Since(old(log.bc.trace), log.bc.trace), homes, at)
  {
    hide AtRest, Since, OneOrOther, Whole, Diff, InLog;
    ghost var trace := log.bc.trace;
    at := [];
    NothingSince(log.lay, trace, homes);
    var j := 0;
    while j + 1 < |homes|
      invariant j < |homes| && AtRest(log, homes[j])
      invariant log.bc.trace == trace + Since(trace, log.bc.trace)
      invariant Whole(log.lay, Since(trace, log.bc.trace), homes, at) && forall i | 0 <= i < |at| :: at[i] <= j
    {
      ghost var t1 := log.bc.trace;
      ghost var k := j + 1;
      assert SmallDiff(log.lay, homes[j], homes[k]);
      Transact(log, homes[j], homes[j + 1]);
      at := WholeMore(log.lay, Since(trace, t1), Since(t1, log.bc.trace), homes, at, j);
      SinceMore(trace, t1, log.bc.trace);
      j := j + 1;
    }
  }

  lemma NothingSince(lay: Layout, trace: seq<Disk>, homes: seq<Disk>)
    ensures trace == trace + Since(trace, trace) && Whole(lay, Since(trace, trace), homes, [])
  {
  }

  // ---------- filewrite

  function Encodes(c: Coding, g: Geometry, chunks: seq<Image>): (r: seq<Disk>)
    requires forall j | 0 <= j < |chunks| :: |chunks[j].store| == |g.boot|
    ensures |r| == |chunks| && forall j | 0 <= j < |r| :: r[j] == Encode(c, g, chunks[j])
  {
    seq(|chunks|, j requires 0 <= j < |chunks| => Encode(c, g, chunks[j]))
  }

  ghost predicate Steps(chunks: seq<Image>, bmapstart: nat, inodestart: nat) {
    forall j: nat, k | k == j + 1 < |chunks| :: Step(chunks[j], chunks[k], bmapstart, inodestart)
  }

  lemma {:induction false} AllApart(g: Geometry, chunks: seq<Image>, j: nat)
    requires Steps(chunks, g.bmapstart, g.inodestart) && j < |chunks| && Apart(g, chunks[0])
    ensures Apart(g, chunks[j])
  {
    hide Step;
    if j > 0 {
      var i := j - 1;
      AllApart(g, chunks, i);
      StepApart(g, chunks[i], chunks[j]);
    }
  }

  lemma StepApart(g: Geometry, a: Image, b: Image)
    requires Apart(g, a) && Step(a, b, g.bmapstart, g.inodestart)
    ensures Apart(g, b)
  {
    StaysApart(g, a, b);
  }

  /** The operations of filewrite are small on the disk as well. */
  lemma ChunksAreSmall(c: Coding, g: Geometry, chunks: seq<Image>)
    requires Steps(chunks, g.bmapstart, g.inodestart) && chunks != [] && Apart(g, chunks[0])
    ensures forall j | 0 <= j < |chunks| :: |chunks[j].store| == |g.boot|
    ensures SmallDiffs(g.lay, Encodes(c, g, chunks))
  {
    hide Step, Encode, InLog, InBits, InTable, Diff;
    forall j: nat | j < |chunks| ensures Apart(g, chunks[j]) {
      AllApart(g, chunks, j);
    }
    var homes := Encodes(c, g, chunks);
    forall j: nat, k | k == j + 1 < |homes| ensures SmallDiff(g.lay, homes[j], homes[k]) {
      assert Step(chunks[j], chunks[k], g.bmapstart, g.inodestart);
      SmallStep(c, g, chunks[j], chunks[k]);
    }
  }

  lemma ChunksAreSteps(chunks: seq<Image>, i: nat, bytes: seq<Byte>, off: nat, src: seq<Byte>, n: nat, bmapstart: nat,
                       inodestart: nat)
    requires Chunks(chunks, i, bytes, off, src, n, bmapstart, inodestart)
    ensures Steps(chunks, bmapstart, inodestart)
  {
    hide Step, Holds;
  }

  /** filewrite with its log: each chunk is an operation of its own.  Whenever there is a crash, at whichever write of
      the disk, and however often recovery crashes too, what is recovered is the file system after a whole number of
      chunks: of the file, what was there with the first 1536, 3072 and so on bytes written over it.  That holds even if
      balloc panics. */
  method DurableFilewrite(fs: Fs, log: LogState, c: Coding, g: Geometry, i: nat, off: Word, src: seq<Byte>)
    returns (r: Outcome, off': Word, chunks: seq<Image>, ghost at: seq<nat>)
    requires fs.Valid() && i < |fs.inodes| && |src| < 0x8000_0000
    requires g.lay == log.lay && g.bmapstart == fs.bmapstart && g.inodestart == fs.inodestart && g.meta == fs.meta
    requires Apart(g, fs.Snapshot())
    requires AtRest(log, Encode(c, g, fs.Snapshot()))
    modifies fs, log, log.bc
    ensures exists k: nat ::
              Chunks(chunks, i, old(Bytes(fs.inodes[i], fs.store)), off, src, k, g.bmapstart, g.inodestart)
    ensures forall j | 0 <= j < |chunks| :: |chunks[j].store| == |g.boot|
    ensures Whole(log.lay, Since(old(log.bc.trace), log.bc.trace), Encodes(c, g, chunks), at)
    ensures !r.Panicked? ==>
              && Chunks(chunks, i, old(Bytes(fs.inodes[i], fs.store)), off, src,
                        WrittenBytes(|old(Bytes(fs.inodes[i], fs.store))|, off, |src|), g.bmapstart, g.inodestart)
              && chunks != [] && AtRest(log, Encodes(c, g, chunks)[|chunks| - 1])
              && chunks[|chunks| - 1] == fs.Snapshot()
  {
    hide AtRest, Since, Whole, Step, Holds, Chunks, SmallDiffs, Fs.Valid, LogState.Valid, BCache.Valid, Apart, Encode,
      Bytes;
    FileLength(fs, i);
    ghost var bytes := Bytes(fs.inodes[i], fs.store);
    r, off', chunks := fs.Filewrite(i, off, src);
    ghost var k: nat :| Chunks(chunks, i, bytes, off, src, k, g.bmapstart, g.inodestart);
    ChunksAreSteps(chunks, i, bytes, off, src, k, g.bmapstart, g.inodestart);
    ChunksAreSmall(c, g, chunks);
    at := TransactAll(log, Encodes(c, g, chunks));
  }

  lemma FileLength(fs: Fs, i: nat)
    requires fs.Valid() && i < |fs.inodes|
    ensures WellShaped(fs.inodes) && |Bytes(fs.inodes[i], fs.store)| == fs.inodes[i].size
  {
    Shape(fs.inodes, fs.store, fs.bitmap, fs.owner, fs.meta);
    BytesLength(fs.inodes[i], fs.store);
  }
}
