/** The on-disk redo log of log.c as disk images: what each write of a commit or of a recovery leaves on the disk, and
    what a recovery makes of any of these images. */
module Redo {
  import opened Blocks

  const LOGSIZE: nat := 30

  /** Where the superblock puts the log: a header block, then size - 1 blocks for data. */
  datatype Layout = Layout(start: nat, size: nat)

  predicate InLog(lay: Layout, k: nat) {
    lay.start <= k < lay.start + lay.size
  }

  predicate Distinct(s: seq<Word>) {
    forall i, j | 0 <= i < j < |s| :: s[i] != s[j]
  }

  /** Block numbers that a transaction may log. */
  predicate Loggable(lay: Layout, d: Disk, blocks: seq<Word>) {
    && |blocks| <= LOGSIZE
    && |blocks| < lay.size
    && lay.start + lay.size <= |d|
    && Distinct(blocks)
    && (forall i | 0 <= i < |blocks| :: blocks[i] < |d| && !InLog(lay, blocks[i]))
  }

  /** The two disks agree outside the log. */
  ghost predicate SameHome(lay: Layout, d: Disk, e: Disk) {
    && |d| == |e|
    && (forall k | 0 <= k < |d| && !InLog(lay, k) :: d[k] == e[k])
  }

  // ---- the header block -----------------------------------------------------------------------------------

  function HeaderCount(h: Block): Word {
    GetWord(h, 0)
  }

  function HeaderBlocks(h: Block): (r: seq<Word>)
    requires HeaderCount(h) <= LOGSIZE
    ensures |r| == HeaderCount(h)
  {
    seq(HeaderCount(h), i requires 0 <= i < HeaderCount(h) => GetWord(h, i + 1))
  }

  /** A header block after its count and then its first t block numbers have been stored. */
  function PutBlocks(h: Block, blocks: seq<Word>, t: nat): Block
    requires t <= |blocks| <= LOGSIZE
  {
    if t == 0 then PutWord(h, 0, |blocks|) else PutWord(PutBlocks(h, blocks, t - 1), t, blocks[t - 1])
  }

  function PutHeader(h: Block, blocks: seq<Word>): Block
    requires |blocks| <= LOGSIZE
  {
    PutBlocks(h, blocks, |blocks|)
  }

  lemma {:induction false} PutBlocksWords(h: Block, blocks: seq<Word>, t: nat)
    requires t <= |blocks| <= LOGSIZE
    ensures GetWord(PutBlocks(h, blocks, t), 0) == |blocks|
    ensures forall i | 0 <= i < t :: GetWord(PutBlocks(h, blocks, t), i + 1) == blocks[i]
  {
    if t > 0 {
      PutBlocksWords(h, blocks, t - 1);
    }
  }

  /** Header round trip: read_head reads back what write_head wrote. */
  lemma {:induction false} HeaderRoundTrip(h: Block, blocks: seq<Word>)
    requires |blocks| <= LOGSIZE
    ensures HeaderCount(PutHeader(h, blocks)) == |blocks|
    ensures HeaderBlocks(PutHeader(h, blocks)) == blocks
  {
    PutBlocksWords(h, blocks, |blocks|);
  }

  // ---- disk images ----------------------------------------------------------------------------------------

  /** The disk after the first t log blocks have been written. */
  function Logged(lay: Layout, d: Disk, data: seq<Block>, t: nat): (e: Disk)
    requires t <= |data| < lay.size && lay.start + lay.size <= |d|
    ensures |e| == |d|
  {
    if t == 0 then d else Logged(lay, d, data, t - 1)[lay.start + t := data[t - 1]]
  }

  /** The disk after the first t home blocks have been written. */
  function Installed(d: Disk, blocks: seq<Word>, data: seq<Block>, t: nat): (e: Disk)
    requires t <= |blocks| == |data|
    requires forall i | 0 <= i < |blocks| :: blocks[i] < |d|
    ensures |e| == |d|
  {
    if t == 0 then d else Installed(d, blocks, data, t - 1)[blocks[t - 1] := data[t - 1]]
  }

  function WithHeader(lay: Layout, d: Disk, blocks: seq<Word>): (e: Disk)
    requires lay.start < |d| && |blocks| <= LOGSIZE
    ensures |e| == |d|
  {
    d[lay.start := PutHeader(d[lay.start], blocks)]
  }

  /** The disk right after the header write that commits. */
  function Committed(lay: Layout, d: Disk, blocks: seq<Word>, data: seq<Block>): (e: Disk)
    requires Loggable(lay, d, blocks) && |data| == |blocks|
    ensures |e| == |d|
  {
    WithHeader(lay, Logged(lay, d, data, |data|), blocks)
  }

  /** A disk whose header can be recovered from. */
  predicate Recoverable(lay: Layout, d: Disk) {
    && lay.size > 0
    && lay.start + lay.size <= |d|
    && HeaderCount(d[lay.start]) <= LOGSIZE
    && Loggable(lay, d, HeaderBlocks(d[lay.start]))
  }

  function LogData(lay: Layout, d: Disk): (r: seq<Block>)
    requires Recoverable(lay, d)
    ensures |r| == HeaderCount(d[lay.start])
  {
    d[lay.start + 1..lay.start + 1 + HeaderCount(d[lay.start])]
  }

  /** The disk after a complete recovery: everything installed, and the header cleared. */
  function Recover(lay: Layout, d: Disk): (e: Disk)
    requires Recoverable(lay, d)
    ensures |e| == |d|
  {
    var blocks := HeaderBlocks(d[lay.start]);
    WithHeader(lay, Installed(d, blocks, LogData(lay, d), |blocks|), [])
  }

  /** The disk when a recovery crashes after c writes; a complete one makes HeaderCount + 1 of them. */
  function RecoveryImage(lay: Layout, d: Disk, c: nat): (e: Disk)
    requires Recoverable(lay, d)
    ensures |e| == |d|
  {
    var blocks := HeaderBlocks(d[lay.start]);
    if c <= |blocks| then Installed(d, blocks, LogData(lay, d), c) else Recover(lay, d)
  }

  /** The disk when a commit crashes after c writes; a complete one makes 2 * |blocks| + 2 of them. */
  function CommitImage(lay: Layout, d: Disk, blocks: seq<Word>, data: seq<Block>, c: nat): (e: Disk)
    requires Loggable(lay, d, blocks) && |data| == |blocks|
    ensures |e| == |d|
  {
    CommittedImage(lay, d, blocks, data);
    if c <= |blocks| then Logged(lay, d, data, c)
    else RecoveryImage(lay, Committed(lay, d, blocks, data), c - |blocks| - 1)
  }

  // ---- the images in the order of the writes ----------------------------------------------------------------

  function LogTrace(lay: Layout, d: Disk, data: seq<Block>, t: nat): (r: seq<Disk>)
    requires t <= |data| < lay.size && lay.start + lay.size <= |d|
    ensures |r| == t
  {
    if t == 0 then [] else LogTrace(lay, d, data, t - 1) + [Logged(lay, d, data, t)]
  }

  function InstallTrace(d: Disk, blocks: seq<Word>, data: seq<Block>, t: nat): (r: seq<Disk>)
    requires t <= |blocks| == |data|
    requires forall i | 0 <= i < |blocks| :: blocks[i] < |d|
    ensures |r| == t
  {
    if t == 0 then [] else InstallTrace(d, blocks, data, t - 1) + [Installed(d, blocks, data, t)]
  }

  /** Every image a recovery of d leaves on the disk. */
  function RecoveryTrace(lay: Layout, d: Disk): (r: seq<Disk>)
    requires Recoverable(lay, d)
  {
    var blocks := HeaderBlocks(d[lay.start]);
    InstallTrace(d, blocks, LogData(lay, d), |blocks|) + [Recover(lay, d)]
  }

  /** Every image a commit of these blocks with these contents leaves on the disk. */
  function CommitTrace(lay: Layout, d: Disk, blocks: seq<Word>, data: seq<Block>): (r: seq<Disk>)
    requires Loggable(lay, d, blocks) && |data| == |blocks|
  {
    CommittedImage(lay, d, blocks, data);
    var m := Committed(lay, d, blocks, data);
    LogTrace(lay, d, data, |data|) + [m] + RecoveryTrace(lay, m)
  }

  lemma {:induction false} LogTraceAt(lay: Layout, d: Disk, data: seq<Block>, t: nat, i: nat)
    requires t <= |data| < lay.size && lay.start + lay.size <= |d| && i < t
    ensures LogTrace(lay, d, data, t)[i] == Logged(lay, d, data, i + 1)
  {
    if i < t - 1 {
      LogTraceAt(lay, d, data, t - 1, i);
    }
  }

  lemma {:induction false} InstallTraceAt(d: Disk, blocks: seq<Word>, data: seq<Block>, t: nat, i: nat)
    requires t <= |blocks| == |data| && i < t
    requires forall i | 0 <= i < |blocks| :: blocks[i] < |d|
    ensures InstallTrace(d, blocks, data, t)[i] == Installed(d, blocks, data, i + 1)
  {
    if i < t - 1 {
      InstallTraceAt(d, blocks, data, t - 1, i);
    }
  }

  /** The c-th write of a recovery leaves the disk a crash right after it would find. */
  lemma RecoveryTraceAt(lay: Layout, d: Disk, c: nat)
    requires Recoverable(lay, d) && 1 <= c <= HeaderCount(d[lay.start]) + 1
    ensures |RecoveryTrace(lay, d)| == HeaderCount(d[lay.start]) + 1
    ensures RecoveryTrace(lay, d)[c - 1] == RecoveryImage(lay, d, c)
  {
    hide Recover, Installed, InstallTrace, HeaderBlocks, HeaderCount, LogData;
    var blocks := HeaderBlocks(d[lay.start]);
    if c <= |blocks| {
      InstallTraceAt(d, blocks, LogData(lay, d), |blocks|, c - 1);
    }
  }

  lemma FirstImage(lay: Layout, d: Disk)
    requires Recoverable(lay, d)
    ensures RecoveryImage(lay, d, 0) == d
    ensures |RecoveryTrace(lay, d)| == HeaderCount(d[lay.start]) + 1
  {
  }

  /** The same for a commit, whose (|blocks| + 1)-th write is the one of the header. */
  lemma CommitTraceAt(lay: Layout, d: Disk, blocks: seq<Word>, data: seq<Block>, c: nat)
    requires Loggable(lay, d, blocks) && |data| == |blocks| && 1 <= c <= 2 * |blocks| + 2
    ensures |CommitTrace(lay, d, blocks, data)| == 2 * |blocks| + 2
    ensures CommitTrace(lay, d, blocks, data)[c - 1] == CommitImage(lay, d, blocks, data, c)
  {
    hide Committed, Recover, HeaderBlocks, HeaderCount, LogData, RecoveryTrace, RecoveryImage, Recoverable, Logged,
      LogTrace, Distinct, HomeUpdated;
    var n := |blocks|;
    var m := Committed(lay, d, blocks, data);
    CommittedImage(lay, d, blocks, data);
    FirstImage(lay, m);
    if c <= n {
      LogTraceAt(lay, d, data, n, c - 1);
    } else if c > n + 1 {
      RecoveryTraceAt(lay, m, c - n - 1);
    }
  }

  // ---- what the images hold -------------------------------------------------------------------------------

  lemma {:induction false} LoggedAt(lay: Layout, d: Disk, data: seq<Block>, t: nat, k: nat)
    requires t <= |data| < lay.size && lay.start + lay.size <= |d| && k < |d|
    ensures Logged(lay, d, data, t)[k] == if lay.start < k <= lay.start + t then data[k - lay.start - 1] else d[k]
  {
    if t > 0 {
      LoggedAt(lay, d, data, t - 1, k);
    }
  }

  lemma {:induction false} InstalledAt(d: Disk, blocks: seq<Word>, data: seq<Block>, t: nat, i: nat)
    requires t <= |blocks| == |data| && i < |blocks|
    requires forall i | 0 <= i < |blocks| :: blocks[i] < |d|
    requires Distinct(blocks)
    ensures Installed(d, blocks, data, t)[blocks[i]] == if i < t then data[i] else d[blocks[i]]
  {
    if t > 0 {
      InstalledAt(d, blocks, data, t - 1, i);
    }
  }

  lemma {:induction false} InstalledElsewhere(d: Disk, blocks: seq<Word>, data: seq<Block>, t: nat, k: nat)
    requires t <= |blocks| == |data| && k < |d| && k !in blocks
    requires forall i | 0 <= i < |blocks| :: blocks[i] < |d|
    ensures Installed(d, blocks, data, t)[k] == d[k]
  {
    if t > 0 {
      InstalledElsewhere(d, blocks, data, t - 1, k);
    }
  }

  /** What recovery gives a home block: the logged contents if the header lists it, and else what is there. */
  lemma InstalledHome(d: Disk, blocks: seq<Word>, data: seq<Block>, k: nat)
    requires |blocks| == |data| && k < |d| && Distinct(blocks)
    requires forall i | 0 <= i < |blocks| :: blocks[i] < |d|
    ensures k !in blocks ==> Installed(d, blocks, data, |blocks|)[k] == d[k]
    ensures forall i | 0 <= i < |blocks| && blocks[i] == k :: Installed(d, blocks, data, |blocks|)[k] == data[i]
  {
    if k in blocks {
      forall i | 0 <= i < |blocks| && blocks[i] == k ensures Installed(d, blocks, data, |blocks|)[k] == data[i] {
        InstalledAt(d, blocks, data, |blocks|, i);
      }
    } else {
      InstalledElsewhere(d, blocks, data, |blocks|, k);
    }
  }

  lemma RecoverAt(lay: Layout, d: Disk, k: nat)
    requires Recoverable(lay, d) && k < |d| && !InLog(lay, k)
    ensures var blocks := HeaderBlocks(d[lay.start]);
            && (k !in blocks ==> Recover(lay, d)[k] == d[k])
            && (forall i | 0 <= i < |blocks| && blocks[i] == k :: Recover(lay, d)[k] == LogData(lay, d)[i])
  {
    hide PutHeader, HeaderBlocks, HeaderCount, Installed, LogData;
    InstalledHome(d, HeaderBlocks(d[lay.start]), LogData(lay, d), k);
  }

  /** Two disks recover to the same home blocks when they have the same header, the same log blocks, and differ only
      in home blocks that the header lists. */
  lemma SameRecovery(lay: Layout, d: Disk, e: Disk)
    requires Recoverable(lay, d) && |e| == |d|
    requires forall k | 0 <= k < |d| && InLog(lay, k) :: e[k] == d[k]
    requires forall k | 0 <= k < |d| && !InLog(lay, k) && k !in HeaderBlocks(d[lay.start]) :: e[k] == d[k]
    ensures Recoverable(lay, e)
    ensures SameHome(lay, Recover(lay, d), Recover(lay, e))
  {
    var blocks := HeaderBlocks(d[lay.start]);
    assert e[lay.start] == d[lay.start] by { assert InLog(lay, lay.start); }
    assert LogData(lay, d) == LogData(lay, e) by {
      assert forall k | lay.start < k < lay.start + 1 + |blocks| :: InLog(lay, k);
    }
    hide Recover, LogData, HeaderCount, HeaderBlocks;
    forall k | 0 <= k < |d| && !InLog(lay, k) ensures Recover(lay, d)[k] == Recover(lay, e)[k] {
      RecoverAt(lay, d, k);
      RecoverAt(lay, e, k);
    }
  }

  /** A disk with an empty log recovers to itself, outside the log. */
  lemma EmptyLog(lay: Layout, d: Disk)
    requires lay.size > 0 && lay.start + lay.size <= |d| && HeaderCount(d[lay.start]) == 0
    ensures Recoverable(lay, d)
    ensures SameHome(lay, Recover(lay, d), d)
  {
    forall k | 0 <= k < |d| && !InLog(lay, k) ensures Recover(lay, d)[k] == d[k] {
      RecoverAt(lay, d, k);
    }
  }

  /** Replay is idempotent: a recovery that crashes after any number of writes leaves a disk that recovers to the same
      home blocks as before. */
  lemma ReplayIdempotent(lay: Layout, d: Disk, c: nat)
    requires Recoverable(lay, d)
    ensures Recoverable(lay, RecoveryImage(lay, d, c))
    ensures SameHome(lay, Recover(lay, RecoveryImage(lay, d, c)), Recover(lay, d))
  {
    var blocks, data := HeaderBlocks(d[lay.start]), LogData(lay, d);
    var e := RecoveryImage(lay, d, c);
    if c <= |blocks| {
      forall k | 0 <= k < |d| && (InLog(lay, k) || k !in blocks) ensures e[k] == d[k] {
        InstalledElsewhere(d, blocks, data, c, k);
      }
      SameRecovery(lay, d, e);
    } else {
      HeaderRoundTrip(Installed(d, blocks, data, |blocks|)[lay.start], []);
      EmptyLog(lay, e);
    }
  }

  /** Any number of recoveries, each crashing after its own number of writes, and then a complete one. */
  ghost function RecoverAfterCrashes(lay: Layout, d: Disk, cuts: seq<nat>): Disk
    requires Recoverable(lay, d)
    decreases |cuts|
  {
    if cuts == [] then Recover(lay, d)
    else
      ReplayIdempotent(lay, d, cuts[0]);
      RecoverAfterCrashes(lay, RecoveryImage(lay, d, cuts[0]), cuts[1..])
  }

  lemma {:induction false} CrashesDoNotMatter(lay: Layout, d: Disk, cuts: seq<nat>)
    requires Recoverable(lay, d)
    ensures SameHome(lay, RecoverAfterCrashes(lay, d, cuts), Recover(lay, d))
    ensures |cuts| > 0 ==> Recoverable(lay, RecoveryImage(lay, d, cuts[0]))
    decreases |cuts|
  {
    if cuts != [] {
      ReplayIdempotent(lay, d, cuts[0]);
      CrashesDoNotMatter(lay, RecoveryImage(lay, d, cuts[0]), cuts[1..]);
    }
  }

  /** The home blocks as the transaction wants them. */
  ghost predicate HomeUpdated(lay: Layout, d: Disk, blocks: seq<Word>, data: seq<Block>, e: Disk)
    requires |data| == |blocks|
  {
    && |e| == |d|
    && (forall k | 0 <= k < |d| && !InLog(lay, k) && k !in blocks :: e[k] == d[k])
    && (forall i | 0 <= i < |blocks| && blocks[i] < |e| :: e[blocks[i]] == data[i])
  }

  lemma CommittedImage(lay: Layout, d: Disk, blocks: seq<Word>, data: seq<Block>)
    requires Loggable(lay, d, blocks) && |data| == |blocks|
    ensures var c := Committed(lay, d, blocks, data);
            && Recoverable(lay, c)
            && HeaderBlocks(c[lay.start]) == blocks
            && LogData(lay, c) == data
            && HomeUpdated(lay, d, blocks, data, Recover(lay, c))
  {
    var c := Committed(lay, d, blocks, data);
    var l := Logged(lay, d, data, |data|);
    HeaderRoundTrip(l[lay.start], blocks);
    forall i | 0 <= i < |data| ensures c[lay.start + 1 + i] == data[i] {
      LoggedAt(lay, d, data, |data|, lay.start + 1 + i);
    }
    assert LogData(lay, c) == data;
    forall k | 0 <= k < |d| && !InLog(lay, k) && k !in blocks ensures Recover(lay, c)[k] == d[k] {
      RecoverAt(lay, c, k);
      LoggedAt(lay, d, data, |data|, k);
    }
    forall i | 0 <= i < |blocks| ensures Recover(lay, c)[blocks[i]] == data[i] {
      RecoverAt(lay, c, blocks[i]);
    }
  }

  lemma BeforeCommit(lay: Layout, d: Disk, blocks: seq<Word>, data: seq<Block>, c: nat)
    requires Loggable(lay, d, blocks) && |data| == |blocks| && c <= |blocks|
    requires HeaderCount(d[lay.start]) == 0
    ensures Recoverable(lay, Logged(lay, d, data, c))
    ensures SameHome(lay, Recover(lay, Logged(lay, d, data, c)), d)
  {
    var e := Logged(lay, d, data, c);
    forall k | 0 <= k < |d| && (k == lay.start || !InLog(lay, k)) ensures e[k] == d[k] {
      LoggedAt(lay, d, data, c, k);
    }
    hide Logged, Recover;
    EmptyLog(lay, e);
  }

  /** Crash atomicity of one commit.  Crash it after any number of writes, crash any number of recoveries, and recover:
      the home blocks are all as before when the crash came before the header write, and all updated when it came
      after it. */
  lemma CrashAtomicity(lay: Layout, d: Disk, blocks: seq<Word>, data: seq<Block>, c: nat, cuts: seq<nat>)
    requires Loggable(lay, d, blocks) && |data| == |blocks|
    requires HeaderCount(d[lay.start]) == 0
    ensures var e := CommitImage(lay, d, blocks, data, c);
            && Recoverable(lay, e)
            && (c <= |blocks| ==> SameHome(lay, RecoverAfterCrashes(lay, e, cuts), d))
            && (c > |blocks| ==> HomeUpdated(lay, d, blocks, data, RecoverAfterCrashes(lay, e, cuts)))
  {
    hide Recover, RecoverAfterCrashes, Committed, Logged, RecoveryImage, Recoverable;
    var e := CommitImage(lay, d, blocks, data, c);
    if c <= |blocks| {
      BeforeCommit(lay, d, blocks, data, c);
    } else {
      CommittedImage(lay, d, blocks, data);
      ReplayIdempotent(lay, Committed(lay, d, blocks, data), c - |blocks| - 1);
    }
    CrashesDoNotMatter(lay, e, cuts);
  }
}
