/** The buffer cache of bio.c on top of the in-memory disk of memide.c.

    The C code keeps an array of NBUF buffers and a sentinel, linked through prev/next into a ring in
    most-recently-used order.  Here a pointer to a buffer is its index, index HEAD is the sentinel, and the
    link fields of the structs are the two sequences prev and next. */
module BufferCache {
  import opened Blocks

  const NBUF: nat := 30
  const HEAD: nat := NBUF
  const PANIC: int := -1

  datatype Buf = Buf(dev: nat, blockno: nat, valid: bool, dirty: bool, refcnt: nat, data: Block)

  predicate Caches(buf: seq<Buf>, i: int, k: nat) {
    0 <= i < |buf| && buf[i].dev == 1 && buf[i].blockno == k
  }

  ghost predicate Cached(buf: seq<Buf>, k: nat) {
    exists i :: Caches(buf, i, k)
  }

  /** A buffer that bget may not recycle: someone uses it, or log.c has modified it. */
  predicate Pinned(b: Buf) {
    b.refcnt > 0 || b.dirty
  }

  // ---- the ring -------------------------------------------------------------------------------------------

  /** next and prev link exactly the buffers of the sequence ring into a cycle that starts at the sentinel. */
  ghost predicate Chain(next: seq<nat>, prev: seq<nat>, ring: seq<nat>) {
    && |next| == |prev| == NBUF + 1
    && |ring| > 0
    && ring[0] == HEAD
    && (forall i | 0 <= i < |ring| :: ring[i] <= NBUF)
    && (forall i, j | 0 <= i < j < |ring| :: ring[i] != ring[j])
    && (forall i | 0 <= i < |ring| - 1 :: next[ring[i]] == ring[i + 1])
    && next[ring[|ring| - 1]] == HEAD
    && (forall i | 0 < i < |ring| :: prev[ring[i]] == ring[i - 1])
    && prev[HEAD] == ring[|ring| - 1]
  }

  /** The cycle runs through the sentinel and all NBUF buffers. */
  ghost predicate Linked(next: seq<nat>, prev: seq<nat>, ring: seq<nat>) {
    && Chain(next, prev, ring)
    && |ring| == NBUF + 1
    && (forall b: nat | b <= NBUF :: b in ring)
  }

  function Without(ring: seq<nat>, k: nat): seq<nat>
    requires k < |ring|
  {
    ring[..k] + ring[k + 1..]
  }

  function InFront(ring: seq<nat>, b: nat): seq<nat>
    requires ring != []
  {
    [ring[0], b] + ring[1..]
  }

  function MoveToFront(ring: seq<nat>, k: nat): seq<nat>
    requires 0 < k < |ring|
  {
    InFront(Without(ring, k), ring[k])
  }

  lemma ChainBounds(next: seq<nat>, prev: seq<nat>, ring: seq<nat>, k: nat)
    requires Chain(next, prev, ring) && k < |ring|
    ensures next[ring[k]] == if k == |ring| - 1 then HEAD else ring[k + 1]
    ensures prev[ring[k]] == if k == 0 then ring[|ring| - 1] else ring[k - 1]
    ensures next[ring[k]] <= NBUF && prev[ring[k]] <= NBUF
  {
  }

  /** Taking a buffer out of the cycle: b->next->prev = b->prev; b->prev->next = b->next. */
  lemma Unlinked(next: seq<nat>, prev: seq<nat>, ring: seq<nat>, k: nat)
    requires Chain(next, prev, ring) && 0 < k < |ring|
    ensures var b := ring[k];
            && next[b] <= NBUF && prev[b] <= NBUF
            && Chain(next[prev[b] := next[b]], prev[next[b] := prev[b]], Without(ring, k))
    ensures ring[k] !in Without(ring, k)
  {
    ChainBounds(next, prev, ring, k);
    var b := ring[k];
    var n, p := next[b], prev[b];
    var next', prev' := next[p := n], prev[n := p];
    var r := Without(ring, k);
    assert p == ring[k - 1] == r[k - 1];
    forall i | 0 <= i < |r| - 1 ensures next'[r[i]] == r[i + 1] {
      if i < k - 1 { assert r[i] == ring[i] && r[i + 1] == ring[i + 1]; }
      else if i > k - 1 { assert r[i] == ring[i + 1] && r[i + 1] == ring[i + 2]; }
    }
    forall i | 0 < i < |r| ensures prev'[r[i]] == r[i - 1] {
      if i < k { assert r[i] == ring[i] && r[i - 1] == ring[i - 1]; }
      else if i > k { assert r[i] == ring[i + 1] && r[i - 1] == ring[i]; }
    }
  }

  /** Putting a buffer right behind the sentinel, as binit and brelse do. */
  lemma PutInFront(next: seq<nat>, prev: seq<nat>, ring: seq<nat>, b: nat)
    requires Chain(next, prev, ring) && b < NBUF && b !in ring
    ensures next[HEAD] <= NBUF
    ensures Chain(next[b := next[HEAD]][HEAD := b], prev[b := HEAD][next[HEAD] := b], InFront(ring, b))
  {
    ChainBounds(next, prev, ring, 0);
    var f := next[HEAD];
    var next', prev' := next[b := f][HEAD := b], prev[b := HEAD][f := b];
    var r := InFront(ring, b);
    forall i | 0 <= i < |r| - 1 ensures next'[r[i]] == r[i + 1] {
      if i >= 2 { assert r[i] == ring[i - 1] && r[i + 1] == ring[i]; }
    }
    forall i | 0 < i < |r| ensures prev'[r[i]] == r[i - 1] {
      if i > 2 { assert r[i] == ring[i - 1] && r[i - 1] == ring[i - 2]; }
    }
  }

  lemma MoveToFrontMembers(ring: seq<nat>, k: nat, c: nat)
    requires 0 < k < |ring| && c in ring
    ensures c in MoveToFront(ring, k)
  {
    var i :| 0 <= i < |ring| && ring[i] == c;
    assert MoveToFront(ring, k)[if i == 0 then 0 else if i == k then 1 else if i < k then i + 1 else i] == c;
  }

  /** What that does to every place of the ring. */
  lemma MovedToFront(ring: seq<nat>, k: nat)
    requires 0 < k < |ring|
    ensures var r := MoveToFront(ring, k);
            && |r| == |ring| && r[0] == ring[0] && r[1] == ring[k]
            && forall i | 1 < i < |ring| :: r[i] == if i <= k then ring[i - 1] else ring[i]
  {
  }

  /** Buffers stand in the ring in the order in which they were last released, the latest first. */
  ghost predicate Aged(ring: seq<nat>, released: seq<nat>, clock: nat) {
    && |released| == NBUF
    && (forall b | 0 <= b < NBUF :: released[b] < clock)
    && (forall i, j | 1 <= i < j < |ring| && ring[i] < NBUF && ring[j] < NBUF :: released[ring[i]] > released[ring[j]])
  }

  lemma ReleasedNow(ring: seq<nat>, released: seq<nat>, clock: nat, k: nat)
    requires Aged(ring, released, clock) && 0 < k < |ring| && ring[k] < NBUF
    requires forall i, j | 0 <= i < j < |ring| :: ring[i] != ring[j]
    ensures Aged(MoveToFront(ring, k), released[ring[k] := clock], clock + 1)
  {
    MovedToFront(ring, k);
    hide MoveToFront;
    var r, t := MoveToFront(ring, k), released[ring[k] := clock];
    forall i, j | 1 <= i < j < |r| && r[i] < NBUF && r[j] < NBUF ensures t[r[i]] > t[r[j]] {
      var p, q := if i <= k then i - 1 else i, if j <= k then j - 1 else j;
      if i > 1 {
        assert released[ring[p]] > released[ring[q]];
      }
    }
  }

  // ---- contents -------------------------------------------------------------------------------------------

  /** No two buffers hold the same block of the same device.  Buffers start out as block 0 of device 0, so this
      speaks of real devices only. */
  ghost predicate Unique(buf: seq<Buf>) {
    forall i, j | 0 <= i < j < |buf| && buf[i].dev == buf[j].dev != 0 :: buf[i].blockno != buf[j].blockno
  }

  /** view is the logical disk: what the cache holds, and the disk itself where it holds nothing. */
  ghost predicate IsView(buf: seq<Buf>, disk: Disk, view: Disk) {
    && |view| == |disk|
    && (forall i | 0 <= i < |buf| && buf[i].dev == 1 :: buf[i].blockno < |view| && view[buf[i].blockno] == buf[i].data)
    && (forall k | 0 <= k < |disk| && !Cached(buf, k) :: view[k] == disk[k])
  }

  /** A buffer of device 1 holds valid data, which is what the disk holds unless the buffer is pinned. */
  ghost predicate Coherent(buf: seq<Buf>, disk: Disk) {
    && (forall i | 0 <= i < |buf| :: buf[i].dev <= 1 && (buf[i].dev == 1 <==> buf[i].valid))
    && (forall i | 0 <= i < |buf| && buf[i].dev == 0 :: buf[i].blockno == 0 && !Pinned(buf[i]))
    && (forall i | 0 <= i < |buf| && buf[i].dev == 1 && !Pinned(buf[i]) ::
          buf[i].blockno < |disk| && buf[i].data == disk[buf[i].blockno])
  }

  /** Everything behind position r of the ring is pinned. */
  ghost predicate LastFree(buf: seq<Buf>, ring: seq<nat>, r: nat) {
    && 1 <= r < |ring|
    && forall q | r < q < |ring| :: ring[q] < |buf| && Pinned(buf[ring[q]])
  }

  ghost predicate LeastRecentlyUsed(buf: seq<Buf>, ring: seq<nat>, b: nat) {
    exists r: nat :: LastFree(buf, ring, r) && ring[r] == b
  }

  /** Blocks that are pinned in the cache. */
  ghost function PinnedBlocks(buf: seq<Buf>): set<nat> {
    set i | 0 <= i < |buf| && Pinned(buf[i]) :: buf[i].blockno
  }

  /** Pigeonhole: all buffers are pinned exactly when as many blocks are pinned as there are buffers. */
  lemma {:induction false} AllPinned(buf: seq<Buf>)
    requires Unique(buf)
    requires forall i | 0 <= i < |buf| && Pinned(buf[i]) :: buf[i].dev == 1
    ensures |PinnedBlocks(buf)| <= |buf|
    ensures (forall i | 0 <= i < |buf| :: Pinned(buf[i])) <==> |PinnedBlocks(buf)| == |buf|
  {
    if buf == [] {
      assert PinnedBlocks(buf) == {};
    } else {
      var n := |buf| - 1;
      var rest := buf[..n];
      AllPinned(rest);
      if Pinned(buf[n]) {
        assert buf[n].blockno !in PinnedBlocks(rest);
        assert PinnedBlocks(buf) == PinnedBlocks(rest) + {buf[n].blockno};
      } else {
        assert PinnedBlocks(buf) == PinnedBlocks(rest);
      }
      assert forall i | 0 <= i < n :: buf[i] == rest[i];
    }
  }

  lemma SameCached(buf: seq<Buf>, buf': seq<Buf>, k: nat)
    requires |buf| == |buf'|
    requires forall i | 0 <= i < |buf| :: buf'[i].dev == buf[i].dev && buf'[i].blockno == buf[i].blockno
    ensures Cached(buf, k) <==> Cached(buf', k)
  {
    if Cached(buf, k) {
      var i :| Caches(buf, i, k);
      assert Caches(buf', i, k);
    }
    if Cached(buf', k) {
      var i :| Caches(buf', i, k);
      assert Caches(buf, i, k);
    }
  }

  /** The contents, flags or count of one held block may change, and the disk and the logical disk with it, in that
      block only. */
  lemma StillGood(buf: seq<Buf>, buf': seq<Buf>, disk: Disk, disk': Disk, view: Disk, view': Disk, b: nat)
    requires IsView(buf, disk, view) && Unique(buf) && Coherent(buf, disk)
    requires b < |buf| == |buf'| && buf' == buf[b := buf'[b]]
    requires buf'[b].dev == buf[b].dev == 1 && buf'[b].blockno == buf[b].blockno
    requires var k := buf[b].blockno;
             && view' == view[k := buf'[b].data]
             && |disk'| == |disk| && forall j | 0 <= j < |disk| && j != k :: disk'[j] == disk[j]
    requires buf'[b].valid && (Pinned(buf'[b]) || buf'[b].data == disk'[buf[b].blockno])
    ensures IsView(buf', disk', view') && Unique(buf') && Coherent(buf', disk')
  {
    forall k | 0 <= k < |disk'| && !Cached(buf', k) ensures view'[k] == disk'[k] {
      SameCached(buf, buf', k);
      assert Caches(buf, b, buf[b].blockno);
    }
  }

  /** Recycling a buffer leaves the logical disk as it was: the block pushed out of the cache is on the disk. */
  lemma Recycled(buf: seq<Buf>, buf': seq<Buf>, disk: Disk, view: Disk, b: nat, k: nat)
    requires IsView(buf, disk, view) && Coherent(buf, disk) && Unique(buf) && k < |disk|
    requires b < |buf| == |buf'| && buf' == buf[b := buf'[b]] && !Pinned(buf[b])
    requires !Cached(buf, k)
    requires buf'[b].dev == 1 && buf'[b].blockno == k && buf'[b].valid && buf'[b].data == disk[k]
    ensures IsView(buf', disk, view) && Unique(buf') && Coherent(buf', disk) && view[k] == disk[k]
  {
    assert forall i | 0 <= i < |buf| && buf[i].dev == 1 :: buf[i].blockno != k by {
      if i: int :| 0 <= i < |buf| && buf[i].dev == 1 && buf[i].blockno == k { assert Caches(buf, i, k); }
    }
    forall j | 0 <= j < |disk| && !Cached(buf', j) ensures view[j] == disk[j] {
      if Cached(buf, j) {
        var i :| Caches(buf, i, j);
        if i != b {
          assert Caches(buf', i, j);
        }
      }
    }
    assert Caches(buf', b, k);
  }

  /** The buffer that bget recycles has been released before every other that it could have recycled. */
  lemma LongestUnused(next: seq<nat>, prev: seq<nat>, ring: seq<nat>, released: seq<nat>, clock: nat, buf: seq<Buf>,
                      b: nat)
    requires Linked(next, prev, ring) && Aged(ring, released, clock) && |buf| == NBUF && b < NBUF
    requires LeastRecentlyUsed(buf, ring, b)
    ensures forall o: nat | o < NBUF && o != b && !Pinned(buf[o]) :: released[b] < released[o]
  {
    var r: nat :| LastFree(buf, ring, r) && ring[r] == b;
    forall o: nat | o < NBUF && o != b && !Pinned(buf[o]) ensures released[b] < released[o] {
      assert o in ring;
      var q :| 0 <= q < |ring| && ring[q] == o;
      assert q < r;
    }
  }

  /** When bget finds no buffer, and what a buffer that it finds is like. */
  lemma BgetFails(buf: seq<Buf>, disk: Disk, view: Disk, dev: nat, k: nat)
    requires IsView(buf, disk, view) && Coherent(buf, disk) && Unique(buf) && |buf| == NBUF
    ensures Cached(buf, k) <==> exists i :: 0 <= i < NBUF && buf[i].dev == 1 && buf[i].blockno == k
    ensures (forall i | 0 <= i < NBUF :: Pinned(buf[i])) <==> |PinnedBlocks(buf)| == NBUF
    ensures forall i | 0 <= i < NBUF :: buf[i].valid <==> buf[i].dev == 1
    ensures Cached(buf, k) ==> k < |disk|
  {
    AllPinned(buf);
    if i: int :| 0 <= i < NBUF && buf[i].dev == 1 && buf[i].blockno == k {
      assert Caches(buf, i, k);
    }
  }

  lemma Found(buf: seq<Buf>, buf': seq<Buf>, disk: Disk, view: Disk, b: nat, k: nat)
    requires IsView(buf, disk, view) && Coherent(buf, disk) && Unique(buf)
    requires b < |buf| == |buf'| && Caches(buf, b, k) && buf' == buf[b := buf[b].(refcnt := buf[b].refcnt + 1)]
    ensures IsView(buf', disk, view) && Unique(buf') && Coherent(buf', disk) && view[k] == buf[b].data && k < |disk|
  {
    StillGood(buf, buf', disk, disk, view, view, b);
  }

  /** The buffers other than b follow each other in the ring as before. */
  ghost predicate OthersInOrder(ring: seq<nat>, ring': seq<nat>, b: nat) {
    && |ring'| == |ring|
    && forall i, j | 0 <= i < j < |ring| && ring[i] != b && ring[j] != b :: Precedes(ring', ring[i], ring[j])
  }

  ghost predicate Precedes(ring: seq<nat>, x: nat, y: nat) {
    exists i, j :: 0 <= i < j < |ring| && ring[i] == x && ring[j] == y
  }

  lemma KeepsOrder(ring: seq<nat>, k: nat)
    requires 0 < k < |ring| && forall i, j | 0 <= i < j < |ring| :: ring[i] != ring[j]
    ensures OthersInOrder(ring, MoveToFront(ring, k), ring[k])
  {
    MovedToFront(ring, k);
    hide MoveToFront;
    var r := MoveToFront(ring, k);
    forall i, j | 0 <= i < j < |ring| && ring[i] != ring[k] && ring[j] != ring[k]
      ensures Precedes(r, ring[i], ring[j])
    {
      var p, q := if 0 < i < k then i + 1 else i, if j < k then j + 1 else j;
      assert r[p] == ring[i] && r[q] == ring[j];
    }
  }

  lemma InRing(next: seq<nat>, prev: seq<nat>, ring: seq<nat>, b: nat) returns (k: nat)
    requires Linked(next, prev, ring) && b < NBUF
    ensures 1 <= k <= NBUF && ring[k] == b
  {
    assert b in ring;
    k :| 0 <= k <= NBUF && ring[k] == b;
  }

  /** Nobody is lost on the way to the front. */
  lemma ToFront(next: seq<nat>, prev: seq<nat>, ring: seq<nat>, k: nat)
    requires Linked(next, prev, ring) && 1 <= k <= NBUF
    ensures forall c: nat | c <= NBUF :: c in MoveToFront(ring, k)
    ensures |MoveToFront(ring, k)| == NBUF + 1 && MoveToFront(ring, k)[1] == ring[k]
    ensures forall i, j | 0 <= i < j < |ring| :: ring[i] != ring[j]
  {
    forall c: nat | c <= NBUF ensures c in MoveToFront(ring, k) {
      MoveToFrontMembers(ring, k, c);
    }
  }

  lemma NotAllPinned(buf: seq<Buf>, disk: Disk, b: nat)
    requires Unique(buf) && Coherent(buf, disk) && |buf| == NBUF && b < NBUF && !Pinned(buf[b])
    ensures |PinnedBlocks(buf)| < NBUF
  {
    AllPinned(buf);
  }

  class BCache {
    var disk: Disk
    var buf: seq<Buf>
    var next: seq<nat>
    var prev: seq<nat>
    ghost var ring: seq<nat>
    /** When each buffer was last released by its last user, on a clock that ticks with these releases. */
    ghost var released: seq<nat>
    ghost var clock: nat
    ghost var view: Disk
    /** Every disk image since power-on: the last is the current one. */
    ghost var trace: seq<Disk>

    ghost predicate Valid()
      reads this
    {
      && |buf| == NBUF
      && Linked(next, prev, ring)
      && Aged(ring, released, clock)
      && Unique(buf)
      && IsView(buf, disk, view)
      && Coherent(buf, disk)
      && trace != []
      && trace[|trace| - 1] == disk
    }

    /** binit: an empty cache on a given disk. */
    constructor (d: Disk)
      ensures Valid()
      ensures disk == view == d && trace == [d]
      ensures forall i | 0 <= i < NBUF :: buf[i].dev == 0 && !Pinned(buf[i])
      ensures released == seq(NBUF, i => i)
    {
      disk, view, trace := d, d, [d];
      buf := seq(NBUF, i => Buf(0, 0, false, false, 0, ZERO_BLOCK));
      next, prev := seq(NBUF + 1, i => HEAD), seq(NBUF + 1, i => HEAD);
      ring, released, clock := [HEAD], seq(NBUF, i => i), NBUF;
      new;
      var b := 0;
      while b < NBUF
        invariant 0 <= b <= NBUF
        invariant Chain(next, prev, ring)
        invariant |ring| == b + 1
        invariant forall i | 1 <= i <= b :: ring[i] == b - i
        modifies this`next, this`prev, this`ring
      {
        PutInFront(next, prev, ring, b);
        next := next[b := next[HEAD]];
        prev := prev[b := HEAD];
        prev := prev[next[HEAD] := b];
        next := next[HEAD := b];
        ring := InFront(ring, b);
        b := b + 1;
      }
      forall b: nat | b <= NBUF ensures b in ring {
        assert ring[if b == HEAD then 0 else NBUF - b] == b;
      }
    }

    /** iderw of memide.c: write a dirty buffer, or read an invalid one.  False is a panic. */
    method Iderw(b: nat) returns (ok: bool)
      requires b < |buf| && trace != []
      modifies this`disk, this`buf, this`trace
      ensures ok <==>
                !(old(buf[b].valid) && !old(buf[b].dirty)) && old(buf[b].dev) == 1 && old(buf[b].blockno) < |old(disk)|
      ensures ok && old(buf[b].dirty) ==>
                && disk == old(disk)[old(buf[b].blockno) := old(buf[b].data)]
                && trace == old(trace) + [disk]
                && buf == old(buf)[b := old(buf[b]).(dirty := false, valid := true)]
      ensures ok && !old(buf[b].dirty) ==>
                && disk == old(disk) && trace == old(trace)
                && buf == old(buf)[b := old(buf[b]).(valid := true, data := disk[old(buf[b].blockno)])]
      ensures !ok ==> disk == old(disk) && trace == old(trace) && buf == old(buf)
    {
      if buf[b].valid && !buf[b].dirty { return false; }
      if buf[b].dev != 1 { return false; }
      if buf[b].blockno >= |disk| { return false; }
      if buf[b].dirty {
        buf := buf[b := buf[b].(dirty := false)];
        disk := disk[buf[b].blockno := buf[b].data];
        trace := trace + [disk];
      } else {
        buf := buf[b := buf[b].(data := disk[buf[b].blockno])];
      }
      buf := buf[b := buf[b].(valid := true)];
      return true;
    }

    /** bget: the buffer already caching the block, or else the least recently used one that is not pinned. */
    method Bget(dev: nat, blockno: nat) returns (b: int)
      requires |buf| == NBUF && Linked(next, prev, ring)
      modifies this`buf
      ensures b == PANIC || 0 <= b < NBUF
      ensures b == PANIC <==>
                && (forall i | 0 <= i < NBUF :: !(old(buf[i].dev) == dev && old(buf[i].blockno) == blockno))
                && (forall i | 0 <= i < NBUF :: Pinned(old(buf[i])))
      ensures b == PANIC ==> buf == old(buf)
      ensures b != PANIC && old(buf[b].dev) == dev && old(buf[b].blockno) == blockno ==>
                buf == old(buf)[b := old(buf[b]).(refcnt := old(buf[b].refcnt) + 1)]
      ensures b != PANIC && !(old(buf[b].dev) == dev && old(buf[b].blockno) == blockno) ==>
                && (forall i | 0 <= i < NBUF :: !(old(buf[i].dev) == dev && old(buf[i].blockno) == blockno))
                && buf == old(buf)[b := old(buf[b]).(dev := dev, blockno := blockno, valid := false, dirty := false,
                                                     refcnt := 1)]
                && !Pinned(old(buf[b]))
                && LeastRecentlyUsed(old(buf), ring, b)
    {
      b := next[HEAD];
      ghost var i := 1;
      while b != HEAD
        invariant 1 <= i <= NBUF + 1
        invariant b == if i <= NBUF then ring[i] else HEAD
        invariant forall j | 1 <= j < i :: !(buf[ring[j]].dev == dev && buf[ring[j]].blockno == blockno)
        decreases NBUF + 1 - i
      {
        if buf[b].dev == dev && buf[b].blockno == blockno {
          buf := buf[b := buf[b].(refcnt := buf[b].refcnt + 1)];
          return;
        }
        b := next[b];
        i := i + 1;
      }
      forall k | 0 <= k < NBUF ensures !(buf[k].dev == dev && buf[k].blockno == blockno) {
        assert k in ring;
      }
      b := prev[HEAD];
      i := NBUF;
      while b != HEAD
        invariant 0 <= i <= NBUF
        invariant b == ring[i]
        invariant forall j | i < j <= NBUF :: Pinned(buf[ring[j]])
        decreases i
      {
        if buf[b].refcnt == 0 && !buf[b].dirty {
          assert LastFree(buf, ring, i);
          buf := buf[b := buf[b].(dev := dev)];
          buf := buf[b := buf[b].(blockno := blockno)];
          buf := buf[b := buf[b].(valid := false, dirty := false)];
          buf := buf[b := buf[b].(refcnt := 1)];
          return;
        }
        b := prev[b];
        i := i - 1;
      }
      forall k | 0 <= k < NBUF ensures Pinned(buf[k]) {
        assert k in ring;
      }
      b := PANIC;
    }

    /** bread: a held buffer with the block's contents.  Whatever bget evicts, the logical disk stays the same. */
    method Bread(dev: nat, blockno: nat) returns (b: int)
      requires Valid()
      modifies this`buf, this`disk, this`trace
      ensures disk == old(disk) && trace == old(trace)
      ensures b == PANIC || 0 <= b < NBUF
      ensures b == PANIC <==> dev != 1 || blockno >= |disk| ||
                              (!Cached(old(buf), blockno) && |PinnedBlocks(old(buf))| == NBUF)
      ensures b != PANIC ==>
                && Valid()
                && buf == old(buf)[b := buf[b]]
                && Caches(buf, b, blockno)
                && buf[b].data == view[blockno]
                && if Caches(old(buf), b, blockno)
                   then buf[b] == old(buf[b]).(refcnt := old(buf[b].refcnt) + 1)
                   else
                     && !Cached(old(buf), blockno)
                     && !Pinned(old(buf[b])) && buf[b].refcnt == 1 && !buf[b].dirty
                     && forall o: nat | o < NBUF && o != b && !Pinned(old(buf[o])) :: released[b] < released[o]
    {
      hide Linked, Aged, IsView, Coherent, Unique, PinnedBlocks, LeastRecentlyUsed;
      BgetFails(buf, disk, view, dev, blockno);
      b := Bget(dev, blockno);
      if b == PANIC {
        return;
      }
      if !buf[b].valid {
        var ok := Iderw(b);
        if !ok {
          b := PANIC;
          return;
        }
        Recycled(old(buf), buf, disk, view, b, blockno);
        LongestUnused(next, prev, ring, released, clock, old(buf), b);
      } else {
        Found(old(buf), buf, disk, view, b, blockno);
      }
    }

    /** memmove into a held buffer. */
    method SetData(b: nat, data: Block)
      requires Valid() && b < NBUF && buf[b].dev == 1 && buf[b].refcnt > 0
      modifies this`buf, this`view
      ensures Valid()
      ensures buf == old(buf)[b := old(buf[b]).(data := data)]
      ensures view == old(view)[old(buf[b].blockno) := data]
    {
      hide Linked, Aged;
      buf := buf[b := buf[b].(data := data)];
      view := view[buf[b].blockno := data];
      StillGood(old(buf), buf, disk, disk, old(view), view, b);
    }

    /** bwrite: the disk block becomes what the logical disk says; B_DIRTY pins the buffer no longer. */
    method Bwrite(b: nat)
      requires Valid() && b < NBUF && buf[b].dev == 1 && buf[b].refcnt > 0
      modifies this`buf, this`disk, this`trace
      ensures Valid()
      ensures disk == old(disk)[old(buf[b].blockno) := view[old(buf[b].blockno)]]
      ensures trace == old(trace) + [disk]
      ensures buf == old(buf)[b := old(buf[b]).(dirty := false)]
    {
      hide Linked, Aged;
      buf := buf[b := buf[b].(dirty := true)];
      var ok := Iderw(b);
      assert ok;
      StillGood(old(buf), buf, old(disk), disk, view, view, b);
    }

    /** Set B_DIRTY, as log_write does. */
    method MarkDirty(b: nat)
      requires Valid() && b < NBUF && buf[b].dev == 1 && buf[b].refcnt > 0
      modifies this`buf
      ensures Valid()
      ensures buf == old(buf)[b := old(buf[b]).(dirty := true)]
    {
      hide Linked, Aged;
      buf := buf[b := buf[b].(dirty := true)];
      StillGood(old(buf), buf, disk, disk, view, view, b);
    }

    /** brelse: the last user moves the buffer to the front of the ring.  A user who changed the data has written
        it or marked it dirty before. */
    method Brelse(b: nat)
      requires Valid() && b < NBUF && buf[b].dev == 1 && buf[b].refcnt > 0
      requires buf[b].dirty || buf[b].data == disk[buf[b].blockno]
      modifies this`buf, this`ring, this`next, this`prev, this`released, this`clock
      ensures Valid()
      ensures buf == old(buf)[b := old(buf[b]).(refcnt := old(buf[b].refcnt) - 1)]
      ensures old(buf[b].refcnt) > 1 ==> ring == old(ring) && released == old(released)
      ensures old(buf[b].refcnt) == 1 ==>
                && released == old(released)[b := old(clock)]
                && next[HEAD] == b && ring[1] == b && OthersInOrder(old(ring), ring, b)
    {
      hide Linked, Aged, OthersInOrder;
      buf := buf[b := buf[b].(refcnt := buf[b].refcnt - 1)];
      StillGood(old(buf), buf, disk, disk, view, view, b);
      if buf[b].refcnt == 0 {
        MoveFirst(b);
      }
    }

    /** The relinking in brelse. */
    method MoveFirst(b: nat)
      requires Linked(next, prev, ring) && Aged(ring, released, clock) && b < NBUF
      modifies this`ring, this`next, this`prev, this`released, this`clock
      ensures Linked(next, prev, ring) && Aged(ring, released, clock)
      ensures released == old(released)[b := old(clock)]
      ensures next[HEAD] == b && ring[1] == b && OthersInOrder(old(ring), ring, b)
    {
      ghost var k := InRing(next, prev, ring, b);
      ToFront(next, prev, ring, k);
      ReleasedNow(ring, released, clock, k);
      KeepsOrder(ring, k);
      Unlinked(next, prev, ring, k);
      hide Chain, Aged, OthersInOrder;
      prev := prev[next[b] := prev[b]];
      next := next[prev[b] := next[b]];
      PutInFront(next, prev, Without(ring, k), b);
      next := next[b := next[HEAD]];
      prev := prev[b := HEAD];
      prev := prev[next[HEAD] := b];
      next := next[HEAD := b];
      ring := MoveToFront(ring, k);
      released := released[b := clock];
      clock := clock + 1;
    }

    /** A buffer that has just been released is not the next to be recycled, as long as there is another. */
    method ReleaseThenRead(b: nat, k: nat, ghost o: nat) returns (c: int)
      requires Valid() && b < NBUF && buf[b].dev == 1 && buf[b].refcnt == 1 && !buf[b].dirty
      requires buf[b].data == disk[buf[b].blockno] && k < |disk| && !Cached(buf, k)
      requires o < NBUF && o != b && !Pinned(buf[o])
      modifies this
      ensures 0 <= c < NBUF && c != b && Valid() && Caches(buf, c, k) && Caches(buf, b, old(buf[b].blockno))
    {
      hide Linked, IsView, Coherent, Unique, OthersInOrder;
      ghost var buf0 := buf;
      Brelse(b);
      SameCached(buf0, buf, k);
      NotAllPinned(buf, disk, b);
      c := Bread(1, k);
    }
  }
}
