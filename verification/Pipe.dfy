/** Pipes (pipe.c).  The ring buffer and its two wrapping counters are a class whose methods are what a process does
    between taking the pipe's lock and giving it up, by release or by sleep; they are proved to do to the queue of all
    bytes ever written what the functions before them say.  Any number of readers and writers then take such steps in
    any order. */
module Pipe {
  import opened Blocks
  import opened Params

  const PIPESIZE: nat := 512
  const UINT: nat := 0x1_0000_0000

  // ---------- The queue that a pipe is

  /** Every byte written so far, and how many of them have been read. */
  datatype Queue = Queue(stored: seq<Byte>, delivered: nat, readOpen: bool, writeOpen: bool)

  ghost predicate QueueOk(q: Queue) {
    q.delivered <= |q.stored| <= q.delivered + PIPESIZE
  }

  function InFlight(q: Queue): nat
    requires QueueOk(q)
  {
    |q.stored| - q.delivered
  }

  datatype WriteEnd = Wrote | WriteFailed | WriteSleeps

  datatype ReadEnd = Got(bytes: seq<Byte>) | ReadFailed | ReadSleeps

  /** How many of n bytes go in before the pipe is full. */
  function Room(q: Queue, n: nat): nat
    requires QueueOk(q)
  {
    Min(n, PIPESIZE - InFlight(q))
  }

  function WriteTo(q: Queue, src: seq<Byte>): (r: Queue)
    requires QueueOk(q)
    ensures QueueOk(r)
  {
    q.(stored := q.stored + src[..Room(q, |src|)])
  }

  function WriteResult(q: Queue, src: seq<Byte>, killed: bool): WriteEnd
    requires QueueOk(q)
  {
    if Room(q, |src|) == |src| then Wrote else if !q.readOpen || killed then WriteFailed else WriteSleeps
  }

  function ReadResult(q: Queue, n: nat, killed: bool): ReadEnd
    requires QueueOk(q)
  {
    if InFlight(q) == 0 && q.writeOpen then if killed then ReadFailed else ReadSleeps
    else Got(q.stored[q.delivered..q.delivered + Min(n, InFlight(q))])
  }

  function ReadFrom(q: Queue, n: nat): (r: Queue)
    requires QueueOk(q)
    ensures QueueOk(r)
  {
    q.(delivered := q.delivered + Min(n, InFlight(q)))
  }

  // ---------- The ring buffer

  /** The ring holds the bytes in flight, each at its number modulo the size. */
  ghost predicate Ring(data: seq<Byte>, q: Queue) {
    && |data| == PIPESIZE && QueueOk(q)
    && forall k: nat | q.delivered <= k < |q.stored| :: data[k % PIPESIZE] == q.stored[k]
  }

  lemma RingPut(data: seq<Byte>, q: Queue, b: Byte)
    requires Ring(data, q) && InFlight(q) < PIPESIZE
    ensures Ring(data[|q.stored| % PIPESIZE := b], q.(stored := q.stored + [b]))
  {
    var n := |q.stored|;
    var data', stored' := data[n % PIPESIZE := b], q.stored + [b];
    forall k: nat | q.delivered <= k < |stored'| ensures data'[k % PIPESIZE] == stored'[k] {
      if k < n {
        assert data[k % PIPESIZE] == q.stored[k];
        OtherPlace(k, n);
      }
    }
  }

  lemma OtherPlace(k: nat, n: nat)
    requires k < n < k + PIPESIZE
    ensures k % PIPESIZE != n % PIPESIZE
  {
  }

  /** The counters may wrap: what the kernel tests on them still holds of the numbers that they count. */
  lemma Counters(q: Queue, nread: Word, nwrite: Word)
    requires QueueOk(q) && nread == q.delivered % UINT && nwrite == |q.stored| % UINT
    ensures nread == nwrite <==> InFlight(q) == 0
    ensures nwrite == (nread + PIPESIZE) % UINT <==> InFlight(q) == PIPESIZE
    ensures nread % PIPESIZE == q.delivered % PIPESIZE && nwrite % PIPESIZE == |q.stored| % PIPESIZE
    ensures (nread + 1) % UINT == (q.delivered + 1) % UINT && (nwrite + 1) % UINT == (|q.stored| + 1) % UINT
  {
    hide QueueOk;
    var d, n := q.delivered, |q.stored|;
    QueueRange(q);
    Wraps(d, 1);
    Wraps(n, 1);
    Wraps(d, PIPESIZE);
    SameRemainder(d, n);
    SameRemainder(n, d + PIPESIZE);
  }

  lemma QueueRange(q: Queue)
    requires QueueOk(q)
    ensures q.delivered <= |q.stored| <= q.delivered + PIPESIZE
  {
  }

  lemma SameRemainder(a: nat, b: nat)
    requires a <= b <= a + PIPESIZE
    ensures a % UINT == b % UINT <==> a == b
  {
    var da, db := a / UINT, b / UINT;
    assert a == UINT * da + a % UINT && b == UINT * db + b % UINT;
    if a % UINT == b % UINT {
      assert b - a == UINT * (db - da);
    }
  }

  lemma Wraps(n: nat, m: nat)
    requires m <= PIPESIZE
    ensures n % UINT % PIPESIZE == n % PIPESIZE && (n % UINT + m) % UINT == (n + m) % UINT
  {
    var d := n / UINT;
    assert n == UINT * d + n % UINT;
    SmallPart(n, PIPESIZE, 0x80_0000 * d + n % UINT / PIPESIZE, n % UINT % PIPESIZE);
    if n % UINT + m < UINT {
      SmallPart(n + m, UINT, d, n % UINT + m);
    } else {
      SmallPart(n + m, UINT, d + 1, n % UINT + m - UINT);
    }
  }

  lemma SmallPart(n: nat, m: nat, k: nat, r: nat)
    requires r < m && n == m * k + r
    ensures n % m == r
  {
    var k', r' := n / m, n % m;
    assert n == m * k' + r';
    OneMore(m, k', k);
    OneMore(m, k, k');
  }

  class PipeBuffer {
    var data: array<Byte>
    var nread: Word
    var nwrite: Word
    var readopen: bool
    var writeopen: bool
    /** The queue that the fields stand for. */
    ghost var q: Queue

    ghost predicate Valid()
      reads this, data
    {
      && data.Length == PIPESIZE && Ring(data[..], q)
      && nread == q.delivered % UINT && nwrite == |q.stored| % UINT
      && readopen == q.readOpen && writeopen == q.writeOpen
    }

    /** pipealloc. */
    constructor ()
      ensures Valid() && fresh(data) && q == Queue([], 0, true, true)
    {
      data := new Byte[512];
      nread, nwrite, readopen, writeopen := 0, 0, true, true;
      q := Queue([], 0, true, true);
    }

    /** pipewrite from byte done on, up to its end or the next sleep. */
    method Write(addr: seq<Byte>, done: nat, killed: bool) returns (r: WriteEnd, i: nat)
      requires Valid() && done <= |addr|
      modifies this`nwrite, this`q, data
      ensures Valid() && data == old(data)
      ensures q == WriteTo(old(q), addr[done..]) && r == WriteResult(old(q), addr[done..], killed)
      ensures done <= i <= |addr| && q == old(q).(stored := old(q).stored + addr[done..i])
      ensures i < |addr| ==> |q.stored| == q.delivered + PIPESIZE
      ensures r == Wrote <==> i == |addr|
      ensures r == WriteFailed <==> i < |addr| && (!q.readOpen || killed)
      ensures r == WriteSleeps <==> i < |addr| && q.readOpen && !killed
    {
      hide Ring;
      RingQueue(data[..], q);
      i := done;
      while i < |addr|
        invariant done <= i <= |addr| && Valid()
        invariant QueueOk(old(q)) && i - done <= PIPESIZE - InFlight(old(q))
        invariant q == old(q).(stored := old(q).stored + addr[done..i])
      {
        RingQueue(data[..], q);
        Counters(q, nread, nwrite);
        assert addr[done..][..i - done] == addr[done..i];
        if nwrite == (nread + PIPESIZE) % UINT {
          return if !readopen || killed then WriteFailed else WriteSleeps, i;
        }
        RingPut(data[..], q, addr[i]);
        data[nwrite % PIPESIZE] := addr[i];
        nwrite := (nwrite + 1) % UINT;
        q := q.(stored := q.stored + [addr[i]]);
        assert addr[done..i + 1] == addr[done..i] + [addr[i]];
        i := i + 1;
      }
      assert addr[done..][..i - done] == addr[done..];
      r := Wrote;
    }

    /** piperead, up to its end or its sleep. */
    method Read(n: nat, killed: bool) returns (r: ReadEnd)
      requires Valid()
      modifies this`nread, this`q
      ensures Valid() && QueueOk(old(q))
      ensures r == ReadResult(old(q), n, killed) && q == if r.Got? then ReadFrom(old(q), n) else old(q)
      ensures r == ReadSleeps <==> old(q).delivered == |old(q).stored| && q.writeOpen && !killed
      ensures r == ReadFailed <==> old(q).delivered == |old(q).stored| && q.writeOpen && killed
      ensures r.Got? ==>
                && q == old(q).(delivered := old(q).delivered + |r.bytes|) && q.delivered <= |q.stored|
                && r.bytes == q.stored[old(q).delivered..q.delivered] && |r.bytes| <= n
                && (|r.bytes| < n ==> q.delivered == |q.stored|)
      ensures n > 0 ==> (r == Got([]) <==> old(q).delivered == |old(q).stored| && !old(q).writeOpen)
    {
      hide Ring;
      RingQueue(data[..], q);
      Counters(q, nread, nwrite);
      if nread == nwrite && writeopen {
        return if killed then ReadFailed else ReadSleeps;
      }
      var addr := Copy(n);
      r := Got(addr);
    }

    /** What goes into an empty pipe comes out of it, if it fits in it. */
    method WriteThenRead(src: seq<Byte>, killed: bool) returns (w: WriteEnd, r: ReadEnd)
      requires Valid() && q.delivered == |q.stored| && 0 < |src| <= PIPESIZE
      modifies this`nread, this`nwrite, this`q, data
      ensures Valid() && w == Wrote && r == Got(src) && q.delivered == |q.stored|
    {
      hide Ring;
      var i;
      w, i := Write(src, 0, killed);
      assert src[0..i] == src;
      r := Read(|src|, killed);
    }

    /** The copy loop of piperead. */
    method Copy(n: nat) returns (addr: seq<Byte>)
      requires Valid()
      modifies this`nread, this`q
      ensures Valid() && QueueOk(old(q)) && q == ReadFrom(old(q), n)
      ensures addr == q.stored[old(q).delivered..q.delivered]
    {
      hide Ring;
      RingQueue(data[..], q);
      addr := [];
      ghost var stored, d0 := q.stored, q.delivered;
      var i := 0;
      while i < n
        invariant 0 <= i <= n && Valid() && d0 + i <= |stored|
        invariant q == old(q).(delivered := d0 + i)
        invariant addr == stored[d0..d0 + i]
      {
        RingQueue(data[..], q);
        Counters(q, nread, nwrite);
        if nread == nwrite {
          break;
        }
        RingGet(data[..], q);
        OneByte(stored, d0, i);
        addr := addr + [data[nread % PIPESIZE]];
        nread := (nread + 1) % UINT;
        q := q.(delivered := q.delivered + 1);
        i := i + 1;
      }
    }

    /** pipeclose.  Freeing the page once both ends are closed is not part of this model. */
    method Close(writable: bool)
      requires Valid()
      modifies this`readopen, this`writeopen, this`q
      ensures Valid()
      ensures q == if writable then old(q).(writeOpen := false) else old(q).(readOpen := false)
    {
      if writable {
        writeopen := false;
        q := q.(writeOpen := false);
      } else {
        readopen := false;
        q := q.(readOpen := false);
      }
      RingClosed(data[..], old(q), q);
    }
  }

  lemma OneByte(s: seq<Byte>, d: nat, i: nat)
    requires d + i < |s|
    ensures s[d..d + i] + [s[d + i]] == s[d..d + i + 1]
  {
  }

  lemma RingQueue(data: seq<Byte>, q: Queue)
    requires Ring(data, q)
    ensures QueueOk(q)
  {
  }

  lemma RingGet(data: seq<Byte>, q: Queue)
    requires Ring(data, q) && InFlight(q) > 0
    ensures data[q.delivered % PIPESIZE] == q.stored[q.delivered]
    ensures Ring(data, q.(delivered := q.delivered + 1))
  {
  }

  lemma RingClosed(data: seq<Byte>, q: Queue, q': Queue)
    requires Ring(data, q) && q'.stored == q.stored && q'.delivered == q.delivered
    ensures Ring(data, q')
  {
  }

  // ---------- Readers and writers

  /** A process in piperead or pipewrite, about to run or asleep; a writer has the rest of its bytes to write. */
  datatype Proc = Out | Reading(n: nat) | ReadAsleep(n: nat) | Writing(rest: seq<Byte>) | WriteAsleep(rest: seq<Byte>)

  /** got is what all reads together have returned, in order. */
  datatype State = State(q: Queue, procs: seq<Proc>, killed: seq<bool>, got: seq<Byte>)

  datatype Act = StartRead(n: nat) | StartWrite(src: seq<Byte>) | Go | CloseRead | CloseWrite | Kill

  function WakeReaders(procs: seq<Proc>): (r: seq<Proc>)
    ensures |r| == |procs|
  {
    seq(|procs|, j requires 0 <= j < |procs| => if procs[j].ReadAsleep? then Reading(procs[j].n) else procs[j])
  }

  function WakeWriters(procs: seq<Proc>): (r: seq<Proc>)
    ensures |r| == |procs|
  {
    seq(|procs|, j requires 0 <= j < |procs| => if procs[j].WriteAsleep? then Writing(procs[j].rest) else procs[j])
  }

  /** A process calls read or write only through an open end, and an end is closed with its last user gone. */
  ghost predicate Enabled(s: State, i: nat, a: Act) {
    && i < |s.procs| == |s.killed|
    && match a
       case StartRead(_) => s.procs[i].Out? && s.q.readOpen
       case StartWrite(_) => s.procs[i].Out? && s.q.writeOpen
       case Go => s.procs[i].Reading? || s.procs[i].Writing?
       case CloseRead =>
         && s.q.readOpen
         && forall j | 0 <= j < |s.procs| :: !s.procs[j].Reading? && !s.procs[j].ReadAsleep?
       case CloseWrite =>
         && s.q.writeOpen
         && forall j | 0 <= j < |s.procs| :: !s.procs[j].Writing? && !s.procs[j].WriteAsleep?
       case Kill => true
  }

  /** A writer runs: unless it fails, it wakes the readers. */
  function WriteStep(s: State, i: nat): State
    requires QueueOk(s.q) && i < |s.procs| == |s.killed| && s.procs[i].Writing?
  {
    var src := s.procs[i].rest;
    match WriteResult(s.q, src, s.killed[i])
    case Wrote => State(WriteTo(s.q, src), WakeReaders(s.procs)[i := Out], s.killed, s.got)
    case WriteFailed => State(WriteTo(s.q, src), s.procs[i := Out], s.killed, s.got)
    case WriteSleeps =>
      State(WriteTo(s.q, src), WakeReaders(s.procs)[i := WriteAsleep(src[Room(s.q, |src|)..])], s.killed, s.got)
  }

  /** A reader runs: when it gets to the copy, it wakes the writers. */
  function ReadStep(s: State, i: nat): State
    requires QueueOk(s.q) && i < |s.procs| == |s.killed| && s.procs[i].Reading?
  {
    var n := s.procs[i].n;
    match ReadResult(s.q, n, s.killed[i])
    case Got(bytes) => State(ReadFrom(s.q, n), WakeWriters(s.procs)[i := Out], s.killed, s.got + bytes)
    case ReadFailed => s.(procs := s.procs[i := Out])
    case ReadSleeps => s.(procs := s.procs[i := ReadAsleep(n)])
  }

  function Step(s: State, i: nat, a: Act): State
    requires QueueOk(s.q) && Enabled(s, i, a)
  {
    match a
    case StartRead(n) => s.(procs := s.procs[i := Reading(n)])
    case StartWrite(src) => s.(procs := s.procs[i := Writing(src)])
    case Go => if s.procs[i].Writing? then WriteStep(s, i) else ReadStep(s, i)
    case CloseRead => s.(q := s.q.(readOpen := false), procs := WakeWriters(s.procs))
    case CloseWrite => s.(q := s.q.(writeOpen := false), procs := WakeReaders(s.procs))
    case Kill => s.(killed := s.killed[i := true], procs := s.procs[i := Roused(s.procs[i])])
  }

  function Roused(p: Proc): Proc {
    match p
    case ReadAsleep(n) => Reading(n)
    case WriteAsleep(rest) => Writing(rest)
    case _ => p
  }

  /** What holds in every reachable state: the bytes read are a prefix of those written, and at most 512 are in
      flight. */
  ghost predicate Fifo(s: State) {
    && |s.killed| == |s.procs|
    && QueueOk(s.q)
    && s.got == s.q.stored[..s.q.delivered]
  }

  /** Readers sleep only on an empty pipe that may still be written to, writers only on a full one that may be read. */
  ghost predicate SleeperOk(q: Queue, p: Proc)
    requires QueueOk(q)
  {
    && (p.ReadAsleep? ==> InFlight(q) == 0 && q.writeOpen && q.readOpen)
    && (p.WriteAsleep? ==> InFlight(q) == PIPESIZE && q.readOpen)
    && (p.Reading? ==> q.readOpen)
  }

  ghost predicate Sleepers(s: State) {
    QueueOk(s.q) && forall j | 0 <= j < |s.procs| :: SleeperOk(s.q, s.procs[j])
  }

  /** The step at which pipewrite leaves readers asleep beside data: a killed writer fills the pipe and fails. */
  ghost predicate Strands(s: State, i: nat, a: Act)
    requires QueueOk(s.q) && Enabled(s, i, a)
  {
    && a == Go && s.procs[i].Writing? && s.killed[i]
    && WriteResult(s.q, s.procs[i].rest, true) == WriteFailed
    && (exists j :: 0 <= j < |s.procs| && s.procs[j].ReadAsleep?)
  }

  lemma StepFifo(s: State, i: nat, a: Act)
    requires Fifo(s) && Enabled(s, i, a)
    ensures Fifo(Step(s, i, a)) && s.q.stored <= Step(s, i, a).q.stored
  {
    if a == Go && s.procs[i].Reading? && ReadResult(s.q, s.procs[i].n, s.killed[i]).Got? {
      var d, m := s.q.delivered, Min(s.procs[i].n, InFlight(s.q));
      assert s.q.stored[..d] + s.q.stored[d..d + m] == s.q.stored[..d + m];
    }
  }

  /** Every step keeps sleepers where they belong, except one that strands a reader, which never does. */
  lemma StepSleepers(s: State, i: nat, a: Act)
    requires Sleepers(s) && Enabled(s, i, a)
    ensures Sleepers(Step(s, i, a)) <==> !Strands(s, i, a)
  {
    hide SleeperOk;
    var s' := Step(s, i, a);
    if !Strands(s, i, a) {
      forall j: nat | j < |s'.procs| ensures SleeperOk(s'.q, s'.procs[j]) {
        SleeperStep(s, i, a, j);
      }
    } else {
      var j :| 0 <= j < |s.procs| && s.procs[j].ReadAsleep?;
      Stranded(s, i, j);
    }
  }

  lemma SleeperStep(s: State, i: nat, a: Act, j: nat)
    requires Sleepers(s) && Enabled(s, i, a) && j < |s.procs| && !Strands(s, i, a)
    ensures j < |Step(s, i, a).procs| && QueueOk(Step(s, i, a).q) && SleeperOk(Step(s, i, a).q, Step(s, i, a).procs[j])
  {
    assert SleeperOk(s.q, s.procs[i]) && SleeperOk(s.q, s.procs[j]);
  }

  lemma Stranded(s: State, i: nat, j: nat)
    requires Sleepers(s) && Enabled(s, i, Go) && Strands(s, i, Go) && j < |s.procs| && s.procs[j].ReadAsleep?
    ensures !Sleepers(Step(s, i, Go))
  {
    assert SleeperOk(s.q, s.procs[j]);
    assert Step(s, i, Go).procs[j].ReadAsleep?;
    assert !SleeperOk(Step(s, i, Go).q, Step(s, i, Go).procs[j]);
  }

  // ---------- Runs

  ghost predicate Init(s: State) {
    && s.q == Queue([], 0, true, true) && s.got == []
    && |s.killed| == |s.procs|
    && forall j | 0 <= j < |s.procs| :: s.procs[j] == Out && !s.killed[j]
  }

  ghost predicate Moved(s: State, i: nat, a: Act, s': State) {
    QueueOk(s.q) && Enabled(s, i, a) && s' == Step(s, i, a)
  }

  /** A run, and the act of each of its steps. */
  ghost predicate Run(run: seq<State>, who: seq<nat>, acts: seq<Act>) {
    && |run| == |who| + 1 == |acts| + 1 && Init(run[0])
    && forall k: nat, m | m == k + 1 && m < |run| :: Moved(run[k], who[k], acts[k], run[m])
  }

  /** Over every run, whoever reads and writes in whatever order, even with kills: the bytes read so far are the first
      bytes written, in order, with 0 to 512 in flight. */
  lemma {:induction false} Delivered(run: seq<State>, who: seq<nat>, acts: seq<Act>, k: nat)
    requires Run(run, who, acts) && k < |run|
    ensures Fifo(run[k])
  {
    if k > 0 {
      var j := k - 1;
      Delivered(run, who, acts, j);
      assert Moved(run[j], who[j], acts[j], run[k]);
      StepFifo(run[j], who[j], acts[j]);
    }
  }

  /** What a process has still to write. */
  function Rest(p: Proc): seq<Byte> {
    if p.Writing? || p.WriteAsleep? then p.rest else []
  }

  /** The bytes that process i has put into the pipe by state k. */
  ghost function Put(run: seq<State>, who: seq<nat>, i: nat, k: nat): seq<Byte>
    requires k <= |who| < |run|
  {
    if k == 0 then []
    else
      Put(run, who, i, k - 1) +
        (if who[k - 1] == i && run[k - 1].q.stored <= run[k].q.stored
         then run[k].q.stored[|run[k - 1].q.stored|..] else [])
  }

  /** The bytes that process i has been told to write. */
  ghost function Told(who: seq<nat>, acts: seq<Act>, i: nat, k: nat): seq<Byte>
    requires k <= |who| == |acts|
  {
    if k == 0 then []
    else Told(who, acts, i, k - 1) + (if who[k - 1] == i && acts[k - 1].StartWrite? then acts[k - 1].src else [])
  }

  lemma StepRest(s: State, i: nat, a: Act, j: nat)
    requires QueueOk(s.q) && Enabled(s, i, a) && a != Kill && a != CloseRead && j < |s.procs|
    requires s.q.readOpen && !s.killed[i]
    ensures var s' := Step(s, i, a);
            && s'.q.readOpen && s'.killed == s.killed && |s'.procs| == |s.procs| && s.q.stored <= s'.q.stored
            && (j != i ==> Rest(s'.procs[j]) == Rest(s.procs[j]))
            && s'.q.stored[|s.q.stored|..] + Rest(s'.procs[i])
            == Rest(s.procs[i]) + if a.StartWrite? then a.src else []
  {
    if a == Go && s.procs[i].Writing? {
      var src := s.procs[i].rest;
      assert src[..Room(s.q, |src|)] + src[Room(s.q, |src|)..] == src;
    }
  }

  /** With a reader's end open and nobody killed, each process gets all its bytes into the pipe, in order and once, but
      for what it has still to write: a sleep in the middle of a write loses nothing and repeats nothing. */
  lemma {:induction false} AllGoesIn(run: seq<State>, who: seq<nat>, acts: seq<Act>, i: nat, k: nat)
    requires Run(run, who, acts) && k < |run| && i < |run[0].procs| && Kill !in acts && CloseRead !in acts
    ensures |run[k].procs| == |run[0].procs| && Put(run, who, i, k) + Rest(run[k].procs[i]) == Told(who, acts, i, k)
    ensures run[k].q.readOpen && |run[k].killed| == |run[k].procs|
    ensures forall j | 0 <= j < |run[k].killed| :: !run[k].killed[j]
  {
    hide WriteStep, ReadStep, Step, QueueOk, Enabled;
    if k > 0 {
      var m := k - 1;
      AllGoesIn(run, who, acts, i, m);
      assert Moved(run[m], who[m], acts[m], run[k]);
      Mover(run[m], who[m], acts[m]);
      StepRest(run[m], who[m], acts[m], i);
      if who[m] == i {
        var d := run[k].q.stored[|run[m].q.stored|..];
        assert Put(run, who, i, k) + Rest(run[k].procs[i]) == Put(run, who, i, m) + (d + Rest(run[k].procs[i]));
      } else {
        assert Put(run, who, i, k) == Put(run, who, i, m) && Told(who, acts, i, k) == Told(who, acts, i, m);
      }
    }
  }

  lemma Mover(s: State, i: nat, a: Act)
    requires Enabled(s, i, a)
    ensures i < |s.procs| == |s.killed|
  {
  }

  /** Over every run without a kill, a reader asleep means an empty pipe, and a writer asleep a full one. */
  lemma {:induction false} NobodySleepsInVain(run: seq<State>, who: seq<nat>, acts: seq<Act>, k: nat)
    requires Run(run, who, acts) && k < |run| && Kill !in acts
    ensures Sleepers(run[k]) && |run[k].killed| == |run[k].procs|
    ensures forall j | 0 <= j < |run[k].killed| :: !run[k].killed[j]
  {
    hide SleeperOk, WriteStep, ReadStep;
    if k == 0 {
      forall j: nat | j < |run[0].procs| ensures SleeperOk(run[0].q, run[0].procs[j]) {
        OutOk(run[0].q);
      }
    } else {
      var j := k - 1;
      NobodySleepsInVain(run, who, acts, j);
      assert Moved(run[j], who[j], acts[j], run[k]);
      StepSleepers(run[j], who[j], acts[j]);
      KilledSame(run[j], who[j], acts[j]);
    }
  }

  lemma OutOk(q: Queue)
    requires QueueOk(q)
    ensures SleeperOk(q, Out)
  {
  }

  lemma KilledSame(s: State, i: nat, a: Act)
    requires QueueOk(s.q) && Enabled(s, i, a) && a != Kill
    ensures Step(s, i, a).killed == s.killed && |Step(s, i, a).procs| == |s.procs|
  {
  }

  /** A run with a kill that strands a reader: it sleeps on the empty pipe when a killed writer fills the pipe and
      fails. */
  lemma StrandedRun(n: nat, src: seq<Byte>) returns (run: seq<State>, who: seq<nat>, acts: seq<Act>)
    requires |src| > PIPESIZE
    ensures Run(run, who, acts) && |run| == 6
    ensures QueueOk(run[4].q) && Enabled(run[4], 1, Go) && Strands(run[4], 1, Go)
    ensures run[5].procs == [ReadAsleep(n), Out] && QueueOk(run[5].q) && InFlight(run[5].q) == PIPESIZE
  {
    var q := Queue([], 0, true, true);
    who, acts := [0, 0, 1, 1, 1], [StartRead(n), Go, StartWrite(src), Kill, Go];
    var s0 := State(q, [Out, Out], [false, false], []);
    var s1 := State(q, [Reading(n), Out], [false, false], []);
    var s2 := State(q, [ReadAsleep(n), Out], [false, false], []);
    var s3 := State(q, [ReadAsleep(n), Writing(src)], [false, false], []);
    var s4 := State(q, [ReadAsleep(n), Writing(src)], [false, true], []);
    assert Moved(s0, 0, StartRead(n), s1) && Moved(s1, 0, Go, s2) && Moved(s2, 1, StartWrite(src), s3);
    assert s4.procs == s3.procs[1 := Roused(s3.procs[1])];
    assert Moved(s3, 1, Kill, s4);
    assert s4.procs[0].ReadAsleep?;
    run := [s0, s1, s2, s3, s4, Step(s4, 1, Go)];
    assert Step(s4, 1, Go).procs == [ReadAsleep(n), Out];
  }
}
