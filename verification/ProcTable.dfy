/** Processes from fork to wait (proc.c of the scheduling assignment): the process table, changed in place under
    ptable.lock.  Each method is one critical section, or one of fork's unlocked writes to a slot that is still its own,
    so what every method keeps holds whenever the lock is free, whatever the processors do.  Allocation of a frame is a
    parameter, 0 when there is none; one frame stands for a page table with all its pages.  Pids do not wrap. */
module ProcTable {
  import opened Params

  import Lottery

  const NPROC: nat := 64

  datatype Procstate = UNUSED | EMBRYO | SLEEPING | RUNNABLE | RUNNING | ZOMBIE

  /** What a process sleeps on: in wait, its own address. */
  datatype Chan = NoChan | Waiting(p: nat) | Other(c: int)

  datatype Proc = Proc(state: Procstate, pid: int, parent: Option<nat>, chan: Chan, killed: bool, tickets: int,
                       kstack: int, pgdir: int)

  predicate Used(p: Proc) {
    p.state != UNUSED
  }

  /** Neither gone nor still being made. */
  predicate Alive(p: Proc) {
    p.state == SLEEPING || p.state == RUNNABLE || p.state == RUNNING
  }

  /** Made, and not yet reaped. */
  predicate IsProcess(p: Proc) {
    Alive(p) || p.state == ZOMBIE
  }

  /** Whatever its slot is used for, a pid other than 0 is in one slot only. */
  ghost predicate PidsOk(procs: seq<Proc>, nextpid: int) {
    && (forall i: nat | i < |procs| :: 0 <= procs[i].pid < nextpid)
    && (forall i: nat, j: nat | i < j < |procs| && procs[i].pid == procs[j].pid :: procs[i].pid == 0)
  }

  /** Where there is no process, or not yet, the killed mark is that of the slots in stray. */
  ghost predicate Marks(procs: seq<Proc>, stray: set<nat>) {
    forall i: nat | i < |procs| && !IsProcess(procs[i]) :: procs[i].killed <==> i in stray
  }

  /** What a slot may look like when ptable.lock is free; maker tells who is making an EMBRYO. */
  ghost predicate SlotOk(procs: seq<Proc>, initproc: nat, nextpid: int, maker: map<nat, nat>, i: nat)
    requires i < |procs|
  {
    var p := procs[i];
    match p.state
    case UNUSED => p.parent == None && p.kstack == 0
    case EMBRYO =>
      && 0 < p.pid < nextpid && i != initproc && p.tickets >= 1
      && i in maker && maker[i] < |procs| && Alive(procs[maker[i]]) && procs[maker[i]].pid < p.pid
      && (p.parent == None || (p.parent == Some(maker[i]) && p.kstack != 0 && p.pgdir != 0))
    case _ =>
      && 0 < p.pid < nextpid && p.tickets >= 1 && p.kstack != 0 && p.pgdir != 0
      && (i == initproc ==> p.parent == None && p.state != ZOMBIE)
      && (i != initproc ==>
            p.parent.Some? && p.parent.value < |procs| && Alive(procs[p.parent.value])
                && procs[p.parent.value].pid < p.pid)
  }

  /** A process asleep in wait has no child to reap. */
  ghost predicate WaitOk(procs: seq<Proc>, i: nat)
    requires i < |procs|
  {
    procs[i].state == SLEEPING && procs[i].chan.Waiting? ==>
      procs[i].chan.p == i && forall j: nat | j < |procs| && procs[j].parent == Some(i) :: procs[j].state != ZOMBIE
  }

  ghost predicate DistinctPids(procs: seq<Proc>) {
    forall i: nat, j: nat | i < |procs| && j < |procs| && Used(procs[i]) && Used(procs[j])
        && procs[i].pid == procs[j].pid ::
      i == j
  }

  /** Which slot a frame belongs to, as kernel stack or as page table. */
  datatype Use = Stack(slot: nat) | PageTable(slot: nat)

  /** Whether pgdir is set: until fork sets it, an EMBRYO has the stale one of the slot's last user. */
  predicate HasVm(p: Proc) {
    Used(p) && (p.state == EMBRYO ==> p.parent.Some?)
  }

  ghost predicate FramesOf(procs: seq<Proc>, frames: map<int, Use>, i: nat)
    requires i < |procs|
  {
    && (Used(procs[i]) && procs[i].kstack != 0 ==> procs[i].kstack in frames && frames[procs[i].kstack] == Stack(i))
    && (HasVm(procs[i]) ==> procs[i].pgdir in frames && frames[procs[i].pgdir] == PageTable(i))
  }

  ghost predicate FrameHeld(procs: seq<Proc>, frames: map<int, Use>, f: int)
    requires f in frames
  {
    && f != 0 && frames[f].slot < |procs|
    && match frames[f]
       case Stack(i) => Used(procs[i]) && procs[i].kstack == f
       case PageTable(i) => HasVm(procs[i]) && procs[i].pgdir == f
  }

  ghost predicate Frames(procs: seq<Proc>, frames: map<int, Use>) {
    && (forall i: nat | i < |procs| :: FramesOf(procs, frames, i))
    && (forall f | f in frames :: FrameHeld(procs, frames, f))
  }

  ghost predicate Tree(procs: seq<Proc>, initproc: nat, nextpid: int, maker: map<nat, nat>) {
    && |procs| == NPROC && initproc < NPROC && Alive(procs[initproc]) && procs[initproc].pid == 1
    && (forall i: nat | i < NPROC :: SlotOk(procs, initproc, nextpid, maker, i))
    && (forall i: nat | i < NPROC :: WaitOk(procs, i))
    && DistinctPids(procs)
  }

  /** wakeup1. */
  function Woken(p: Proc, chan: Chan): Proc {
    if p.state == SLEEPING && p.chan == chan then p.(state := RUNNABLE) else p
  }

  // ---------- Changing one slot

  ghost predicate HasChild(procs: seq<Proc>, j: nat) {
    exists i: nat :: i < |procs| && procs[i].parent == Some(j)
  }

  /** Process j is in fork. */
  ghost predicate Forking(procs: seq<Proc>, maker: map<nat, nat>, j: nat) {
    exists i: nat :: i < |procs| && procs[i].state == EMBRYO && i in maker && maker[i] == j
  }

  /** A new value for slot j that lets down neither children nor a slot that j is making. */
  ghost predicate KeepsOthers(procs: seq<Proc>, maker: map<nat, nat>, j: nat, p: Proc)
    requires j < |procs|
  {
    HasChild(procs, j) || Forking(procs, maker, j) ==> Alive(p) && p.pid == procs[j].pid
  }

  /** The parent of slot j, if it is asleep in wait, is not made to miss that p is a zombie. */
  ghost predicate NotMissed(procs: seq<Proc>, j: nat, p: Proc)
    requires j < |procs|
  {
    p.state == ZOMBIE && p.parent.Some? && p.parent.value < |procs| && p.parent.value != j ==>
      !(procs[p.parent.value].state == SLEEPING && procs[p.parent.value].chan.Waiting?)
  }

  ghost predicate PidFits(procs: seq<Proc>, j: nat, p: Proc)
    requires j < |procs|
  {
    Used(p) ==>
      || (Used(procs[j]) && p.pid == procs[j].pid)
      || forall i: nat | i < |procs| && Used(procs[i]) :: procs[i].pid != p.pid
  }

  lemma OtherSlot(procs: seq<Proc>, initproc: nat, n: int, maker: map<nat, nat>, j: nat, p: Proc, n': int,
                  maker': map<nat, nat>, i: nat)
    requires Tree(procs, initproc, n, maker) && j < NPROC && i < NPROC && i != j
    requires KeepsOthers(procs, maker, j, p)
    requires n <= n' && (i in maker ==> i in maker' && maker'[i] == maker[i])
    ensures SlotOk(procs[j := p], initproc, n', maker', i)
  {
    assert SlotOk(procs, initproc, n, maker, i);
    assert procs[i].parent == Some(j) ==> HasChild(procs, j);
    assert procs[i].state == EMBRYO && maker[i] == j ==> Forking(procs, maker, j);
  }

  lemma OtherWait(procs: seq<Proc>, j: nat, p: Proc, i: nat)
    requires j < |procs| && i < |procs| && i != j && WaitOk(procs, i)
    requires NotMissed(procs, j, p) || (procs[j].state == ZOMBIE && p.parent == procs[j].parent)
    ensures WaitOk(procs[j := p], i)
  {
  }

  /** What a change of one slot must respect, and it is enough. */
  lemma OneSlot(procs: seq<Proc>, initproc: nat, n: int, maker: map<nat, nat>, j: nat, p: Proc, n': int,
                maker': map<nat, nat>)
    requires Tree(procs, initproc, n, maker) && j < NPROC && n <= n'
    requires forall i | i in maker && i != j :: i in maker' && maker'[i] == maker[i]
    requires KeepsOthers(procs, maker, j, p) && PidFits(procs, j, p)
    requires NotMissed(procs, j, p) || (procs[j].state == ZOMBIE && p.parent == procs[j].parent)
    requires SlotOk(procs[j := p], initproc, n', maker', j) && WaitOk(procs[j := p], j)
    requires j == initproc ==> Alive(p) && p.pid == 1
    ensures Tree(procs[j := p], initproc, n', maker')
  {
    hide SlotOk, WaitOk, KeepsOthers, NotMissed;
    var procs' := procs[j := p];
    forall i: nat | i < NPROC ensures SlotOk(procs', initproc, n', maker', i) && WaitOk(procs', i) {
      if i != j {
        OtherSlot(procs, initproc, n, maker, j, p, n', maker', i);
        OtherWait(procs, j, p, i);
      }
    }
  }

  lemma OneSlotFrames(procs: seq<Proc>, frames: map<int, Use>, j: nat, p: Proc, frames': map<int, Use>)
    requires Frames(procs, frames) && j < |procs|
    requires FramesOf(procs[j := p], frames', j)
    requires forall f | f in frames && frames[f].slot != j :: f in frames' && frames'[f] == frames[f]
    requires forall f | f in frames' ::
               if frames'[f].slot == j then FrameHeld(procs[j := p], frames', f)
               else f in frames && frames[f] == frames'[f]
    ensures Frames(procs[j := p], frames')
  {
    var procs' := procs[j := p];
    forall i: nat | i < |procs| ensures FramesOf(procs', frames', i) {
      assert FramesOf(procs, frames, i);
    }
    forall f | f in frames' ensures FrameHeld(procs', frames', f) {
      assert frames'[f].slot != j ==> FrameHeld(procs, frames, f);
    }
  }

  /** A slot that keeps its stack, page table and kind keeps its frames. */
  lemma SameFrames(procs: seq<Proc>, frames: map<int, Use>, j: nat, p: Proc)
    requires Frames(procs, frames) && j < |procs|
    requires p.kstack == procs[j].kstack && p.pgdir == procs[j].pgdir
    requires Used(p) == Used(procs[j]) && HasVm(p) == HasVm(procs[j])
    ensures Frames(procs[j := p], frames)
  {
    assert FramesOf(procs, frames, j);
    forall f | f in frames && frames[f].slot == j ensures FrameHeld(procs[j := p], frames, f) {
      assert FrameHeld(procs, frames, f);
    }
    OneSlotFrames(procs, frames, j, p, frames);
  }

  /** Nobody depends on a slot that is not alive. */
  lemma NoDependents(procs: seq<Proc>, initproc: nat, n: int, maker: map<nat, nat>, j: nat)
    requires Tree(procs, initproc, n, maker) && j < NPROC && !Alive(procs[j])
    ensures !HasChild(procs, j) && !Forking(procs, maker, j)
  {
    forall i: nat | i < NPROC
      ensures procs[i].parent != Some(j) && (procs[i].state == EMBRYO && i in maker ==> maker[i] != j)
    {
      assert SlotOk(procs, initproc, n, maker, i);
    }
  }

  // ---------- The tree

  /** Where a chain of parents ends. */
  ghost function Root(procs: seq<Proc>, initproc: nat, nextpid: int, maker: map<nat, nat>, i: nat): nat
    requires Tree(procs, initproc, nextpid, maker) && i < NPROC && Used(procs[i]) && procs[i].state != EMBRYO
    decreases procs[i].pid
  {
    assert SlotOk(procs, initproc, nextpid, maker, i);
    if i == initproc then i else Root(procs, initproc, nextpid, maker, procs[i].parent.value)
  }

  /** Every process descends from init. */
  lemma {:induction false} EverybodyDescendsFromInit(procs: seq<Proc>, initproc: nat, nextpid: int,
                                                     maker: map<nat, nat>, i: nat)
    requires Tree(procs, initproc, nextpid, maker) && i < NPROC && Used(procs[i]) && procs[i].state != EMBRYO
    ensures Root(procs, initproc, nextpid, maker, i) == initproc
    decreases procs[i].pid
  {
    assert SlotOk(procs, initproc, nextpid, maker, i);
    if i != initproc {
      EverybodyDescendsFromInit(procs, initproc, nextpid, maker, procs[i].parent.value);
    }
  }

  /** No parent is a zombie or gone. */
  lemma ParentsLive(procs: seq<Proc>, initproc: nat, nextpid: int, maker: map<nat, nat>, i: nat)
    requires Tree(procs, initproc, nextpid, maker) && i < NPROC && procs[i].parent.Some?
    ensures procs[i].parent.value < NPROC && Alive(procs[procs[i].parent.value])
  {
    assert SlotOk(procs, initproc, nextpid, maker, i);
  }

  class PTable {
    var procs: seq<Proc>
    var nextpid: int
    var initproc: nat
    ghost var maker: map<nat, nat>
    ghost var frames: map<int, Use>
    /** The pids that wait has returned. */
    ghost var reaped: set<int>
    /** The slots that kill has struck, since wait last cleared them, when they held no process or one still being
        made. */
    ghost var stray: set<nat>

    ghost predicate Valid()
      reads this
    {
      && Tree(procs, initproc, nextpid, maker)
      && Frames(procs, frames)
      && PidsOk(procs, nextpid) && Marks(procs, stray)
      && (forall pid | pid in reaped :: pid < nextpid)
      && (forall i: nat | i < NPROC && Used(procs[i]) :: procs[i].pid !in reaped)
    }

    /** userinit: the first process, in the first slot. */
    constructor (kstack: int, pgdir: int)
      requires kstack != 0 && pgdir != 0 && kstack != pgdir
      ensures Valid() && fresh(this) && stray == {}
    {
      var free := Proc(UNUSED, 0, None, NoChan, false, 0, 0, 0);
      procs := seq(NPROC, i => free)[0 := Proc(RUNNABLE, 1, None, NoChan, false, 1, kstack, pgdir)];
      nextpid, initproc := 2, 0;
      maker, reaped, stray := map[], {}, {};
      frames := map[kstack := Stack(0), pgdir := PageTable(0)];
    }

    /** The critical section of allocproc: the first free slot becomes an EMBRYO. */
    method AllocSlot(cur: nat) returns (r: Option<nat>)
      requires Valid() && cur < NPROC && procs[cur].state == RUNNING
      modifies this`procs, this`nextpid, this`maker
      ensures Valid()
      ensures r == None <==> forall i: nat | i < NPROC :: Used(old(procs)[i])
      ensures r == None ==> procs == old(procs) && nextpid == old(nextpid)
      ensures r.Some? ==>
                && r.value < NPROC && !Used(old(procs)[r.value])
                && (forall i: nat | i < r.value :: Used(old(procs)[i]))
                && nextpid == old(nextpid) + 1 && maker == old(maker)[r.value := cur]
                && procs == old(procs)[r.value := old(procs)[r.value].(state := EMBRYO, pid := old(nextpid),
                                                                       tickets := 1)]
                && (procs[r.value].killed <==> r.value in stray)
    {
      hide SlotOk, WaitOk, FramesOf, FrameHeld, PidsOk, KeepsOthers;
      var p := 0;
      while p < NPROC
        invariant 0 <= p <= NPROC && procs == old(procs)
        invariant forall i: nat | i < p :: Used(procs[i])
      {
        if procs[p].state == UNUSED {
          FreshPid(procs, initproc, nextpid, maker);
          StacklessYet(procs, initproc, nextpid, maker, p);
          Noted(procs, nextpid, stray, p, procs[p].(state := EMBRYO, pid := nextpid, tickets := 1), nextpid + 1, stray);
          Allocated(procs, initproc, nextpid, maker, p, cur);
          NewFrames(procs, frames, p, procs[p].(state := EMBRYO, pid := nextpid, tickets := 1));
          procs := procs[p := procs[p].(state := EMBRYO, pid := nextpid, tickets := 1)];
          nextpid := nextpid + 1;
          maker := maker[p := cur];
          return Some(p);
        }
        p := p + 1;
      }
      r := None;
    }

    /** The rest of allocproc: a kernel stack, or the slot is given back. */
    method GiveStack(np: nat, frame: int) returns (ok: bool)
      requires Valid() && np < NPROC && procs[np].state == EMBRYO && procs[np].kstack == 0 && frame !in frames
      modifies this`procs, this`frames
      ensures Valid()
      ensures ok <==> frame != 0
      ensures procs == old(procs)[np :=
                if ok then old(procs)[np].(kstack := frame) else old(procs)[np].(state := UNUSED)]
      ensures frames == if ok then old(frames)[frame := Stack(np)] else old(frames)
    {
      hide SlotOk, WaitOk, FramesOf, FrameHeld, PidsOk, Marks;
      ok := frame != 0;
      Noted(procs, nextpid, stray, np,
            if ok then procs[np].(kstack := frame) else procs[np].(state := UNUSED), nextpid, stray);
      if ok {
        StackGiven(procs, initproc, nextpid, maker, frames, np, frame);
        procs := procs[np := procs[np].(kstack := frame)];
        frames := frames[frame := Stack(np)];
      } else {
        Dropped(procs, initproc, nextpid, maker, frames, np);
        procs := procs[np := procs[np].(state := UNUSED)];
      }
    }

    /** fork's writes to its new slot once it has copied the address space into page table vm, or failed to (vm is 0):
        then the stack is freed and the slot given back. */
    method ForkFill(cur: nat, np: nat, vm: int) returns (ok: bool)
      requires Valid() && cur < NPROC && Alive(procs[cur]) && vm !in frames
      requires np < NPROC && procs[np].state == EMBRYO && np in maker && maker[np] == cur && procs[np].kstack != 0
      requires procs[np].parent == None
      modifies this`procs, this`frames
      ensures Valid()
      ensures ok <==> vm != 0
      ensures procs == old(procs)[np :=
                if ok then old(procs)[np].(pgdir := vm, parent := Some(cur), tickets := old(procs)[cur].tickets)
                else old(procs)[np].(pgdir := 0, kstack := 0, state := UNUSED)]
      ensures frames == if ok then old(frames)[vm := PageTable(np)] else old(frames) - {old(procs)[np].kstack}
    {
      hide SlotOk, WaitOk, FramesOf, FrameHeld, PidsOk, Marks;
      ok := vm != 0;
      Noted(procs, nextpid, stray, np,
            if ok then procs[np].(pgdir := vm, parent := Some(cur), tickets := procs[cur].tickets)
            else procs[np].(pgdir := 0, kstack := 0, state := UNUSED), nextpid, stray);
      if ok {
        Filled(procs, initproc, nextpid, maker, frames, cur, np, vm);
        procs := procs[np := procs[np].(pgdir := vm, parent := Some(cur), tickets := procs[cur].tickets)];
        frames := frames[vm := PageTable(np)];
      } else {
        Undone(procs, initproc, nextpid, maker, frames, np);
        Kfree(procs[np].kstack);
        procs := procs[np := procs[np].(pgdir := 0, kstack := 0, state := UNUSED)];
      }
    }

    /** A frame goes back to the allocator, once. */
    method Kfree(f: int)
      requires f in frames
      modifies this`frames
      ensures frames == old(frames) - {f}
    {
      frames := frames - {f};
    }

    /** fork's last critical section: the child may run. */
    method ForkDone(np: nat) returns (pid: int)
      requires Valid() && np < NPROC && procs[np].state == EMBRYO && procs[np].parent.Some?
      modifies this`procs
      ensures Valid() && pid == old(procs)[np].pid
      ensures procs == old(procs)[np := old(procs)[np].(state := RUNNABLE)]
      ensures procs[np].killed <==> np in stray
    {
      hide SlotOk, WaitOk, FramesOf, FrameHeld, PidsOk;
      Noted(procs, nextpid, stray, np, procs[np].(state := RUNNABLE), nextpid, stray);
      Born(procs, initproc, nextpid, maker, frames, np);
      pid := procs[np].pid;
      procs := procs[np := procs[np].(state := RUNNABLE)];
    }

    /** settickets, for the running process. */
    method Settickets(cur: nat, number: int) returns (r: int)
      requires Valid() && cur < NPROC && Alive(procs[cur])
      modifies this`procs
      ensures Valid() && r == if number <= 0 then -1 else 0
      ensures procs == if number <= 0 then old(procs) else old(procs)[cur := old(procs)[cur].(tickets := number)]
    {
      hide SlotOk, WaitOk, FramesOf, FrameHeld;
      if number <= 0 {
        return -1;
      }
      SameWait(procs, cur, procs[cur].(tickets := number));
      Noted(procs, nextpid, stray, cur, procs[cur].(tickets := number), nextpid, stray);
      StillAlive(procs, initproc, nextpid, maker, frames, cur, procs[cur].(tickets := number));
      procs := procs[cur := procs[cur].(tickets := number)];
      r := 0;
    }

    /** yield. */
    method Yield(cur: nat)
      requires Valid() && cur < NPROC && procs[cur].state == RUNNING
      modifies this`procs
      ensures Valid() && procs == old(procs)[cur := old(procs)[cur].(state := RUNNABLE)]
    {
      hide SlotOk, FramesOf, FrameHeld;
      StillAlive(procs, initproc, nextpid, maker, frames, cur, procs[cur].(state := RUNNABLE));
      Noted(procs, nextpid, stray, cur, procs[cur].(state := RUNNABLE), nextpid, stray);
      procs := procs[cur := procs[cur].(state := RUNNABLE)];
    }

    /** sleep on anything but a child's exit. */
    method Sleep(cur: nat, c: int)
      requires Valid() && cur < NPROC && procs[cur].state == RUNNING
      modifies this`procs
      ensures Valid() && procs == old(procs)[cur := old(procs)[cur].(state := SLEEPING, chan := Other(c))]
    {
      hide SlotOk, FramesOf, FrameHeld;
      StillAlive(procs, initproc, nextpid, maker, frames, cur, procs[cur].(state := SLEEPING, chan := Other(c)));
      Noted(procs, nextpid, stray, cur, procs[cur].(state := SLEEPING, chan := Other(c)), nextpid, stray);
      procs := procs[cur := procs[cur].(state := SLEEPING, chan := Other(c))];
    }

    /** The end of sleep, running again. */
    method Resume(cur: nat)
      requires Valid() && cur < NPROC && procs[cur].state == RUNNING
      modifies this`procs
      ensures Valid() && procs == old(procs)[cur := old(procs)[cur].(chan := NoChan)]
    {
      hide SlotOk, FramesOf, FrameHeld;
      StillAlive(procs, initproc, nextpid, maker, frames, cur, procs[cur].(chan := NoChan));
      Noted(procs, nextpid, stray, cur, procs[cur].(chan := NoChan), nextpid, stray);
      procs := procs[cur := procs[cur].(chan := NoChan)];
    }

    /** wakeup1. */
    method Wakeup1(chan: Chan)
      requires |procs| == NPROC
      modifies this`procs
      ensures procs == WakeAll(old(procs), chan)
    {
      var p := 0;
      while p < NPROC
        invariant 0 <= p <= NPROC && |procs| == NPROC
        invariant forall i: nat | i < NPROC :: procs[i] == if i < p then Woken(old(procs)[i], chan) else old(procs)[i]
      {
        if procs[p].state == SLEEPING && procs[p].chan == chan {
          procs := procs[p := procs[p].(state := RUNNABLE)];
        }
        p := p + 1;
      }
    }

    /** wakeup. */
    method Wakeup(c: int)
      requires Valid()
      modifies this`procs
      ensures Valid() && procs == WakeAll(old(procs), Other(c))
      ensures forall i: nat | i < NPROC :: procs[i] ==
                if old(procs)[i].state == SLEEPING && old(procs)[i].chan == Other(c)
                then old(procs)[i].(state := RUNNABLE) else old(procs)[i]
    {
      hide SlotOk, WaitOk, FramesOf, FrameHeld;
      WakeAllOk(procs, initproc, nextpid, maker, frames, Other(c));
      NotedAll(procs, WakeAll(procs, Other(c)), nextpid, stray);
      Wakeup1(Other(c));
    }

    /** kill: the first slot with the pid, whatever it is used for. */
    method Kill(pid: int) returns (r: int)
      requires Valid()
      modifies this`procs, this`stray
      ensures Valid() && r == if exists i: nat :: i < NPROC && old(procs)[i].pid == pid then 0 else -1
      ensures r == -1 ==> procs == old(procs) && stray == old(stray)
      ensures r == 0 ==> exists i: nat :: (i < NPROC && old(procs)[i].pid == pid
                                           && (forall j: nat | j < i :: old(procs)[j].pid != pid)
                                           && |procs| == NPROC && IsStruck(old(procs)[i], procs[i])
                                           && procs == old(procs)[i := procs[i]]
                                           && stray == Strays(old(procs), old(stray), i))
      ensures (exists i: nat :: i < NPROC && old(procs)[i].pid == pid && IsProcess(old(procs)[i])) ==>
                stray == old(stray)
    {
      hide SlotOk, WaitOk, FramesOf, FrameHeld, PidsOk, Marks;
      OnePid(procs, nextpid, initproc, maker, pid);
      var p := 0;
      while p < NPROC
        invariant 0 <= p <= NPROC && procs == old(procs) && stray == old(stray)
        invariant forall j: nat | j < p :: procs[j].pid != pid
      {
        if procs[p].pid == pid {
          Killed(procs, initproc, nextpid, maker, frames, p);
          Noted(procs, nextpid, stray, p, Struck(procs[p]), nextpid, Strays(procs, stray, p));
          stray := Strays(procs, stray, p);
          procs := procs[p := Struck(procs[p])];
          return 0;
        }
        p := p + 1;
      }
      r := -1;
    }

    /** A process that is killed while it sleeps in wait, and has no zombie child, does not go back to sleep when it
        runs again. */
    method KillThenWait(i: nat, win: int) returns (s: Option<nat>, r: WaitEnd)
      requires Valid() && i < NPROC && procs[i].state == SLEEPING && procs[i].chan == Waiting(i)
      requires !Forking(procs, maker, i)
      modifies this
      ensures Valid() && (s == Some(i) ==> r == NoChildren)
    {
      hide SlotOk, WaitOk, FramesOf, FrameHeld, PidsOk, Marks;
      OnePid(procs, nextpid, initproc, maker, procs[i].pid);
      NoZombieChild(procs, i);
      var k := Kill(procs[i].pid);
      assert procs[i].killed && forall j: nat | j < NPROC :: !ZombieChild(procs[j], i);
      r := NoChildren;
      s := Schedule(win);
      if s == Some(i) {
        assert procs[i].killed && forall j: nat | j < NPROC :: !ZombieChild(procs[j], i);
        r := Wait(i);
      }
    }

    /** trap, on a fault of the running process. */
    method Fault(cur: nat)
      requires Valid() && cur < NPROC && procs[cur].state == RUNNING
      modifies this`procs
      ensures Valid() && procs == old(procs)[cur := old(procs)[cur].(killed := true)]
    {
      hide SlotOk, FramesOf, FrameHeld;
      StillAlive(procs, initproc, nextpid, maker, frames, cur, procs[cur].(killed := true));
      Noted(procs, nextpid, stray, cur, procs[cur].(killed := true), nextpid, stray);
      procs := procs[cur := procs[cur].(killed := true)];
    }

    /** exit, up to its last switch to the scheduler: the parent is woken, the children go to init, which is woken if
        one of them is a zombie, and the process is a zombie. */
    method Exit(cur: nat)
      requires Valid() && cur < NPROC && procs[cur].state == RUNNING && cur != initproc && !Forking(procs, maker, cur)
      modifies this`procs
      ensures Valid() && |procs| == |old(procs)| && old(procs)[cur].parent.Some?
      ensures forall i: nat | i < NPROC :: procs[i] == AfterExit(old(procs), initproc, cur, i)
      ensures Left(old(procs), procs, initproc, cur)
    {
      hide SlotOk, WaitOk, FramesOf, FrameHeld, AfterExit, AdoptTo, NoDebt, Forking, PidsOk, Marks;
      HasParent(procs, initproc, nextpid, maker, cur);
      ghost var chan := Waiting(procs[cur].parent.value);
      WakeAllOk(procs, initproc, nextpid, maker, frames, chan);
      WakeAllFork(procs, maker, cur, chan);
      Wakeup1(Waiting(procs[cur].parent.value));
      ghost var woken := procs;
      AdoptStart(woken, initproc, cur);
      DebtStart(old(procs), maker, initproc, cur);
      var p := 0;
      while p < NPROC
        invariant 0 <= p <= NPROC && procs == AdoptTo(woken, initproc, cur, p)
        invariant Tree(procs, initproc, nextpid, maker) && Frames(procs, frames)
        invariant NoDebt(procs, maker, initproc, cur, old(procs)[cur].parent.value, p)
      {
        AdoptNext(procs, initproc, nextpid, maker, frames, cur, old(procs)[cur].parent.value, p, woken);
        if procs[p].parent == Some(cur) {
          procs := procs[p := procs[p].(parent := Some(initproc))];
          if procs[p].state == ZOMBIE {
            Wakeup1(Waiting(initproc));
          }
        }
        p := p + 1;
      }
      Gone(procs, initproc, nextpid, maker, frames, cur, old(procs)[cur].parent.value);
      forall i: nat | i < NPROC
        ensures i < |procs|
        ensures AfterExit(old(procs), initproc, cur, i)
             == if i == cur then procs[i].(state := ZOMBIE) else procs[i]
      {
        AllAdopted(old(procs), initproc, nextpid, maker, cur, i);
      }
      procs := procs[cur := procs[cur].(state := ZOMBIE)];
      ExitNoted(old(procs), procs, initproc, cur, nextpid, stray);
      ExitLeaves(old(procs), procs, initproc, cur);
    }

    /** A parent asleep in wait is woken by the exit of its child, and its wait then reaps that child. */
    method ExitThenWait(cur: nat, parent: nat, win: int) returns (s: Option<nat>, r: WaitEnd)
      requires Valid() && cur < NPROC && procs[cur].state == RUNNING && cur != initproc && !Forking(procs, maker, cur)
      requires parent < NPROC && procs[cur].parent == Some(parent) && !Forking(procs, maker, parent)
      requires procs[parent].state == SLEEPING && procs[parent].chan == Waiting(parent)
      modifies this
      ensures Valid() && (s == Some(parent) ==> r.Reaped?)
      ensures s == Some(parent) && parent != initproc ==> r == Reaped(old(procs)[cur].pid)
    {
      hide SlotOk, WaitOk, FramesOf, FrameHeld, PidsOk, Marks, AfterExit, Forking;
      NoZombieChild(procs, parent);
      ghost var procs0 := procs;
      Exit(cur);
      OnlyZombieChild(procs0, procs, initproc, cur, parent);
      NotForking(procs0, procs, maker, parent);
      ghost var procs1 := procs;
      r := NoChildren;
      s := Schedule(win);
      if s == Some(parent) {
        NotForking(procs1, procs, maker, parent);
        assert forall j: nat | j < NPROC :: ZombieChild(procs[j], parent) ==> ZombieChild(procs1[j], parent);
        assert procs[cur] == procs1[cur] && ZombieChild(procs[cur], parent);
        r := Wait(parent);
      }
    }

    /** What wait does with a zombie child. */
    method Reap(p: nat) returns (pid: int)
      requires Valid() && p < NPROC && procs[p].state == ZOMBIE
      modifies this`procs, this`frames, this`reaped, this`stray
      ensures Valid() && pid == old(procs)[p].pid && pid !in old(reaped) && reaped == old(reaped) + {pid}
      ensures |procs| == NPROC && IsCleared(old(procs)[p], procs[p]) && procs == old(procs)[p := procs[p]]
      ensures stray == old(stray) - {p} && frames == old(frames) - {old(procs)[p].kstack, old(procs)[p].pgdir}
    {
      hide SlotOk, WaitOk, FramesOf, FrameHeld, PidsOk, Marks;
      pid := procs[p].pid;
      Cleaned(procs, initproc, nextpid, maker, frames, p);
      FreshPid(procs, initproc, nextpid, maker);
      Noted(procs, nextpid, stray, p, Cleared(procs[p]), nextpid, stray - {p});
      Kfree(procs[p].kstack);
      Kfree(procs[p].pgdir);
      procs := procs[p := Cleared(procs[p])];
      reaped, stray := reaped + {pid}, stray - {p};
    }

    /** wait, from taking the lock, or being woken with it, to giving it up: a zombie child is reaped, or there is
        nothing to wait for, or the process goes to sleep. */
    method Wait(cur: nat) returns (r: WaitEnd)
      requires Valid() && cur < NPROC && procs[cur].state == RUNNING && !Forking(procs, maker, cur)
      modifies this`procs, this`frames, this`reaped, this`stray
      ensures Valid()
      ensures match r
              case Reaped(pid) =>
                && pid !in old(reaped) && reaped == old(reaped) + {pid}
                && exists j: nat :: (j < NPROC && ZombieChild(old(procs)[j], cur) && old(procs)[j].pid == pid
                                     && |procs| == NPROC && IsCleared(old(procs)[j], procs[j])
                                     && procs == old(procs)[j := procs[j]] && stray == old(stray) - {j}
                                     && frames == old(frames) - {old(procs)[j].kstack, old(procs)[j].pgdir})
              case NoChildren =>
                && procs == old(procs) && frames == old(frames) && reaped == old(reaped) && stray == old(stray)
                && (procs[cur].killed || forall j: nat | j < NPROC :: procs[j].parent != Some(cur))
              case Sleeps =>
                && procs == old(procs)[cur := old(procs)[cur].(state := SLEEPING, chan := Waiting(cur))]
                && frames == old(frames) && reaped == old(reaped) && stray == old(stray)
                && !old(procs)[cur].killed && (exists j: nat :: j < NPROC && old(procs)[j].parent == Some(cur))
      ensures r.Reaped? <==>
                exists j: nat :: j < NPROC && old(procs)[j].parent == Some(cur) && old(procs)[j].state == ZOMBIE
      ensures r.Sleeps? ==> !old(procs)[cur].killed
    {
      hide SlotOk, WaitOk, FramesOf, FrameHeld, Forking, PidsOk, Marks;
      var havekids := false;
      var p := 0;
      while p < NPROC
        invariant 0 <= p <= NPROC && Valid()
        invariant procs == old(procs) && frames == old(frames) && reaped == old(reaped) && stray == old(stray)
        invariant havekids <==> exists j: nat :: j < p && procs[j].parent == Some(cur)
        invariant forall j: nat | j < p :: !ZombieChild(procs[j], cur)
      {
        if procs[p].parent == Some(cur) {
          havekids := true;
          if procs[p].state == ZOMBIE {
            var pid := Reap(p);
            return Reaped(pid);
          }
        }
        p := p + 1;
      }
      if !havekids || procs[cur].killed {
        return NoChildren;
      }
      SleepsRightly(procs, cur);
      StillAlive(procs, initproc, nextpid, maker, frames, cur, procs[cur].(state := SLEEPING, chan := Waiting(cur)));
      Noted(procs, nextpid, stray, cur, procs[cur].(state := SLEEPING, chan := Waiting(cur)), nextpid, stray);
      procs := procs[cur := procs[cur].(state := SLEEPING, chan := Waiting(cur))];
      r := Sleeps;
    }

    /** A new process inherits the killed mark of its slot, and kill(0) marks a slot that wait has cleared: if that is
        the first free slot, the next process is killed before it runs. */
    method BornKilled(cur: nat, k: nat) returns (np: Option<nat>)
      requires Valid() && cur < NPROC && procs[cur].state == RUNNING
      requires k < NPROC && !Used(procs[k]) && procs[k].pid == 0
      requires forall i: nat | i < k :: Used(procs[i])
      modifies this`procs, this`nextpid, this`maker, this`stray
      ensures Valid() && np == Some(k) && procs[k].killed && procs[k].pid == old(nextpid)
    {
      hide SlotOk, WaitOk, FramesOf, FrameHeld, PidsOk, Marks;
      FreshPid(procs, initproc, nextpid, maker);
      assert old(procs)[k].pid == 0;
      var r := Kill(0);
      assert procs == old(procs)[k := Struck(old(procs)[k])];
      assert !Used(procs[k]);
      np := AllocSlot(cur);
    }

    /** kill of the pid that a slot holds without a process. */
    method KillSlot(k: nat)
      requires Valid() && k < NPROC && !IsProcess(procs[k]) && procs[k].pid != 0
      modifies this`procs, this`stray
      ensures Valid() && procs == old(procs)[k := Struck(old(procs)[k])] && stray == old(stray) + {k}
    {
      hide SlotOk, WaitOk, FramesOf, FrameHeld, PidsOk, Marks;
      OnePid(procs, nextpid, initproc, maker, procs[k].pid);
      var r := Kill(procs[k].pid);
    }

    /** A fork that gets no stack leaves its pid in the slot, where kill finds it; the next process gets the slot and
        the mark. */
    method BornKilledStackless(cur: nat) returns (np: Option<nat>)
      requires Valid() && cur < NPROC && procs[cur].state == RUNNING && exists i: nat :: i < NPROC && !Used(procs[i])
      modifies this`procs, this`nextpid, this`maker, this`frames, this`stray
      ensures Valid() && np.Some? && np.value < NPROC && procs[np.value].killed
    {
      hide SlotOk, WaitOk, FramesOf, FrameHeld, PidsOk, Marks;
      np := AllocSlot(cur);
      var k := np.value;
      JustAllocated(old(procs), frames, initproc, old(nextpid), old(maker), k);
      var ok := GiveStack(k, 0);
      KillSlot(k);
      assert !Used(procs[k]) && forall i: nat | i < k :: Used(procs[i]);
      np := AllocSlot(cur);
    }

    /** A fork is killed while it copies, and then cannot finish the copy: the next process gets the slot and the
        mark. */
    method BornKilledUndone(cur: nat, stack: int) returns (np: Option<nat>)
      requires Valid() && cur < NPROC && procs[cur].state == RUNNING && exists i: nat :: i < NPROC && !Used(procs[i])
      requires stack != 0 && stack !in frames
      modifies this`procs, this`nextpid, this`maker, this`frames, this`stray
      ensures Valid() && np.Some? && np.value < NPROC && procs[np.value].killed
    {
      hide SlotOk, WaitOk, FramesOf, FrameHeld, PidsOk, Marks;
      np := AllocSlot(cur);
      var k := np.value;
      JustAllocated(old(procs), frames, initproc, old(nextpid), old(maker), k);
      var ok := GiveStack(k, stack);
      KillSlot(k);
      ok := ForkFill(cur, k, 0);
      assert !Used(procs[k]) && forall i: nat | i < k :: Used(procs[i]);
      np := AllocSlot(cur);
    }

    /** The critical section of scheduler: the process that a winning number selects runs. */
    method Schedule(win: int) returns (r: Option<nat>)
      requires Valid()
      modifies this`procs
      ensures Valid()
      ensures match r
              case None => procs == old(procs) && forall k: nat :: !Lottery.Wins(Entries(old(procs)), win, k)
              case Some(k) =>
                && Lottery.Wins(Entries(old(procs)), win, k) && k < NPROC && old(procs)[k].state == RUNNABLE
                && procs == old(procs)[k := old(procs)[k].(state := RUNNING)]
    {
      hide SlotOk, WaitOk, FramesOf, FrameHeld;
      var winner := Lottery.Select(Entries(procs), win);
      if winner.None? {
        return None;
      }
      var k := winner.value;
      AwakeWait(procs, k, procs[k].(state := RUNNING));
      StillAlive(procs, initproc, nextpid, maker, frames, k, procs[k].(state := RUNNING));
      Noted(procs, nextpid, stray, k, procs[k].(state := RUNNING), nextpid, stray);
      procs := procs[k := procs[k].(state := RUNNING)];
      r := Some(k);
    }
  }

  lemma NoZombieChild(procs: seq<Proc>, i: nat)
    requires |procs| == NPROC && forall j: nat | j < NPROC :: WaitOk(procs, j)
    requires i < NPROC && procs[i].state == SLEEPING && procs[i].chan == Waiting(i)
    ensures forall j: nat | j < NPROC :: !ZombieChild(procs[j], i)
  {
    assert WaitOk(procs, i);
  }

  /** The slots with a stray mark once kill has struck slot i. */
  ghost function Strays(procs: seq<Proc>, stray: set<nat>, i: nat): set<nat>
    requires i < |procs|
  {
    if IsProcess(procs[i]) then stray else stray + {i}
  }

  /** A change of one slot that gives it no other pid but 0 or the next one. */
  lemma Noted(procs: seq<Proc>, n: int, stray: set<nat>, j: nat, p: Proc, n': int, stray': set<nat>)
    requires PidsOk(procs, n) && Marks(procs, stray) && j < |procs| && n <= n'
    requires p.pid == procs[j].pid || (p.pid == 0 && n > 0) || (p.pid == n < n' && n >= 0)
    requires forall i: nat | i != j :: i in stray <==> i in stray'
    requires !IsProcess(p) ==>
               || (p.killed <==> j in stray')
               || (!IsProcess(procs[j]) && p.killed == procs[j].killed && (j in stray <==> j in stray'))
    ensures PidsOk(procs[j := p], n') && Marks(procs[j := p], stray')
  {
  }

  lemma NotedAll(procs: seq<Proc>, procs': seq<Proc>, n: int, stray: set<nat>)
    requires PidsOk(procs, n) && Marks(procs, stray) && |procs| == |procs'|
    requires forall i: nat | i < |procs| ::
               procs'[i].pid == procs[i].pid && procs'[i].killed == procs[i].killed
                   && IsProcess(procs'[i]) == IsProcess(procs[i])
    ensures PidsOk(procs', n) && Marks(procs', stray)
  {
  }

  lemma ExitNoted(procs: seq<Proc>, procs': seq<Proc>, initproc: nat, cur: nat, n: int, stray: set<nat>)
    requires PidsOk(procs, n) && Marks(procs, stray) && |procs| == |procs'| && cur < |procs|
    requires procs[cur].state == RUNNING
    requires procs[cur].parent.Some? && forall i: nat | i < |procs| :: procs'[i] == AfterExit(procs, initproc, cur, i)
    ensures PidsOk(procs', n) && Marks(procs', stray)
    ensures forall i: nat | i < |procs| :: procs'[i].pid == procs[i].pid && Used(procs'[i]) == Used(procs[i])
  {
    NotedAll(procs, procs', n, stray);
  }

  /** The pid of a process is found nowhere else. */
  lemma OnePid(procs: seq<Proc>, n: int, initproc: nat, maker: map<nat, nat>, pid: int)
    requires PidsOk(procs, n) && Tree(procs, initproc, n, maker)
    ensures forall i: nat, j: nat | i < NPROC && j < NPROC && procs[i].pid == pid == procs[j].pid && Used(procs[i]) ::
              i == j
    ensures forall i: nat, j: nat | i < NPROC && j < NPROC && procs[i].pid == pid == procs[j].pid && pid != 0 :: i == j
  {
    FreshPid(procs, initproc, n, maker);
  }

  lemma StacklessYet(procs: seq<Proc>, initproc: nat, n: int, maker: map<nat, nat>, k: nat)
    requires Tree(procs, initproc, n, maker) && k < NPROC && !Used(procs[k])
    ensures procs[k].kstack == 0 && procs[k].parent == None && n > 0
  {
    assert SlotOk(procs, initproc, n, maker, k);
    FreshPid(procs, initproc, n, maker);
  }

  lemma JustAllocated(procs: seq<Proc>, frames: map<int, Use>, initproc: nat, n: int, maker: map<nat, nat>, k: nat)
    requires Tree(procs, initproc, n, maker) && Frames(procs, frames) && k < NPROC && !Used(procs[k])
    ensures procs[k].kstack == 0 && procs[k].parent == None && n != 0 && 0 !in frames
  {
    StacklessYet(procs, initproc, n, maker, k);
    assert 0 in frames ==> FrameHeld(procs, frames, 0);
  }

  /** The table as the lottery sees it. */
  function Entries(procs: seq<Proc>): seq<Lottery.Entry> {
    seq(|procs|, i requires 0 <= i < |procs| => Lottery.Entry(procs[i].state == RUNNABLE, procs[i].tickets))
  }

  /** It sees every RUNNABLE process, with its tickets, and no other. */
  lemma EntriesAre(procs: seq<Proc>, i: nat)
    requires i < |procs|
    ensures |Entries(procs)| == |procs|
    ensures Entries(procs)[i].runnable <==> procs[i].state == RUNNABLE
    ensures Entries(procs)[i].tickets == procs[i].tickets
  {
  }

  /** Every process that the lottery can select has a ticket. */
  lemma EverybodyHasTickets(procs: seq<Proc>, initproc: nat, n: int, maker: map<nat, nat>)
    requires Tree(procs, initproc, n, maker)
    ensures Lottery.Ticketed(Entries(procs))
  {
    forall k | 0 <= k < |procs| && Entries(procs)[k].runnable ensures Entries(procs)[k].tickets >= 1 {
      assert SlotOk(procs, initproc, n, maker, k);
    }
  }

  datatype WaitEnd = Reaped(pid: int) | NoChildren | Sleeps

  /** What wait leaves of a zombie; its page table pointer stays, to a table that is freed. */
  function Cleared(p: Proc): Proc {
    p.(kstack := 0, pid := 0, parent := None, killed := false, state := UNUSED)
  }

  /** p' is p without its process: only its page table pointer, tickets and channel are as they were. */
  ghost predicate IsCleared(p: Proc, p': Proc) {
    && p'.state == UNUSED && p'.pid == 0 && p'.parent == None && !p'.killed && p'.kstack == 0
    && p'.pgdir == p.pgdir && p'.tickets == p.tickets && p'.chan == p.chan
  }

  lemma Cleaned(procs: seq<Proc>, initproc: nat, n: int, maker: map<nat, nat>, frames: map<int, Use>, j: nat)
    requires Tree(procs, initproc, n, maker) && Frames(procs, frames) && j < NPROC && procs[j].state == ZOMBIE
    ensures procs[j].kstack in frames && procs[j].pgdir in frames && procs[j].kstack != procs[j].pgdir
    ensures var procs' := procs[j := Cleared(procs[j])];
            Tree(procs', initproc, n, maker) && Frames(procs', frames - {procs[j].kstack} - {procs[j].pgdir})
  {
    assert SlotOk(procs, initproc, n, maker, j) && FramesOf(procs, frames, j);
    NoDependents(procs, initproc, n, maker, j);
    OneSlot(procs, initproc, n, maker, j, Cleared(procs[j]), n, maker);
    var frames' := frames - {procs[j].kstack} - {procs[j].pgdir};
    forall f | f in frames' ensures frames[f].slot != j {
      assert FrameHeld(procs, frames, f);
    }
    OneSlotFrames(procs, frames, j, Cleared(procs[j]), frames');
  }

  lemma SleepsRightly(procs: seq<Proc>, cur: nat)
    requires cur < |procs| && forall j: nat | j < |procs| :: !ZombieChild(procs[j], cur)
    ensures WaitOk(procs[cur := procs[cur].(state := SLEEPING, chan := Waiting(cur))], cur)
  {
  }

  predicate ZombieChild(p: Proc, cur: nat) {
    p.parent == Some(cur) && p.state == ZOMBIE
  }

  ghost function WakeAll(procs: seq<Proc>, chan: Chan): (r: seq<Proc>)
    ensures |r| == |procs|
  {
    seq(|procs|, i requires 0 <= i < |procs| => Woken(procs[i], chan))
  }

  /** The table while exit hands children of cur on to init, from p0 slots on to the next. */
  ghost function AdoptOne(procs: seq<Proc>, initproc: nat, cur: nat, p: nat): (r: seq<Proc>)
    requires p < |procs|
    ensures |r| == |procs|
  {
    if procs[p].parent != Some(cur) then procs
    else
      var handed := procs[p := procs[p].(parent := Some(initproc))];
      if procs[p].state == ZOMBIE then WakeAll(handed, Waiting(initproc)) else handed
  }

  ghost function AdoptTo(procs: seq<Proc>, initproc: nat, cur: nat, p: nat): (r: seq<Proc>)
    requires p <= |procs|
    ensures |r| == |procs|
  {
    if p == 0 then procs else AdoptOne(AdoptTo(procs, initproc, cur, p - 1), initproc, cur, p - 1)
  }

  /** Nothing done so far stands in the way of the zombie that cur will be. */
  ghost predicate NoDebt(procs: seq<Proc>, maker: map<nat, nat>, initproc: nat, cur: nat, parent: nat, p: nat) {
    && cur < |procs| && parent < |procs| && cur != initproc
    && procs[cur].state == RUNNING && procs[cur].parent == Some(parent)
    && !Forking(procs, maker, cur)
    && !(procs[parent].state == SLEEPING && procs[parent].chan == Waiting(parent))
    && forall i: nat | i < p && i < |procs| :: procs[i].parent != Some(cur)
  }

  /** What exit of process cur leaves in slot i. */
  ghost function AfterExit(procs: seq<Proc>, initproc: nat, cur: nat, i: nat): Proc
    requires i < |procs| && cur < |procs| && procs[cur].parent.Some?
  {
    var p := procs[i];
    var wakes := p.state == SLEEPING
                 && (p.chan == Waiting(procs[cur].parent.value)
                     || (p.chan == Waiting(initproc) && exists k: nat :: k < |procs| && ZombieChild(procs[k], cur)));
    p.(state := if i == cur then ZOMBIE else if wakes then RUNNABLE else p.state,
       parent := if p.parent == Some(cur) then Some(initproc) else p.parent)
  }

  /** Process cur is a zombie, its sleeping parent is awake, its children are init's, and nothing else has changed but
      that init may be awake too. */
  ghost predicate Left(procs: seq<Proc>, procs': seq<Proc>, initproc: nat, cur: nat) {
    && cur < |procs| == |procs'| && procs'[cur] == procs[cur].(state := ZOMBIE)
    && forall i: nat | i < |procs| && i != cur ::
         && procs'[i] == procs[i].(state := procs'[i].state, parent := procs'[i].parent)
         && procs'[i].parent == (if procs[i].parent == Some(cur) then Some(initproc) else procs[i].parent)
         && (procs'[i].state == procs[i].state
             || (procs[i].state == SLEEPING && procs'[i].state == RUNNABLE && procs[i].chan.Waiting?))
         && (procs[cur].parent.Some? && procs[i].chan == Waiting(procs[cur].parent.value) ==>
               procs'[i].state != SLEEPING)
  }

  lemma OnlyZombieChild(procs: seq<Proc>, procs': seq<Proc>, initproc: nat, cur: nat, parent: nat)
    requires Left(procs, procs', initproc, cur) && procs[cur].parent == Some(parent)
    requires forall j: nat | j < |procs| :: !ZombieChild(procs[j], parent)
    ensures ZombieChild(procs'[cur], parent)
    ensures parent != initproc ==> forall j: nat | j < |procs'| && ZombieChild(procs'[j], parent) :: j == cur
    ensures forall j: nat | j < |procs| && procs'[j].state == EMBRYO :: procs[j].state == EMBRYO
  {
    forall j: nat | parent != initproc && j < |procs'| && ZombieChild(procs'[j], parent) ensures j == cur {
      assert j == cur || !ZombieChild(procs[j], parent);
    }
  }

  lemma NotForking(procs: seq<Proc>, procs': seq<Proc>, maker: map<nat, nat>, j: nat)
    requires !Forking(procs, maker, j) && |procs'| == |procs|
    requires forall i: nat | i < |procs| && procs'[i].state == EMBRYO :: procs[i].state == EMBRYO
    ensures !Forking(procs', maker, j)
  {
  }

  lemma ExitLeaves(procs: seq<Proc>, procs': seq<Proc>, initproc: nat, cur: nat)
    requires cur < |procs| == |procs'| && procs[cur].parent.Some? && procs[cur].parent != Some(cur)
    requires procs[cur].state == RUNNING
    requires forall i: nat | i < |procs| :: procs'[i] == AfterExit(procs, initproc, cur, i)
    ensures Left(procs, procs', initproc, cur)
  {
  }

  lemma HasParent(procs: seq<Proc>, initproc: nat, n: int, maker: map<nat, nat>, j: nat)
    requires Tree(procs, initproc, n, maker) && j < NPROC && (Alive(procs[j]) || procs[j].state == ZOMBIE)
    requires j != initproc
    ensures procs[j].parent.Some? && procs[j].parent.value < NPROC && procs[j].parent.value != j
    ensures Alive(procs[procs[j].parent.value])
  {
    assert SlotOk(procs, initproc, n, maker, j);
  }

  lemma AdoptedOk(procs: seq<Proc>, initproc: nat, n: int, maker: map<nat, nat>, frames: map<int, Use>, cur: nat,
                  j: nat)
    requires Tree(procs, initproc, n, maker) && Frames(procs, frames) && cur < NPROC && j < NPROC
    requires procs[j].parent == Some(cur) && cur != initproc && !Forking(procs, maker, cur)
    requires procs[j].state == ZOMBIE ==>
              !(procs[initproc].state == SLEEPING && procs[initproc].chan == Waiting(initproc))
    ensures var procs' := procs[j := procs[j].(parent := Some(initproc))];
            Tree(procs', initproc, n, maker) && Frames(procs', frames)
  {
    var p := procs[j].(parent := Some(initproc));
    assert SlotOk(procs, initproc, n, maker, j) && WaitOk(procs, j) && WaitOk(procs, initproc);
    assert SlotOk(procs, initproc, n, maker, cur);
    assert procs[j].state == EMBRYO ==> Forking(procs, maker, cur);
    if !Alive(procs[j]) {
      NoDependents(procs, initproc, n, maker, j);
    }
    OneSlot(procs, initproc, n, maker, j, p, n, maker);
    SameFrames(procs, frames, j, p);
  }

  lemma WakeAllOk(procs: seq<Proc>, initproc: nat, n: int, maker: map<nat, nat>, frames: map<int, Use>, chan: Chan)
    requires Tree(procs, initproc, n, maker) && Frames(procs, frames)
    ensures Tree(WakeAll(procs, chan), initproc, n, maker) && Frames(WakeAll(procs, chan), frames)
  {
    hide SlotOk, WaitOk, FramesOf, FrameHeld;
    var s, p := procs, 0;
    while p < NPROC
      invariant 0 <= p <= NPROC && Tree(s, initproc, n, maker) && Frames(s, frames)
      invariant forall i: nat | i < NPROC :: s[i] == if i < p then Woken(procs[i], chan) else procs[i]
    {
      if s[p].state == SLEEPING && s[p].chan == chan {
        AwakeWait(s, p, s[p].(state := RUNNABLE));
        StillAlive(s, initproc, n, maker, frames, p, s[p].(state := RUNNABLE));
        s := s[p := s[p].(state := RUNNABLE)];
      }
      p := p + 1;
    }
    assert s == WakeAll(procs, chan);
  }

  lemma WakeAllFork(procs: seq<Proc>, maker: map<nat, nat>, cur: nat, chan: Chan)
    ensures Forking(WakeAll(procs, chan), maker, cur) <==> Forking(procs, maker, cur)
  {
    var woken := WakeAll(procs, chan);
    forall i: nat | i < |procs| ensures woken[i].state == EMBRYO <==> procs[i].state == EMBRYO {
    }
  }

  lemma AdoptStart(procs: seq<Proc>, initproc: nat, cur: nat)
    ensures AdoptTo(procs, initproc, cur, 0) == procs
  {
  }

  lemma DebtStart(procs: seq<Proc>, maker: map<nat, nat>, initproc: nat, cur: nat)
    requires cur < |procs| && cur != initproc && procs[cur].state == RUNNING && !Forking(procs, maker, cur)
    requires procs[cur].parent.Some? && procs[cur].parent.value < |procs|
    ensures NoDebt(WakeAll(procs, Waiting(procs[cur].parent.value)), maker, initproc, cur, procs[cur].parent.value, 0)
  {
    WakeAllFork(procs, maker, cur, Waiting(procs[cur].parent.value));
  }

  /** One more child handed on. */
  lemma AdoptNext(procs: seq<Proc>, initproc: nat, n: int, maker: map<nat, nat>, frames: map<int, Use>, cur: nat,
                  parent: nat, p: nat, start: seq<Proc>)
    requires Tree(procs, initproc, n, maker) && Frames(procs, frames) && p < NPROC
    requires NoDebt(procs, maker, initproc, cur, parent, p) && |start| == NPROC
    requires procs == AdoptTo(start, initproc, cur, p)
    ensures var procs' := AdoptOne(procs, initproc, cur, p);
            && Tree(procs', initproc, n, maker) && Frames(procs', frames)
            && NoDebt(procs', maker, initproc, cur, parent, p + 1)
            && procs' == AdoptTo(start, initproc, cur, p + 1)
  {
    hide SlotOk, WaitOk, FramesOf, FrameHeld, Forking;
    HasParent(procs, initproc, n, maker, cur);
    if procs[p].parent == Some(cur) {
      var handed := procs[p := procs[p].(parent := Some(initproc))];
      if procs[p].state == ZOMBIE {
        var woken := WakeAll(procs, Waiting(initproc));
        WakeAllOk(procs, initproc, n, maker, frames, Waiting(initproc));
        WakeAllFork(procs, maker, cur, Waiting(initproc));
        AdoptedOk(woken, initproc, n, maker, frames, cur, p);
        assert WakeAll(handed, Waiting(initproc)) == woken[p := woken[p].(parent := Some(initproc))];
        HandedFork(woken, maker, cur, p, Some(initproc));
      } else {
        AdoptedOk(procs, initproc, n, maker, frames, cur, p);
        HandedFork(procs, maker, cur, p, Some(initproc));
      }
    }
  }

  lemma HandedFork(procs: seq<Proc>, maker: map<nat, nat>, cur: nat, p: nat, parent: Option<nat>)
    requires p < |procs|
    ensures Forking(procs[p := procs[p].(parent := parent)], maker, cur) <==> Forking(procs, maker, cur)
  {
    var procs' := procs[p := procs[p].(parent := parent)];
    forall i: nat | i < |procs| ensures procs'[i].state == procs[i].state {
    }
  }

  lemma Gone(procs: seq<Proc>, initproc: nat, n: int, maker: map<nat, nat>, frames: map<int, Use>, cur: nat,
             parent: nat)
    requires Tree(procs, initproc, n, maker) && Frames(procs, frames)
    requires NoDebt(procs, maker, initproc, cur, parent, NPROC)
    ensures var procs' := procs[cur := procs[cur].(state := ZOMBIE)];
            Used(procs[cur]) && Tree(procs', initproc, n, maker) && Frames(procs', frames)
  {
    var p := procs[cur].(state := ZOMBIE);
    assert SlotOk(procs, initproc, n, maker, cur) && WaitOk(procs, parent);
    assert !HasChild(procs, cur);
    OneSlot(procs, initproc, n, maker, cur, p, n, maker);
    SameFrames(procs, frames, cur, p);
  }

  /** All the handing on together. */
  lemma {:induction false} AdoptedSoFar(procs: seq<Proc>, initproc: nat, cur: nat, p: nat, i: nat)
    requires p <= |procs| && i < |procs| && cur != initproc
    ensures var s := AdoptTo(procs, initproc, cur, p)[i];
            var orphan := exists k: nat :: k < p && ZombieChild(procs[k], cur);
            && s == (if orphan then Woken(procs[i], Waiting(initproc)) else procs[i]).(parent := s.parent)
            && s.parent == if i < p && procs[i].parent == Some(cur) then Some(initproc) else procs[i].parent
    decreases p
  {
    if p > 0 {
      AdoptedSoFar(procs, initproc, cur, p - 1, i);
      AdoptedSoFar(procs, initproc, cur, p - 1, p - 1);
    }
  }

  lemma AllAdopted(procs: seq<Proc>, initproc: nat, n: int, maker: map<nat, nat>, cur: nat, i: nat)
    requires Tree(procs, initproc, n, maker) && i < NPROC && cur < NPROC && procs[cur].state == RUNNING
    requires cur != initproc
    requires procs[cur].parent.Some?
    ensures var s := AdoptTo(WakeAll(procs, Waiting(procs[cur].parent.value)), initproc, cur, NPROC);
            AfterExit(procs, initproc, cur, i) == if i == cur then s[i].(state := ZOMBIE) else s[i]
  {
    var woken := WakeAll(procs, Waiting(procs[cur].parent.value));
    AdoptedSoFar(woken, initproc, cur, NPROC, i);
    forall k: nat | k < NPROC ensures ZombieChild(woken[k], cur) <==> ZombieChild(procs[k], cur) {
    }
  }

  /** p' is p with the killed mark, and awake if it was asleep; everything else is as it was. */
  ghost predicate IsStruck(p: Proc, p': Proc) {
    && p'.killed && p'.state == (if p.state == SLEEPING then RUNNABLE else p.state)
    && p'.pid == p.pid && p'.parent == p.parent && p'.chan == p.chan && p'.tickets == p.tickets
    && p'.kstack == p.kstack && p'.pgdir == p.pgdir
  }

  /** A process that kill has found, in whatever state. */
  function Struck(p: Proc): Proc {
    p.(killed := true, state := if p.state == SLEEPING then RUNNABLE else p.state)
  }

  lemma SameWait(procs: seq<Proc>, j: nat, p: Proc)
    requires j < |procs| && WaitOk(procs, j) && p.state == procs[j].state && p.chan == procs[j].chan
    requires p.parent == procs[j].parent
    ensures WaitOk(procs[j := p], j)
  {
  }

  lemma AwakeWait(procs: seq<Proc>, j: nat, p: Proc)
    requires j < |procs| && p.state != SLEEPING
    ensures WaitOk(procs[j := p], j)
  {
  }

  /** A process that stays alive, with its parent, stack and page table, in whatever other state. */
  lemma StillAlive(procs: seq<Proc>, initproc: nat, n: int, maker: map<nat, nat>, frames: map<int, Use>, j: nat,
                   p: Proc)
    requires Tree(procs, initproc, n, maker) && Frames(procs, frames) && j < NPROC && Alive(procs[j]) && Alive(p)
    requires p.pid == procs[j].pid && p.parent == procs[j].parent && (p.tickets == procs[j].tickets || p.tickets >= 1)
    requires p.kstack == procs[j].kstack && p.pgdir == procs[j].pgdir && WaitOk(procs[j := p], j)
    ensures Tree(procs[j := p], initproc, n, maker) && Frames(procs[j := p], frames)
  {
    hide FramesOf, FrameHeld, WaitOk;
    assert SlotOk(procs, initproc, n, maker, j);
    OneSlot(procs, initproc, n, maker, j, p, n, maker);
    SameFrames(procs, frames, j, p);
  }

  lemma Killed(procs: seq<Proc>, initproc: nat, n: int, maker: map<nat, nat>, frames: map<int, Use>, j: nat)
    requires Tree(procs, initproc, n, maker) && Frames(procs, frames) && j < NPROC
    ensures Tree(procs[j := Struck(procs[j])], initproc, n, maker) && Frames(procs[j := Struck(procs[j])], frames)
  {
    hide FramesOf, FrameHeld;
    assert SlotOk(procs, initproc, n, maker, j) && WaitOk(procs, j);
    if !Alive(procs[j]) {
      NoDependents(procs, initproc, n, maker, j);
    }
    OneSlot(procs, initproc, n, maker, j, Struck(procs[j]), n, maker);
    SameFrames(procs, frames, j, Struck(procs[j]));
  }

  lemma StackGiven(procs: seq<Proc>, initproc: nat, n: int, maker: map<nat, nat>, frames: map<int, Use>, j: nat,
                   frame: int)
    requires Tree(procs, initproc, n, maker) && Frames(procs, frames)
    requires j < NPROC && procs[j].state == EMBRYO && procs[j].kstack == 0 && frame !in frames && frame != 0
    ensures var procs' := procs[j := procs[j].(kstack := frame)];
            Tree(procs', initproc, n, maker) && Frames(procs', frames[frame := Stack(j)])
  {
    var p := procs[j].(kstack := frame);
    assert SlotOk(procs, initproc, n, maker, j) && FramesOf(procs, frames, j);
    NoDependents(procs, initproc, n, maker, j);
    OneSlot(procs, initproc, n, maker, j, p, n, maker);
    forall f | f in frames ensures frames[f].slot != j {
      assert FrameHeld(procs, frames, f);
    }
    OneSlotFrames(procs, frames, j, p, frames[frame := Stack(j)]);
  }

  lemma Dropped(procs: seq<Proc>, initproc: nat, n: int, maker: map<nat, nat>, frames: map<int, Use>, j: nat)
    requires Tree(procs, initproc, n, maker) && Frames(procs, frames)
    requires j < NPROC && procs[j].state == EMBRYO && procs[j].kstack == 0
    ensures var procs' := procs[j := procs[j].(state := UNUSED)];
            Tree(procs', initproc, n, maker) && Frames(procs', frames)
  {
    var p := procs[j].(state := UNUSED);
    assert SlotOk(procs, initproc, n, maker, j) && FramesOf(procs, frames, j);
    NoDependents(procs, initproc, n, maker, j);
    OneSlot(procs, initproc, n, maker, j, p, n, maker);
    forall f | f in frames ensures frames[f].slot != j {
      assert FrameHeld(procs, frames, f);
    }
    OneSlotFrames(procs, frames, j, p, frames);
  }

  lemma Filled(procs: seq<Proc>, initproc: nat, n: int, maker: map<nat, nat>, frames: map<int, Use>, cur: nat, j: nat,
               vm: int)
    requires Tree(procs, initproc, n, maker) && Frames(procs, frames) && cur < NPROC && Alive(procs[cur])
    requires j < NPROC && procs[j].state == EMBRYO && j in maker && maker[j] == cur && procs[j].kstack != 0
    requires procs[j].parent == None
    requires vm !in frames && vm != 0
    ensures var procs' := procs[j := procs[j].(pgdir := vm, parent := Some(cur), tickets := procs[cur].tickets)];
            Tree(procs', initproc, n, maker) && Frames(procs', frames[vm := PageTable(j)])
  {
    var p := procs[j].(pgdir := vm, parent := Some(cur), tickets := procs[cur].tickets);
    assert SlotOk(procs, initproc, n, maker, j) && SlotOk(procs, initproc, n, maker, cur) && FramesOf(procs, frames, j);
    NoDependents(procs, initproc, n, maker, j);
    OneSlot(procs, initproc, n, maker, j, p, n, maker);
    forall f | f in frames && frames[f].slot == j ensures FrameHeld(procs[j := p], frames[vm := PageTable(j)], f) {
      assert FrameHeld(procs, frames, f);
    }
    OneSlotFrames(procs, frames, j, p, frames[vm := PageTable(j)]);
  }

  lemma Undone(procs: seq<Proc>, initproc: nat, n: int, maker: map<nat, nat>, frames: map<int, Use>, j: nat)
    requires Tree(procs, initproc, n, maker) && Frames(procs, frames)
    requires j < NPROC && procs[j].state == EMBRYO && procs[j].kstack != 0 && procs[j].parent == None
    ensures procs[j].kstack in frames
    ensures var procs' := procs[j := procs[j].(pgdir := 0, kstack := 0, state := UNUSED)];
            Tree(procs', initproc, n, maker) && Frames(procs', frames - {procs[j].kstack})
  {
    var p := procs[j].(pgdir := 0, kstack := 0, state := UNUSED);
    assert SlotOk(procs, initproc, n, maker, j) && FramesOf(procs, frames, j);
    NoDependents(procs, initproc, n, maker, j);
    OneSlot(procs, initproc, n, maker, j, p, n, maker);
    var frames' := frames - {procs[j].kstack};
    forall f | f in frames' ensures frames[f].slot != j {
      assert FrameHeld(procs, frames, f);
    }
    OneSlotFrames(procs, frames, j, p, frames');
  }

  lemma Born(procs: seq<Proc>, initproc: nat, n: int, maker: map<nat, nat>, frames: map<int, Use>, j: nat)
    requires Tree(procs, initproc, n, maker) && Frames(procs, frames)
    requires j < NPROC && procs[j].state == EMBRYO && procs[j].parent.Some?
    ensures var procs' := procs[j := procs[j].(state := RUNNABLE)];
            Tree(procs', initproc, n, maker) && Frames(procs', frames)
  {
    var p := procs[j].(state := RUNNABLE);
    assert SlotOk(procs, initproc, n, maker, j);
    NoDependents(procs, initproc, n, maker, j);
    OneSlot(procs, initproc, n, maker, j, p, n, maker);
    SameFrames(procs, frames, j, p);
  }

  lemma FreshPid(procs: seq<Proc>, initproc: nat, n: int, maker: map<nat, nat>)
    requires Tree(procs, initproc, n, maker)
    ensures forall i: nat | i < NPROC && Used(procs[i]) :: 0 < procs[i].pid < n
  {
    forall i: nat | i < NPROC && Used(procs[i]) ensures 0 < procs[i].pid < n {
      assert SlotOk(procs, initproc, n, maker, i);
    }
  }

  lemma Allocated(procs: seq<Proc>, initproc: nat, n: int, maker: map<nat, nat>, j: nat, cur: nat)
    requires Tree(procs, initproc, n, maker) && j < NPROC && !Used(procs[j]) && cur < NPROC
    requires procs[cur].state == RUNNING
    ensures Tree(procs[j := procs[j].(state := EMBRYO, pid := n, tickets := 1)], initproc, n + 1, maker[j := cur])
  {
    var p := procs[j].(state := EMBRYO, pid := n, tickets := 1);
    FreshPid(procs, initproc, n, maker);
    NoDependents(procs, initproc, n, maker, j);
    assert SlotOk(procs, initproc, n, maker, j);
    OneSlot(procs, initproc, n, maker, j, p, n + 1, maker[j := cur]);
  }

  lemma NewFrames(procs: seq<Proc>, frames: map<int, Use>, j: nat, p: Proc)
    requires Frames(procs, frames) && j < |procs| && !Used(procs[j]) && p.kstack == 0 && !HasVm(p)
    ensures Frames(procs[j := p], frames)
  {
    forall f | f in frames ensures frames[f].slot != j {
      assert FrameHeld(procs, frames, f);
    }
    OneSlotFrames(procs, frames, j, p, frames);
  }
}
