/** Sleep locks (sleeplock.c) over sleep and wakeup (proc.c), with every acquire and release of a spinlock a step of its
    own: any number of processes, in any order of steps, use one sleep lock, while any of them may also take the process
    table's lock for another purpose and kill a sleeper, which wakes it early.  Sleepers on other channels are not part
    of this model, and the scheduler's switch to a process is the step in which that process has ptable.lock again. */
module SleepLock {
  import opened Params

  datatype Pc =
    | Idle
    | AcqWant         // acquiresleep: to acquire lk.lk
    | AcqTest         // to test locked
    | SleepWantTable  // sleep: to acquire ptable.lock
    | SleepFreeLk     // to release lk.lk
    | SleepMark       // to become SLEEPING on the lock's channel
    | SleepSched      // sched: to leave ptable.lock to the scheduler, which releases it
    | Asleep          // SLEEPING
    | Woken           // RUNNABLE, to be run with ptable.lock held again
    | BackHolding     // to release ptable.lock
    | BackWant        // to acquire lk.lk, then to test again
    | AcqDone         // acquiresleep has the lock: to release lk.lk
    | Critical        // holds the sleep lock; releasesleep: to acquire lk.lk
    | RelClear        // to clear locked
    | RelWantTable    // wakeup: to acquire ptable.lock
    | RelWake         // wakeup1
    | RelFreeTable    // to release ptable.lock
    | RelFreeLk       // to release lk.lk
    | TableWant       // elsewhere: to acquire ptable.lock
    | Meddling        // holds ptable.lock, and may kill a process before releasing it

  /** The sleep lock (locked, and pid of its holder, 0 for none), and who holds the two spinlocks. */
  datatype State = State(pcs: seq<Pc>, locked: bool, pid: nat, lk: Option<nat>, table: Option<nat>)

  /** What a process that may choose does: lock, meddle, or kill victim. */
  datatype Choice = Lock | Meddle | Kill(victim: nat)

  predicate Init(s: State) {
    && !s.locked && s.pid == 0 && s.lk == None && s.table == None
    && forall i | 0 <= i < |s.pcs| :: s.pcs[i] == Idle
  }

  predicate Enabled(s: State, p: Pc) {
    match p
    case AcqWant | BackWant | Critical => s.lk == None
    case SleepWantTable | Woken | RelWantTable | TableWant => s.table == None
    case Asleep => false
    case _ => true
  }

  /** Process i goes to q. */
  function Go(s: State, i: nat, q: Pc): State
    requires i < |s.pcs|
  {
    s.(pcs := s.pcs[i := q])
  }

  /** wakeup1 on the lock's channel. */
  function WakeAll(pcs: seq<Pc>): (r: seq<Pc>)
    ensures |r| == |pcs|
  {
    seq(|pcs|, j requires 0 <= j < |pcs| => if pcs[j] == Asleep then Woken else pcs[j])
  }

  /** A kill of process v wakes it if it sleeps. */
  function KillOne(pcs: seq<Pc>, v: nat): seq<Pc> {
    if v < |pcs| && pcs[v] == Asleep then pcs[v := Woken] else pcs
  }

  function Step(s: State, i: nat, c: Choice): State
    requires i < |s.pcs| && Enabled(s, s.pcs[i])
  {
    match s.pcs[i]
    case Idle => Go(s, i, if c == Lock then AcqWant else TableWant)
    case AcqWant => Go(s, i, AcqTest).(lk := Some(i))
    case AcqTest =>
      if s.locked then Go(s, i, SleepWantTable) else Go(s, i, AcqDone).(locked := true, pid := i + 1)
    case SleepWantTable => Go(s, i, SleepFreeLk).(table := Some(i))
    case SleepFreeLk => Go(s, i, SleepMark).(lk := None)
    case SleepMark => Go(s, i, SleepSched)
    case SleepSched => Go(s, i, Asleep).(table := None)
    case Asleep => s
    case Woken => Go(s, i, BackHolding).(table := Some(i))
    case BackHolding => Go(s, i, BackWant).(table := None)
    case BackWant => Go(s, i, AcqTest).(lk := Some(i))
    case AcqDone => Go(s, i, Critical).(lk := None)
    case Critical => Go(s, i, RelClear).(lk := Some(i))
    case RelClear => Go(s, i, RelWantTable).(locked := false, pid := 0)
    case RelWantTable => Go(s, i, RelWake).(table := Some(i))
    case RelWake => s.(pcs := WakeAll(s.pcs)[i := RelFreeTable])
    case RelFreeTable => Go(s, i, RelFreeLk).(table := None)
    case RelFreeLk => Go(s, i, Idle).(lk := None)
    case TableWant => Go(s, i, Meddling).(table := Some(i))
    case Meddling => s.(pcs := KillOne(s.pcs, if c.Kill? then c.victim else |s.pcs|)[i := Idle], table := None)
  }

  ghost predicate Moved(s: State, i: nat, c: Choice, s': State) {
    i < |s.pcs| && Enabled(s, s.pcs[i]) && s' == Step(s, i, c)
  }

  ghost predicate Next(s: State, s': State) {
    exists i: nat, c: Choice :: Moved(s, i, c, s')
  }

  ghost predicate Run(run: seq<State>) {
    && run != [] && Init(run[0])
    && forall k: nat, m | m == k + 1 && m < |run| :: Next(run[k], run[m])
  }

  // ---------- The invariant

  predicate HoldsLk(p: Pc) {
    p in {AcqTest, SleepWantTable, SleepFreeLk, AcqDone, RelClear, RelWantTable, RelWake, RelFreeTable, RelFreeLk}
  }

  predicate HoldsTable(p: Pc) {
    p in {SleepFreeLk, SleepMark, SleepSched, BackHolding, RelWake, RelFreeTable, Meddling}
  }

  /** The process has the sleep lock. */
  predicate HoldsLock(p: Pc) {
    p in {AcqDone, Critical, RelClear}
  }

  /** Whoever cleared locked is about to wake the sleepers. */
  predicate WakeComing(s: State) {
    s.lk.Some? && s.lk.value < |s.pcs| && s.pcs[s.lk.value] in {RelWantTable, RelWake}
  }

  predicate PcOk(s: State, i: nat)
    requires i < |s.pcs|
  {
    && (HoldsLk(s.pcs[i]) <==> s.lk == Some(i))
    && (HoldsTable(s.pcs[i]) <==> s.table == Some(i))
    && (HoldsLock(s.pcs[i]) <==> s.locked && s.pid == i + 1)
    && (s.pcs[i] in {SleepWantTable, SleepFreeLk} ==> s.locked)
    && (s.pcs[i] in {SleepMark, SleepSched, Asleep} ==> s.locked || WakeComing(s))
  }

  predicate InRange(s: State) {
    && (s.lk.Some? ==> s.lk.value < |s.pcs|)
    && (s.table.Some? ==> s.table.value < |s.pcs|)
    && (if s.locked then 1 <= s.pid <= |s.pcs| else s.pid == 0)
  }

  predicate Inv(s: State) {
    && InRange(s)
    && forall i: nat | i < |s.pcs| :: PcOk(s, i)
  }

  predicate InAcquire(p: Pc) {
    p in {Idle, AcqWant, AcqTest, SleepWantTable, SleepFreeLk, SleepMark, SleepSched, Asleep, Woken, BackHolding,
          BackWant}
  }

  lemma AcquireStep(s: State, i: nat, c: Choice, j: nat)
    requires Inv(s) && i < |s.pcs| && j < |s.pcs| && Enabled(s, s.pcs[i]) && InAcquire(s.pcs[i])
    ensures |Step(s, i, c).pcs| == |s.pcs| && PcOk(Step(s, i, c), j)
  {
    assert PcOk(s, i) && PcOk(s, j);
  }

  lemma ReleaseStep(s: State, i: nat, c: Choice, j: nat)
    requires Inv(s) && i < |s.pcs| && j < |s.pcs| && Enabled(s, s.pcs[i])
    requires !InAcquire(s.pcs[i]) && s.pcs[i] !in {TableWant, Meddling}
    ensures |Step(s, i, c).pcs| == |s.pcs| && PcOk(Step(s, i, c), j)
  {
    assert PcOk(s, i) && PcOk(s, j);
  }

  lemma MeddleStep(s: State, i: nat, c: Choice, j: nat)
    requires Inv(s) && i < |s.pcs| && j < |s.pcs| && Enabled(s, s.pcs[i]) && s.pcs[i] in {TableWant, Meddling}
    ensures |Step(s, i, c).pcs| == |s.pcs| && PcOk(Step(s, i, c), j)
  {
    assert PcOk(s, i) && PcOk(s, j);
  }

  lemma StepRange(s: State, i: nat, c: Choice)
    requires Inv(s) && i < |s.pcs| && Enabled(s, s.pcs[i])
    ensures InRange(Step(s, i, c))
  {
    assert PcOk(s, i);
    hide PcOk;
  }

  lemma StepInv(s: State, i: nat, c: Choice)
    requires Inv(s) && i < |s.pcs| && Enabled(s, s.pcs[i])
    ensures Inv(Step(s, i, c))
  {
    hide PcOk, Step, Enabled, InRange;
    StepRange(s, i, c);
    forall j: nat | j < |Step(s, i, c).pcs| ensures PcOk(Step(s, i, c), j) {
      StepPc(s, i, c, i);
      StepPc(s, i, c, j);
    }
  }

  lemma StepPc(s: State, i: nat, c: Choice, j: nat)
    requires Inv(s) && i < |s.pcs| && Enabled(s, s.pcs[i])
    ensures |Step(s, i, c).pcs| == |s.pcs| && (j < |s.pcs| ==> PcOk(Step(s, i, c), j))
  {
    hide PcOk, Step, Enabled, Inv;
    var k := if j < |s.pcs| then j else i;
    if InAcquire(s.pcs[i]) {
      AcquireStep(s, i, c, k);
    } else if s.pcs[i] in {TableWant, Meddling} {
      MeddleStep(s, i, c, k);
    } else {
      ReleaseStep(s, i, c, k);
    }
  }

  lemma {:induction false} RunInv(run: seq<State>, k: nat)
    requires Run(run) && k < |run|
    ensures Inv(run[k])
  {
    hide PcOk, Step, Enabled;
    if k == 0 {
      forall i: nat | i < |run[0].pcs| ensures PcOk(run[0], i) {
        InitOk(run[0], i);
      }
    } else {
      var j := k - 1;
      RunInv(run, j);
      assert Next(run[j], run[k]);
      var i: nat, c: Choice :| Moved(run[j], i, c, run[k]);
      StepInv(run[j], i, c);
    }
  }

  lemma InitOk(s: State, i: nat)
    requires Init(s) && i < |s.pcs|
    ensures PcOk(s, i)
  {
  }

  // ---------- What it gives

  /** Two processes never hold the sleep lock at once, and while one does, the lock records it. */
  lemma OneHolder(run: seq<State>, k: nat, i: nat, j: nat)
    requires Run(run) && k < |run| && i < |run[k].pcs| && j < |run[k].pcs|
    requires HoldsLock(run[k].pcs[i]) && HoldsLock(run[k].pcs[j])
    ensures i == j && run[k].locked && run[k].pid == i + 1
  {
    hide Run;
    RunInv(run, k);
    assert PcOk(run[k], i) && PcOk(run[k], j);
  }

  /** No wakeup is lost: a process asleep on the lock while its spinlock is free waits for a lock that somebody
      holds. */
  lemma NoLostWakeup(run: seq<State>, k: nat, i: nat)
    requires Run(run) && k < |run| && i < |run[k].pcs| && run[k].pcs[i] == Asleep && run[k].lk == None
    ensures run[k].locked && 1 <= run[k].pid <= |run[k].pcs| && HoldsLock(run[k].pcs[run[k].pid - 1])
  {
    hide Run;
    RunInv(run, k);
    var h := run[k].pid - 1;
    assert PcOk(run[k], i);
    assert h >= 0 ==> PcOk(run[k], h);
  }

  /** While any process is under way, one that is can take a step: i itself, or whoever it waits for. */
  lemma NoDeadlock(s: State, i: nat) returns (j: nat)
    requires Inv(s) && i < |s.pcs| && s.pcs[i] != Idle
    ensures j < |s.pcs| && s.pcs[j] != Idle && Enabled(s, s.pcs[j])
  {
    assert PcOk(s, i);
    if Enabled(s, s.pcs[i]) {
      j := i;
    } else if s.lk.Some? {
      j := LkHolder(s);
    } else if s.table.Some? {
      j := s.table.value;
      assert PcOk(s, j);
    } else {
      j := s.pid - 1;
      assert PcOk(s, j);
    }
  }

  lemma LkHolder(s: State) returns (j: nat)
    requires Inv(s) && s.lk.Some?
    ensures j < |s.pcs| && s.pcs[j] != Idle && Enabled(s, s.pcs[j])
  {
    var h := s.lk.value;
    assert PcOk(s, h);
    if Enabled(s, s.pcs[h]) {
      j := h;
    } else {
      j := s.table.value;
      assert PcOk(s, j);
    }
  }

  // ---------- Nobody returns without the lock

  /** In acquiresleep, before it has the lock. */
  predicate Waits(p: Pc) {
    InAcquire(p) && p != Idle
  }

  /** Whoever takes the step, a process leaves acquiresleep with the lock, and then it is in its critical section. */
  lemma OnlyWithTheLock(s: State, i: nat, c: Choice, j: nat)
    requires Inv(s) && i < |s.pcs| && j < |s.pcs| && Enabled(s, s.pcs[i])
    ensures var s' := Step(s, i, c);
            && |s'.pcs| == |s.pcs|
            && (Waits(s.pcs[j]) ==> Waits(s'.pcs[j]) || (s'.pcs[j] == AcqDone && s'.locked && s'.pid == j + 1))
            && (s.pcs[j] == AcqDone ==> s'.pcs[j] == AcqDone || s'.pcs[j] == Critical)
  {
    hide Inv, WakeAll, KillOne;
    if s.pcs[i] == RelWake {
      WakesOnlySleepers(s.pcs, j);
    } else if s.pcs[i] == Meddling {
      KillsOnlySleepers(s.pcs, if c.Kill? then c.victim else |s.pcs|, j);
    }
  }

  lemma WakesOnlySleepers(pcs: seq<Pc>, j: nat)
    requires j < |pcs|
    ensures WakeAll(pcs)[j] == (if pcs[j] == Asleep then Woken else pcs[j])
  {
  }

  lemma KillsOnlySleepers(pcs: seq<Pc>, v: nat, j: nat)
    requires j < |pcs|
    ensures |KillOne(pcs, v)| == |pcs|
    ensures KillOne(pcs, v)[j] == (if pcs[j] == Asleep && j == v then Woken else pcs[j])
  {
  }

  /** One step after the other, by whichever processes. */
  ghost predicate Steps(run: seq<State>) {
    && run != [] && Inv(run[0])
    && forall k: nat, m | m == k + 1 && m < |run| :: Next(run[k], run[m])
  }

  lemma StepsOn(run: seq<State>)
    requires Steps(run) && |run| > 1
    ensures Steps(run[1..]) && |run[1].pcs| == |run[0].pcs|
    ensures forall j: nat | j < |run[0].pcs| ::
              && (Waits(run[0].pcs[j]) ==> Waits(run[1].pcs[j]) || run[1].pcs[j] == AcqDone)
              && (run[0].pcs[j] == AcqDone ==> run[1].pcs[j] == AcqDone || run[1].pcs[j] == Critical)
  {
    hide Inv, Step, Enabled;
    assert Next(run[0], run[1]);
    var i: nat, c: Choice :| Moved(run[0], i, c, run[1]);
    StepInv(run[0], i, c);
    OnlyWithTheLock(run[0], i, c, i);
    forall j: nat | j < |run[0].pcs|
      ensures (Waits(run[0].pcs[j]) ==> Waits(run[1].pcs[j]) || run[1].pcs[j] == AcqDone)
      ensures (run[0].pcs[j] == AcqDone ==> run[1].pcs[j] == AcqDone || run[1].pcs[j] == Critical)
    {
      OnlyWithTheLock(run[0], i, c, j);
    }
    var rest := run[1..];
    forall k: nat, m | m == k + 1 && m < |rest| ensures Next(rest[k], rest[m]) {
      assert Next(run[k + 1], run[m + 1]);
    }
  }

  /** Over any run, a process that was in acquiresleep and no longer is has been in its critical section. */
  lemma {:induction false} ThroughCritical(run: seq<State>, i: nat) returns (k: nat)
    requires Steps(run) && i < |run[0].pcs| && (Waits(run[0].pcs[i]) || run[0].pcs[i] == AcqDone)
    requires i < |run[|run| - 1].pcs|
    requires !Waits(run[|run| - 1].pcs[i]) && run[|run| - 1].pcs[i] != AcqDone
    ensures k < |run| && i < |run[k].pcs| && run[k].pcs[i] == Critical
    decreases |run|
  {
    hide Next, Waits;
    StepsOn(run);
    if run[1].pcs[i] == Critical {
      k := 1;
    } else {
      k := ThroughCritical(run[1..], i);
      k := k + 1;
    }
  }

  // ---------- Everybody gets the lock

  /** Steps that a process has left if the lock is free when it tests, and none if it sleeps until it is woken. */
  function Left(p: Pc): nat {
    match p
    case Idle => 0
    case RelFreeLk => 1
    case RelFreeTable => 2
    case RelWake | Asleep => 3
    case RelWantTable | SleepSched => 4
    case RelClear | SleepMark => 5
    case Critical | SleepFreeLk => 6
    case AcqDone | SleepWantTable => 7
    case AcqTest => 8
    case AcqWant | BackWant | Meddling => 9
    case BackHolding | TableWant => 10
    case Woken => 11
  }

  /** A process that has still to release the lock may yet wake each of n processes. */
  function Rank(p: Pc, n: nat): nat {
    Left(p) + (if p in {Idle, RelFreeLk, RelFreeTable, TableWant, Meddling} then 0 else 8 * n)
  }

  function Total(pcs: seq<Pc>, n: nat): nat {
    if pcs == [] then 0 else Rank(pcs[0], n) + Total(pcs[1..], n)
  }

  lemma {:induction false} TotalMoved(pcs: seq<Pc>, n: nat, i: nat, q: Pc)
    requires i < |pcs|
    ensures Total(pcs[i := q], n) == Total(pcs, n) - Rank(pcs[i], n) + Rank(q, n)
  {
    hide Rank;
    if i == 0 {
      assert pcs[0 := q][1..] == pcs[1..];
    } else {
      TotalMoved(pcs[1..], n, i - 1, q);
      assert pcs[i := q][1..] == pcs[1..][i - 1 := q];
    }
  }

  lemma {:induction false} TotalWoken(pcs: seq<Pc>, n: nat)
    ensures Total(WakeAll(pcs), n) <= Total(pcs, n) + 8 * |pcs|
  {
    if pcs != [] {
      TotalWoken(pcs[1..], n);
      assert WakeAll(pcs)[1..] == WakeAll(pcs[1..]);
    }
  }

  /** A step of a process that is under way, with or without a kill. */
  ghost predicate Advances(s: State, s': State) {
    exists i: nat, c: Choice :: Moved(s, i, c, s') && s.pcs[i] != Idle
  }

  ghost predicate CanAdvance(s: State) {
    exists s' :: Advances(s, s')
  }

  predicate AllIdle(s: State) {
    forall i | 0 <= i < |s.pcs| :: s.pcs[i] == Idle
  }

  /** A run in which no process starts anything new. */
  ghost predicate Draining(run: seq<State>) {
    && run != []
    && forall k: nat, m | m == k + 1 && m < |run| :: Advances(run[k], run[m])
  }

  lemma StepRanks(s: State, i: nat, c: Choice)
    requires i < |s.pcs| && s.pcs[i] !in {Idle, RelWake, Meddling} && Enabled(s, s.pcs[i])
    ensures var s' := Step(s, i, c);
            |s'.pcs| == |s.pcs| && s'.pcs == s.pcs[i := s'.pcs[i]] && Rank(s'.pcs[i], |s.pcs|) < Rank(s.pcs[i], |s.pcs|)
  {
  }

  lemma StepCounts(s: State, i: nat, c: Choice)
    requires i < |s.pcs| && s.pcs[i] != Idle && Enabled(s, s.pcs[i])
    ensures |Step(s, i, c).pcs| == |s.pcs| && Total(Step(s, i, c).pcs, |s.pcs|) < Total(s.pcs, |s.pcs|)
  {
    hide Total, WakeAll;
    var n := |s.pcs|;
    if s.pcs[i] == RelWake {
      TotalWoken(s.pcs, n);
      StillWaking(s.pcs, i);
      TotalMoved(WakeAll(s.pcs), n, i, RelFreeTable);
    } else if s.pcs[i] == Meddling {
      var pcs := KillOne(s.pcs, if c.Kill? then c.victim else n);
      if pcs != s.pcs {
        TotalMoved(s.pcs, n, c.victim, Woken);
      }
      TotalMoved(pcs, n, i, Idle);
    } else {
      StepRanks(s, i, c);
      TotalMoved(s.pcs, n, i, Step(s, i, c).pcs[i]);
    }
  }

  lemma StillWaking(pcs: seq<Pc>, i: nat)
    requires i < |pcs| && pcs[i] == RelWake
    ensures WakeAll(pcs)[i] == RelWake
  {
  }

  lemma Stuck(s: State)
    requires Inv(s)
    ensures AllIdle(s) <==> !CanAdvance(s)
  {
    hide Inv, Enabled, Step;
    if i: nat :| i < |s.pcs| && s.pcs[i] != Idle {
      var j := NoDeadlock(s, i);
      assert Moved(s, j, Lock, Step(s, j, Lock));
      assert Advances(s, Step(s, j, Lock));
    }
  }

  lemma AdvanceCounts(s: State, s': State)
    requires Inv(s) && Advances(s, s')
    ensures Inv(s') && |s'.pcs| == |s.pcs| && Total(s'.pcs, |s.pcs|) < Total(s.pcs, |s.pcs|)
  {
    hide Inv, Total, Step, Enabled;
    var i: nat, c: Choice :| Moved(s, i, c, s') && s.pcs[i] != Idle;
    StepInv(s, i, c);
    StepCounts(s, i, c);
  }

  lemma DrainingSteps(run: seq<State>)
    requires Draining(run) && Inv(run[0])
    ensures Steps(run)
  {
    hide Inv, Step, Enabled;
    forall k: nat, m | m == k + 1 && m < |run| ensures Next(run[k], run[m]) {
      assert Advances(run[k], run[m]);
      var i: nat, c: Choice :| Moved(run[k], i, c, run[m]) && run[k].pcs[i] != Idle;
    }
  }

  /** If no process starts anything new, a run is bounded however the steps interleave, and when it can go no further
      every process that was in acquiresleep has been through its critical section: nobody sleeps for ever. */
  lemma EverybodyGetsTheLock(run: seq<State>)
    requires Draining(run) && Inv(run[0])
    ensures |run[|run| - 1].pcs| == |run[0].pcs|
    ensures |run| - 1 + Total(run[|run| - 1].pcs, |run[0].pcs|) <= Total(run[0].pcs, |run[0].pcs|)
    ensures AllIdle(run[|run| - 1]) <==> !CanAdvance(run[|run| - 1])
    ensures !CanAdvance(run[|run| - 1]) ==>
              forall i: nat | i < |run[0].pcs| && Waits(run[0].pcs[i]) ::
                exists k: nat :: k < |run| && i < |run[k].pcs| && run[k].pcs[i] == Critical
  {
    hide Inv, Total, Advances, CanAdvance, Next;
    Drains(run);
    DrainingSteps(run);
    if !CanAdvance(run[|run| - 1]) {
      forall i: nat | i < |run[0].pcs| && Waits(run[0].pcs[i])
        ensures exists k: nat :: k < |run| && i < |run[k].pcs| && run[k].pcs[i] == Critical
      {
        var k := ThroughCritical(run, i);
      }
    }
  }

  lemma {:induction false} Drains(run: seq<State>)
    requires Draining(run) && Inv(run[0])
    ensures |run[|run| - 1].pcs| == |run[0].pcs|
    ensures |run| - 1 + Total(run[|run| - 1].pcs, |run[0].pcs|) <= Total(run[0].pcs, |run[0].pcs|)
    ensures AllIdle(run[|run| - 1]) <==> !CanAdvance(run[|run| - 1])
    decreases |run|
  {
    hide Inv, Total, Advances, AllIdle, CanAdvance;
    if |run| == 1 {
      Stuck(run[0]);
    } else {
      assert Advances(run[0], run[1]);
      AdvanceCounts(run[0], run[1]);
      var rest := run[1..];
      forall k: nat, m | m == k + 1 && m < |rest| ensures Advances(rest[k], rest[m]) {
        assert Advances(run[k + 1], run[m + 1]);
      }
      Drains(rest);
    }
  }
}
