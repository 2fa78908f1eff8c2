/** The VIP channel of the airport simulation (1705043_IPC.cpp): passengers cross it in both directions, kept apart by
    two counters and four mutexes.  One step is one mutex operation, together with the counter update next to it; any
    number of passengers take steps in any order, and each may come back to cross again.  The mutexes are binary
    semaphores, since one passenger unlocks what another has locked; sleeping and printing are left out. */
module VipChannel {

  /** Where a passenger is.  Lr is left to right (SendToVipChannel, SpecialSendToVipChannel and their threads),
      Rl is right to left (SendRightToLeft and its thread). */
  datatype Pc =
    | Away
    | LrWant       // to lock mtx_rc, count itself in
    | LrNeedDb     // first one in, to lock mtx_db
    | LrNeedExtra  // first one in, to lock mtx_extradb
    | LrEntered    // to unlock mtx_rc
    | LrCrossing   // in the channel, then to lock mtx_rc and count itself out
    | LrFreeExtra  // last one out, to unlock mtx_extradb
    | LrFreeDb     // last one out, to unlock mtx_db
    | LrLeft       // to unlock mtx_rc
    | RlWant       // to lock mtx_db
    | RlHasDb      // to lock mtx_wc, count itself in
    | RlNeedExtra  // first one in, to lock mtx_extradb
    | RlEntered    // to unlock mtx_wc
    | RlFreeDb     // to unlock mtx_db
    | RlCrossing   // in the channel, then to lock mtx_wc and count itself out
    | RlFreeExtra  // last one out, to unlock mtx_extradb
    | RlLeft       // to unlock mtx_wc

  /** The counters, and which mutexes are locked. */
  datatype Shared = Shared(rc: int, wc: int, rcLocked: bool, dbLocked: bool, extraLocked: bool, wcLocked: bool)

  datatype State = State(pcs: seq<Pc>, shared: Shared)

  predicate Init(s: State) {
    && s.shared == Shared(0, 0, false, false, false, false)
    && forall i | 0 <= i < |s.pcs| :: s.pcs[i] == Away
  }

  /** A passenger that is about to lock a mutex goes on only when it is unlocked. */
  predicate Enabled(h: Shared, p: Pc) {
    match p
    case LrWant | LrCrossing => !h.rcLocked
    case LrNeedDb | RlWant => !h.dbLocked
    case LrNeedExtra | RlNeedExtra => !h.extraLocked
    case RlHasDb | RlCrossing => !h.wcLocked
    case _ => true
  }

  /** What a passenger at p does next to the counters and mutexes. */
  function Act(h: Shared, p: Pc): Shared {
    match p
    case LrWant => h.(rcLocked := true, rc := h.rc + 1)
    case LrNeedDb => h.(dbLocked := true)
    case LrNeedExtra => h.(extraLocked := true)
    case LrEntered => h.(rcLocked := false)
    case LrCrossing => h.(rcLocked := true, rc := h.rc - 1)
    case LrFreeExtra => h.(extraLocked := false)
    case LrFreeDb => h.(dbLocked := false)
    case LrLeft => h.(rcLocked := false)
    case RlWant => h.(dbLocked := true)
    case RlHasDb => h.(wcLocked := true, wc := h.wc + 1)
    case RlNeedExtra => h.(extraLocked := true)
    case RlEntered => h.(wcLocked := false)
    case RlFreeDb => h.(dbLocked := false)
    case RlCrossing => h.(wcLocked := true, wc := h.wc - 1)
    case RlFreeExtra => h.(extraLocked := false)
    case RlLeft => h.(wcLocked := false)
    case Away => h
  }

  /** Where it goes.  One that is away sets out in the direction given. */
  function GoTo(h: Shared, p: Pc, fromLeft: bool): Pc {
    match p
    case Away => if fromLeft then LrWant else RlWant
    case LrWant => if h.rc + 1 == 1 then LrNeedDb else LrEntered
    case LrNeedDb => LrNeedExtra
    case LrNeedExtra => LrEntered
    case LrEntered => LrCrossing
    case LrCrossing => if h.rc - 1 == 0 then LrFreeExtra else LrLeft
    case LrFreeExtra => LrFreeDb
    case LrFreeDb => LrLeft
    case LrLeft => Away
    case RlWant => RlHasDb
    case RlHasDb => if h.wc + 1 == 1 then RlNeedExtra else RlEntered
    case RlNeedExtra => RlEntered
    case RlEntered => RlFreeDb
    case RlFreeDb => RlCrossing
    case RlCrossing => if h.wc - 1 == 0 then RlFreeExtra else RlLeft
    case RlFreeExtra => RlLeft
    case RlLeft => Away
  }

  function Step(s: State, i: nat, fromLeft: bool): State
    requires i < |s.pcs| && Enabled(s.shared, s.pcs[i])
  {
    State(s.pcs[i := GoTo(s.shared, s.pcs[i], fromLeft)], Act(s.shared, s.pcs[i]))
  }

  ghost predicate Moved(s: State, i: nat, fromLeft: bool, s': State) {
    i < |s.pcs| && Enabled(s.shared, s.pcs[i]) && s' == Step(s, i, fromLeft)
  }

  /** The whole channel after one step of any passenger. */
  ghost predicate Next(s: State, s': State) {
    exists i: nat, fromLeft: bool :: Moved(s, i, fromLeft, s')
  }

  ghost predicate Run(run: seq<State>) {
    && run != [] && Init(run[0])
    && forall k: nat, m | m == k + 1 && m < |run| :: Next(run[k], run[m])
  }

  // ---------- Counting passengers

  function At(pcs: seq<Pc>, p: Pc): nat {
    if pcs == [] then 0 else At(pcs[1..], p) + (if pcs[0] == p then 1 else 0)
  }

  lemma {:induction false} AtMoved(pcs: seq<Pc>, i: nat, q: Pc, p: Pc)
    requires i < |pcs|
    ensures At(pcs[i := q], p) == At(pcs, p) - Bit(pcs[i] == p) + Bit(q == p)
  {
    if i == 0 {
      assert pcs[0 := q][1..] == pcs[1..];
    } else {
      AtMoved(pcs[1..], i - 1, q, p);
      assert pcs[i := q][1..] == pcs[1..][i - 1 := q];
    }
  }

  lemma {:induction false} AtLeastOne(pcs: seq<Pc>, i: nat)
    requires i < |pcs|
    ensures At(pcs, pcs[i]) >= 1
  {
    if i > 0 {
      AtLeastOne(pcs[1..], i - 1);
    }
  }

  lemma {:induction false} SomeoneAt(pcs: seq<Pc>, p: Pc) returns (i: nat)
    requires At(pcs, p) > 0
    ensures i < |pcs| && pcs[i] == p
  {
    if pcs[0] == p {
      i := 0;
    } else {
      i := SomeoneAt(pcs[1..], p);
      i := i + 1;
    }
  }

  lemma {:induction false} NobodyAt(pcs: seq<Pc>, p: Pc)
    requires p != Away && forall i | 0 <= i < |pcs| :: pcs[i] == Away
    ensures At(pcs, p) == 0
  {
    if pcs != [] {
      NobodyAt(pcs[1..], p);
    }
  }

  function Bit(b: bool): int {
    if b then 1 else 0
  }

  /** How many passengers are at each place. */
  datatype Tally = Tally(lrNeedDb: int, lrNeedExtra: int, lrEntered: int, lrCrossing: int,
                         lrFreeExtra: int, lrFreeDb: int, lrLeft: int,
                         rlHasDb: int, rlNeedExtra: int, rlEntered: int, rlFreeDb: int, rlCrossing: int,
                         rlFreeExtra: int, rlLeft: int)

  function TallyOf(c: seq<Pc>): Tally {
    Tally(At(c, LrNeedDb), At(c, LrNeedExtra), At(c, LrEntered), At(c, LrCrossing),
          At(c, LrFreeExtra), At(c, LrFreeDb), At(c, LrLeft),
          At(c, RlHasDb), At(c, RlNeedExtra), At(c, RlEntered), At(c, RlFreeDb), At(c, RlCrossing),
          At(c, RlFreeExtra), At(c, RlLeft))
  }

  /** The tally once one more passenger, or with -1 one fewer, is at p. */
  function Count(n: Tally, p: Pc, d: int): Tally {
    Tally(if p == LrNeedDb then n.lrNeedDb + d else n.lrNeedDb,
          if p == LrNeedExtra then n.lrNeedExtra + d else n.lrNeedExtra,
          if p == LrEntered then n.lrEntered + d else n.lrEntered,
          if p == LrCrossing then n.lrCrossing + d else n.lrCrossing,
          if p == LrFreeExtra then n.lrFreeExtra + d else n.lrFreeExtra,
          if p == LrFreeDb then n.lrFreeDb + d else n.lrFreeDb,
          if p == LrLeft then n.lrLeft + d else n.lrLeft,
          if p == RlHasDb then n.rlHasDb + d else n.rlHasDb,
          if p == RlNeedExtra then n.rlNeedExtra + d else n.rlNeedExtra,
          if p == RlEntered then n.rlEntered + d else n.rlEntered,
          if p == RlFreeDb then n.rlFreeDb + d else n.rlFreeDb,
          if p == RlCrossing then n.rlCrossing + d else n.rlCrossing,
          if p == RlFreeExtra then n.rlFreeExtra + d else n.rlFreeExtra,
          if p == RlLeft then n.rlLeft + d else n.rlLeft)
  }

  lemma TallyMoved(pcs: seq<Pc>, i: nat, q: Pc)
    requires i < |pcs|
    ensures TallyOf(pcs[i := q]) == Count(Count(TallyOf(pcs), pcs[i], -1), q, 1)
  {
    hide At;
    AtMoved(pcs, i, q, LrNeedDb);
    AtMoved(pcs, i, q, LrNeedExtra);
    AtMoved(pcs, i, q, LrEntered);
    AtMoved(pcs, i, q, LrCrossing);
    AtMoved(pcs, i, q, LrFreeExtra);
    AtMoved(pcs, i, q, LrFreeDb);
    AtMoved(pcs, i, q, LrLeft);
    AtMoved(pcs, i, q, RlHasDb);
    AtMoved(pcs, i, q, RlNeedExtra);
    AtMoved(pcs, i, q, RlEntered);
    AtMoved(pcs, i, q, RlFreeDb);
    AtMoved(pcs, i, q, RlCrossing);
    AtMoved(pcs, i, q, RlFreeExtra);
    AtMoved(pcs, i, q, RlLeft);
  }

  lemma TallyHas(pcs: seq<Pc>, i: nat)
    requires i < |pcs|
    ensures NonNegative(Count(TallyOf(pcs), pcs[i], -1))
  {
    hide At;
    AtLeastOne(pcs, i);
  }

  lemma TallyHadOne(pcs: seq<Pc>, q: Pc)
    requires NonNegative(Count(TallyOf(pcs), q, -1)) && q !in {Away, LrWant, RlWant}
    ensures At(pcs, q) > 0
  {
    hide At;
  }

  lemma TallyNonNegative(pcs: seq<Pc>)
    ensures NonNegative(TallyOf(pcs))
  {
    hide At;
  }

  // ---------- The invariant

  predicate NonNegative(n: Tally) {
    && n.lrNeedDb >= 0 && n.lrNeedExtra >= 0 && n.lrEntered >= 0 && n.lrCrossing >= 0
    && n.lrFreeExtra >= 0 && n.lrFreeDb >= 0 && n.lrLeft >= 0
    && n.rlHasDb >= 0 && n.rlNeedExtra >= 0 && n.rlEntered >= 0 && n.rlFreeDb >= 0 && n.rlCrossing >= 0
    && n.rlFreeExtra >= 0 && n.rlLeft >= 0
  }

  /** The passengers from the left together hold mtx_db ... */
  predicate LeftHoldsDb(n: Tally, rc: int) {
    (rc > 0 && n.lrNeedDb == 0) || n.lrFreeExtra + n.lrFreeDb > 0
  }

  /** ... and mtx_extradb, ... */
  predicate LeftHoldsExtra(n: Tally, rc: int) {
    (rc > 0 && n.lrNeedDb + n.lrNeedExtra == 0) || n.lrFreeExtra > 0
  }

  /** ... which those from the right may hold together instead. */
  predicate RightHoldsExtra(n: Tally, wc: int) {
    (wc > 0 && n.rlNeedExtra == 0) || n.rlFreeExtra > 0
  }

  /** The counters count, and each locked mutex has exactly one holder. */
  predicate Sound(n: Tally, h: Shared) {
    && h.rc == n.lrNeedDb + n.lrNeedExtra + n.lrEntered + n.lrCrossing
    && h.wc == n.rlNeedExtra + n.rlEntered + n.rlFreeDb + n.rlCrossing
    && Bit(h.rcLocked) == n.lrNeedDb + n.lrNeedExtra + n.lrEntered + n.lrFreeExtra + n.lrFreeDb + n.lrLeft
    && Bit(h.wcLocked) == n.rlNeedExtra + n.rlEntered + n.rlFreeExtra + n.rlLeft
    && Bit(h.dbLocked) == Bit(LeftHoldsDb(n, h.rc)) + n.rlHasDb + n.rlNeedExtra + n.rlEntered + n.rlFreeDb
    && Bit(h.extraLocked) == Bit(LeftHoldsExtra(n, h.rc)) + Bit(RightHoldsExtra(n, h.wc))
    && (n.lrNeedDb + n.lrNeedExtra > 0 ==> h.rc == 1)
    && (n.lrFreeExtra + n.lrFreeDb > 0 ==> h.rc == 0)
    && (n.rlNeedExtra > 0 ==> h.wc == 1)
    && (n.rlFreeExtra > 0 ==> h.wc == 0)
  }

  /** What every reachable state satisfies. */
  predicate Inv(s: State) {
    Sound(TallyOf(s.pcs), s.shared)
  }

  lemma LeftActs(n: Tally, h: Shared, p: Pc, fromLeft: bool)
    requires Sound(n, h) && NonNegative(Count(n, p, -1)) && Enabled(h, p)
    requires p in {LrWant, LrNeedDb, LrNeedExtra, LrEntered, LrCrossing, LrFreeExtra, LrFreeDb, LrLeft}
    ensures Sound(Count(Count(n, p, -1), GoTo(h, p, fromLeft), 1), Act(h, p))
  {
  }

  lemma RightActs(n: Tally, h: Shared, p: Pc, fromLeft: bool)
    requires Sound(n, h) && NonNegative(Count(n, p, -1)) && Enabled(h, p)
    requires p in {Away, RlWant, RlHasDb, RlNeedExtra, RlEntered, RlFreeDb, RlCrossing, RlFreeExtra, RlLeft}
    ensures Sound(Count(Count(n, p, -1), GoTo(h, p, fromLeft), 1), Act(h, p))
  {
  }

  lemma StepInv(s: State, i: nat, fromLeft: bool)
    requires Inv(s) && i < |s.pcs| && Enabled(s.shared, s.pcs[i])
    ensures Inv(Step(s, i, fromLeft))
  {
    hide At, TallyOf, Sound, Count, Act, GoTo, NonNegative;
    var n, h, p := TallyOf(s.pcs), s.shared, s.pcs[i];
    TallyMoved(s.pcs, i, GoTo(h, p, fromLeft));
    TallyHas(s.pcs, i);
    if p in {LrWant, LrNeedDb, LrNeedExtra, LrEntered, LrCrossing, LrFreeExtra, LrFreeDb, LrLeft} {
      LeftActs(n, h, p, fromLeft);
    } else {
      RightActs(n, h, p, fromLeft);
    }
  }

  const NOBODY := Tally(0, 0, 0, 0, 0, 0, 0, 0, 0, 0, 0, 0, 0, 0)

  lemma NobodyTally(pcs: seq<Pc>)
    requires forall i | 0 <= i < |pcs| :: pcs[i] == Away
    ensures TallyOf(pcs) == NOBODY
  {
    hide At;
    NobodyAt(pcs, LrNeedDb);
    NobodyAt(pcs, LrNeedExtra);
    NobodyAt(pcs, LrEntered);
    NobodyAt(pcs, LrCrossing);
    NobodyAt(pcs, LrFreeExtra);
    NobodyAt(pcs, LrFreeDb);
    NobodyAt(pcs, LrLeft);
    NobodyAt(pcs, RlHasDb);
    NobodyAt(pcs, RlNeedExtra);
    NobodyAt(pcs, RlEntered);
    NobodyAt(pcs, RlFreeDb);
    NobodyAt(pcs, RlCrossing);
    NobodyAt(pcs, RlFreeExtra);
    NobodyAt(pcs, RlLeft);
  }

  lemma NobodySound(h: Shared)
    requires h == Shared(0, 0, false, false, false, false)
    ensures Sound(NOBODY, h)
  {
  }

  lemma InitInv(s: State)
    requires Init(s)
    ensures Inv(s)
  {
    hide TallyOf, Sound;
    NobodyTally(s.pcs);
    NobodySound(s.shared);
  }

  /** The invariant holds throughout every run. */
  lemma {:induction false} RunInv(run: seq<State>, k: nat)
    requires Run(run) && k < |run|
    ensures Inv(run[k])
  {
    hide Inv, Init;
    if k == 0 {
      InitInv(run[0]);
    } else {
      var j := k - 1;
      RunInv(run, j);
      assert Next(run[j], run[k]);
      var i: nat, fromLeft: bool :| Moved(run[j], i, fromLeft, run[k]);
      StepInv(run[j], i, fromLeft);
    }
  }

  // ---------- What it gives

  /** Nobody in the channel ever meets anybody coming the other way. */
  lemma NeverMeet(run: seq<State>, k: nat, i: nat, j: nat)
    requires Run(run) && k < |run| && i < |run[k].pcs| && j < |run[k].pcs|
    ensures !(run[k].pcs[i] == LrCrossing && run[k].pcs[j] == RlCrossing)
  {
    hide At, Run;
    RunInv(run, k);
    AtLeastOne(run[k].pcs, i);
    AtLeastOne(run[k].pcs, j);
  }

  /** The first passenger from the right never has to wait for mtx_extradb. */
  lemma FirstFromRightNeverWaits(run: seq<State>, k: nat, i: nat)
    requires Run(run) && k < |run| && i < |run[k].pcs| && run[k].pcs[i] == RlNeedExtra
    ensures Enabled(run[k].shared, RlNeedExtra)
  {
    hide At, Run;
    RunInv(run, k);
    AtLeastOne(run[k].pcs, i);
  }

  /** Every mutex that is unlocked is locked: the binary semaphores never count past one. */
  lemma UnlocksWhatIsLocked(run: seq<State>, k: nat, i: nat)
    requires Run(run) && k < |run| && i < |run[k].pcs|
    ensures run[k].pcs[i] in {LrEntered, LrLeft} ==> run[k].shared.rcLocked
    ensures run[k].pcs[i] in {RlEntered, RlLeft} ==> run[k].shared.wcLocked
    ensures run[k].pcs[i] in {LrFreeDb, RlFreeDb} ==> run[k].shared.dbLocked
    ensures run[k].pcs[i] in {LrFreeExtra, RlFreeExtra} ==> run[k].shared.extraLocked
  {
    hide At, Run;
    RunInv(run, k);
    AtLeastOne(run[k].pcs, i);
  }

  /** Once the left side has mtx_db, the right side only drains until the left side is through. */
  lemma RightOnlyDrains(s: State, i: nat, fromLeft: bool)
    requires Inv(s) && LeftHoldsDb(TallyOf(s.pcs), s.shared.rc) && i < |s.pcs| && Enabled(s.shared, s.pcs[i])
    ensures Step(s, i, fromLeft).shared.wc <= s.shared.wc
  {
    hide At;
    AtLeastOne(s.pcs, i);
  }

  /** While anybody has set out, somebody who has set out can take a step: there is no deadlock. */
  lemma NoDeadlock(s: State, i: nat) returns (j: nat)
    requires Inv(s) && i < |s.pcs| && s.pcs[i] != Away
    ensures j < |s.pcs| && s.pcs[j] != Away && Enabled(s.shared, s.pcs[j])
  {
    hide Sound, Enabled, TallyOf, At;
    var p := SomePlace(s, i);
    j := SomeoneAt(s.pcs, p);
  }

  lemma SomePlace(s: State, i: nat) returns (p: Pc)
    requires Inv(s) && i < |s.pcs| && s.pcs[i] != Away
    ensures p != Away && At(s.pcs, p) > 0 && Enabled(s.shared, p)
  {
    hide At, TallyOf, NonNegative, Count, Sound, Enabled;
    AtLeastOne(s.pcs, i);
    TallyNonNegative(s.pcs);
    TallyHas(s.pcs, i);
    p := Unblocked(TallyOf(s.pcs), s.shared, s.pcs[i]);
    if p != s.pcs[i] {
      TallyHadOne(s.pcs, p);
    }
  }

  /** Some passenger is on the way out, where nothing blocks. */
  ghost predicate OnTheWayOut(n: Tally) {
    || n.lrEntered > 0 || n.lrFreeExtra > 0 || n.lrFreeDb > 0 || n.lrLeft > 0
    || n.rlEntered > 0 || n.rlFreeDb > 0 || n.rlFreeExtra > 0 || n.rlLeft > 0
  }

  lemma OutUnblocked(n: Tally, h: Shared) returns (q: Pc)
    requires Sound(n, h) && NonNegative(n) && OnTheWayOut(n)
    ensures q !in {Away, LrWant, RlWant} && NonNegative(Count(n, q, -1)) && Enabled(h, q)
  {
    q :=
      if n.lrEntered > 0 then LrEntered
      else if n.lrFreeExtra > 0 then LrFreeExtra
      else if n.lrFreeDb > 0 then LrFreeDb
      else if n.lrLeft > 0 then LrLeft
      else if n.rlEntered > 0 then RlEntered
      else if n.rlFreeDb > 0 then RlFreeDb
      else if n.rlFreeExtra > 0 then RlFreeExtra
      else RlLeft;
  }

  /** Somewhere where there is a passenger, it is not blocked: p itself, or whoever holds what p waits for. */
  lemma Unblocked(n: Tally, h: Shared, p: Pc) returns (q: Pc)
    requires Sound(n, h) && NonNegative(n) && NonNegative(Count(n, p, -1)) && p != Away
    ensures q == p || (q !in {Away, LrWant, RlWant} && NonNegative(Count(n, q, -1)))
    ensures q != Away && Enabled(h, q)
  {
    if Enabled(h, p) {
      q := p;
    } else if OnTheWayOut(n) {
      q := OutUnblocked(n, h);
    } else {
      q := HolderUnblocked(n, h, p);
    }
  }

  lemma HolderUnblocked(n: Tally, h: Shared, p: Pc) returns (q: Pc)
    requires Sound(n, h) && NonNegative(n) && NonNegative(Count(n, p, -1)) && p != Away && !Enabled(h, p)
    requires !OnTheWayOut(n)
    ensures q !in {Away, LrWant, RlWant} && NonNegative(Count(n, q, -1)) && Enabled(h, q)
  {
    q :=
      if n.rlNeedExtra > 0 then RlNeedExtra
      else if n.rlHasDb > 0 then RlHasDb
      else if n.lrNeedDb > 0 then LrNeedDb
      else if n.lrNeedExtra > 0 && !h.extraLocked then LrNeedExtra
      else if n.rlCrossing > 0 then RlCrossing
      else LrCrossing;
  }

  // ---------- Nobody gets across without crossing

  /** Set out and not yet in the channel, from the left or from the right. */
  predicate SetOut(p: Pc, fromLeft: bool) {
    if fromLeft then p in {LrWant, LrNeedDb, LrNeedExtra, LrEntered}
    else p in {RlWant, RlHasDb, RlNeedExtra, RlEntered, RlFreeDb}
  }

  function Crossing(fromLeft: bool): Pc {
    if fromLeft then LrCrossing else RlCrossing
  }

  lemma OnlyThroughTheChannel(s: State, i: nat, way: bool, j: nat, fromLeft: bool)
    requires i < |s.pcs| && j < |s.pcs| && Enabled(s.shared, s.pcs[i]) && SetOut(s.pcs[j], fromLeft)
    ensures var s' := Step(s, i, way);
            |s'.pcs| == |s.pcs| && (SetOut(s'.pcs[j], fromLeft) || s'.pcs[j] == Crossing(fromLeft))
  {
  }

  ghost predicate Steps(run: seq<State>) {
    run != [] && forall k: nat, m | m == k + 1 && m < |run| :: Next(run[k], run[m])
  }

  /** Over any run, a passenger that had set out and no longer waits to enter has been in the channel, on its side. */
  lemma {:induction false} ThroughTheChannel(run: seq<State>, j: nat, fromLeft: bool) returns (k: nat)
    requires Steps(run) && j < |run[0].pcs| && SetOut(run[0].pcs[j], fromLeft)
    requires j < |run[|run| - 1].pcs| && !SetOut(run[|run| - 1].pcs[j], fromLeft)
    ensures k < |run| && j < |run[k].pcs| && run[k].pcs[j] == Crossing(fromLeft)
    decreases |run|
  {
    hide SetOut, Step, Enabled;
    assert Next(run[0], run[1]);
    var i: nat, way: bool :| Moved(run[0], i, way, run[1]);
    OnlyThroughTheChannel(run[0], i, way, j, fromLeft);
    if run[1].pcs[j] == Crossing(fromLeft) {
      k := 1;
    } else {
      var rest := run[1..];
      forall k: nat, m | m == k + 1 && m < |rest| ensures Next(rest[k], rest[m]) {
        assert Next(run[k + 1], run[m + 1]);
      }
      k := ThroughTheChannel(rest, j, fromLeft);
      k := k + 1;
    }
  }

  // ---------- Everybody gets across

  /** Steps that a passenger has left, at most. */
  function Left(p: Pc): nat {
    match p
    case Away => 0
    case LrLeft | RlLeft => 1
    case LrFreeDb | RlFreeExtra => 2
    case LrFreeExtra | RlCrossing => 3
    case LrCrossing | RlFreeDb => 4
    case LrEntered | RlEntered => 5
    case LrNeedExtra | RlNeedExtra => 6
    case LrNeedDb | RlHasDb => 7
    case LrWant | RlWant => 8
  }

  function TotalLeft(pcs: seq<Pc>): nat {
    if pcs == [] then 0 else Left(pcs[0]) + TotalLeft(pcs[1..])
  }

  lemma {:induction false} TotalMoved(pcs: seq<Pc>, i: nat, q: Pc)
    requires i < |pcs|
    ensures TotalLeft(pcs[i := q]) == TotalLeft(pcs) - Left(pcs[i]) + Left(q)
  {
    if i == 0 {
      assert pcs[0 := q][1..] == pcs[1..];
    } else {
      TotalMoved(pcs[1..], i - 1, q);
      assert pcs[i := q][1..] == pcs[1..][i - 1 := q];
    }
  }

  /** A step of a passenger that has set out. */
  ghost predicate Advances(s: State, s': State) {
    exists i: nat :: Moved(s, i, true, s') && s.pcs[i] != Away
  }

  ghost predicate CanAdvance(s: State) {
    exists s' :: Advances(s, s')
  }

  predicate AllAway(s: State) {
    forall i | 0 <= i < |s.pcs| :: s.pcs[i] == Away
  }

  /** A run in which nobody new sets out. */
  ghost predicate Draining(run: seq<State>) {
    && run != []
    && forall k: nat, m | m == k + 1 && m < |run| :: Advances(run[k], run[m])
  }

  lemma GoesForward(h: Shared, p: Pc)
    requires p != Away
    ensures Left(GoTo(h, p, true)) < Left(p)
  {
  }

  lemma AdvanceCounts(s: State, s': State)
    requires Inv(s) && Advances(s, s')
    ensures Inv(s') && |s'.pcs| == |s.pcs| && TotalLeft(s'.pcs) < TotalLeft(s.pcs)
  {
    hide Inv, TotalLeft, GoTo, Act, Left, Enabled;
    var i: nat :| Moved(s, i, true, s') && s.pcs[i] != Away;
    StepInv(s, i, true);
    GoesForward(s.shared, s.pcs[i]);
    TotalMoved(s.pcs, i, GoTo(s.shared, s.pcs[i], true));
  }

  lemma Stuck(s: State)
    requires Inv(s)
    ensures AllAway(s) <==> !CanAdvance(s)
  {
    hide Inv, GoTo, Act;
    if i: nat :| i < |s.pcs| && s.pcs[i] != Away {
      var j := NoDeadlock(s, i);
      assert Moved(s, j, true, Step(s, j, true));
      assert Advances(s, Step(s, j, true));
    }
  }

  lemma DrainingSteps(run: seq<State>)
    requires Draining(run)
    ensures Steps(run)
  {
    hide Step, Enabled;
    forall k: nat, m | m == k + 1 && m < |run| ensures Next(run[k], run[m]) {
      assert Advances(run[k], run[m]);
      var i: nat :| Moved(run[k], i, true, run[m]) && run[k].pcs[i] != Away;
    }
  }

  /** With no new arrivals a run has at most TotalLeft steps, whatever the order, and when it can go no further
      everybody is across, and everybody who had set out has been in the channel: however the mutexes are handed on, no
      passenger is left waiting for ever. */
  lemma EverybodyCrosses(run: seq<State>)
    requires Draining(run) && Inv(run[0])
    ensures |run[|run| - 1].pcs| == |run[0].pcs|
    ensures |run| - 1 + TotalLeft(run[|run| - 1].pcs) <= TotalLeft(run[0].pcs)
    ensures AllAway(run[|run| - 1]) <==> !CanAdvance(run[|run| - 1])
    ensures !CanAdvance(run[|run| - 1]) ==>
              forall j: nat, fromLeft | j < |run[0].pcs| && SetOut(run[0].pcs[j], fromLeft) ::
                exists k: nat :: k < |run| && j < |run[k].pcs| && run[k].pcs[j] == Crossing(fromLeft)
  {
    hide Inv, TotalLeft, Advances, CanAdvance, Next;
    Drains(run);
    DrainingSteps(run);
    if !CanAdvance(run[|run| - 1]) {
      forall j: nat, fromLeft | j < |run[0].pcs| && SetOut(run[0].pcs[j], fromLeft)
        ensures exists k: nat :: k < |run| && j < |run[k].pcs| && run[k].pcs[j] == Crossing(fromLeft)
      {
        var k := ThroughTheChannel(run, j, fromLeft);
      }
    }
  }

  lemma {:induction false} Drains(run: seq<State>)
    requires Draining(run) && Inv(run[0])
    ensures |run[|run| - 1].pcs| == |run[0].pcs|
    ensures |run| - 1 + TotalLeft(run[|run| - 1].pcs) <= TotalLeft(run[0].pcs)
    ensures AllAway(run[|run| - 1]) <==> !CanAdvance(run[|run| - 1])
    decreases |run|
  {
    hide Inv, TotalLeft, Advances, AllAway, CanAdvance;
    if |run| == 1 {
      Stuck(run[0]);
    } else {
      assert Advances(run[0], run[1]);
      AdvanceCounts(run[0], run[1]);
      var rest := run[1..];
      forall k: nat, m | m == k + 1 && m < |rest| ensures Advances(rest[k], rest[m]) {
        assert Advances(run[k + 1], run[m + 1]);
      }
      Drains(rest);
    }
  }
}
