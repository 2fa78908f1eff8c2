/** The lottery of the scheduler (proc.c of the scheduling assignment): its generator of random numbers, a shift
    register, and the loop that finds the winner.  Of a process only whether it is RUNNABLE and its tickets matter here;
    sums of tickets fit in an int. */
module Lottery {
  import opened Params

  // ---------- Random numbers

  const SEED: bv32 := 0xACE1

  /** rand, from the register to its next value. */
  function Rand(lfsr: bv32): bv32 {
    var bit := ((lfsr >> 0) ^ (lfsr >> 2) ^ (lfsr >> 3) ^ (lfsr >> 5)) & 1;
    (lfsr >> 1) | (bit << 15)
  }

  /** The register never becomes zero, where it would stay, and never needs more than 16 bits. */
  lemma RandStaysAlive(lfsr: bv32)
    requires 0 < lfsr < 0x1_0000
    ensures 0 < Rand(lfsr) < 0x1_0000
  {
    var bit := ((lfsr >> 0) ^ (lfsr >> 2) ^ (lfsr >> 3) ^ (lfsr >> 5)) & 1;
    if lfsr >> 1 == 0 {
      assert lfsr == 1;
      assert bit == 1;
    }
  }

  /** The value before. */
  function Unrand(lfsr: bv32): bv32 {
    var low := (lfsr >> 1) ^ (lfsr >> 2) ^ (lfsr >> 4) ^ (lfsr >> 15);
    ((lfsr << 1) & 0xFFFF) | (low & 1)
  }

  /** No two registers have the same next value. */
  lemma RandIsReversible(lfsr: bv32)
    requires lfsr < 0x1_0000
    ensures Unrand(Rand(lfsr)) == lfsr
  {
  }

  function Randoms(lfsr: bv32, n: nat): bv32 {
    if n == 0 then lfsr else Rand(Randoms(lfsr, n - 1))
  }

  lemma {:induction false} RandomsAlive(n: nat)
    ensures 0 < Randoms(SEED, n) < 0x1_0000
  {
    if n > 0 {
      RandomsAlive(n - 1);
      RandStaysAlive(Randoms(SEED, n - 1));
    }
  }

  /** Whatever value comes twice comes round from the seed: the first value to repeat is the seed itself. */
  lemma {:induction false} FirstRepeatIsSeed(m: nat, n: nat)
    requires m < n && Randoms(SEED, m) == Randoms(SEED, n)
    ensures Randoms(SEED, n - m) == SEED
  {
    if m > 0 {
      RandomsAlive(m - 1);
      RandomsAlive(n - 1);
      RandIsReversible(Randoms(SEED, m - 1));
      RandIsReversible(Randoms(SEED, n - 1));
      FirstRepeatIsSeed(m - 1, n - 1);
    }
  }

  // ---------- The draw

  datatype Entry = Entry(runnable: bool, tickets: int)

  ghost predicate Ticketed(table: seq<Entry>) {
    forall k | 0 <= k < |table| && table[k].runnable :: table[k].tickets >= 1
  }

  /** The tickets of the RUNNABLE processes among the first k. */
  function Sum(table: seq<Entry>, k: nat): int
    requires k <= |table|
  {
    if k == 0 then 0 else Sum(table, k - 1) + (if table[k - 1].runnable then table[k - 1].tickets else 0)
  }

  /** Process k is the first whose running sum reaches the winning number. */
  ghost predicate Wins(table: seq<Entry>, win: int, k: nat) {
    && k < |table| && table[k].runnable
    && win <= Sum(table, k + 1)
    && forall j: nat | j < k && table[j].runnable :: Sum(table, j) + table[j].tickets < win
  }

  /** gettotalTickets. */
  method GetTotalTickets(table: seq<Entry>) returns (sum: int)
    ensures sum == Sum(table, |table|)
  {
    sum := 0;
    var p := 0;
    while p < |table|
      invariant 0 <= p <= |table| && sum == Sum(table, p)
    {
      if table[p].runnable {
        sum := sum + table[p].tickets;
      }
      p := p + 1;
    }
  }

  /** The loop of scheduler: the process that the winning number selects, if any. */
  method Select(table: seq<Entry>, win: int) returns (r: Option<nat>)
    ensures r.Some? ==> Wins(table, win, r.value)
    ensures r == None ==> forall k: nat :: !Wins(table, win, k)
  {
    var cnt := 0;
    var p := 0;
    while p < |table|
      invariant 0 <= p <= |table| && cnt == Sum(table, p)
      invariant forall j: nat | j < p && table[j].runnable :: Sum(table, j) + table[j].tickets < win
    {
      if table[p].runnable {
        cnt := cnt + table[p].tickets;
        if win <= cnt {
          return Some(p);
        }
      }
      p := p + 1;
    }
    r := None;
    forall k: nat ensures !Wins(table, win, k) {
      assert k < |table| && table[k].runnable ==> Sum(table, k) + table[k].tickets < win;
    }
  }

  lemma {:induction false} SumMonotone(table: seq<Entry>, j: nat, k: nat)
    requires Ticketed(table) && j <= k <= |table|
    ensures 0 <= Sum(table, j) <= Sum(table, k)
    decreases k
  {
    if j < k {
      SumMonotone(table, j, k - 1);
    } else if j > 0 {
      SumMonotone(table, j - 1, j - 1);
    }
  }

  lemma {:induction false} WinnerWithin(table: seq<Entry>, win: int, k: nat) returns (i: nat)
    requires Ticketed(table) && k <= |table| && win <= Sum(table, k) && 0 < Sum(table, k)
    ensures i < k && Wins(table, win, i)
  {
    if k > 1 && win <= Sum(table, k - 1) && 0 < Sum(table, k - 1) {
      i := WinnerWithin(table, win, k - 1);
    } else {
      i := k - 1;
      SumMonotone(table, 0, k - 1);
      forall j: nat | j < i && table[j].runnable ensures Sum(table, j) + table[j].tickets < win {
        SumMonotone(table, 0, j);
        SumMonotone(table, j + 1, i);
      }
    }
  }

  /** The table later on, with nobody gone that was RUNNABLE. */
  ghost predicate Later(table: seq<Entry>, table': seq<Entry>) {
    && |table'| == |table|
    && forall k | 0 <= k < |table| && table[k].runnable :: table'[k] == table[k]
  }

  lemma {:induction false} LaterSum(table: seq<Entry>, table': seq<Entry>, k: nat)
    requires Later(table, table') && Ticketed(table') && k <= |table|
    ensures Sum(table, k) <= Sum(table', k)
  {
    if k > 0 {
      LaterSum(table, table', k - 1);
    }
  }

  /** A number drawn below the total selects exactly one process, RUNNABLE when it is selected, even if more have become
      RUNNABLE since the draw. */
  lemma DrawSelects(table: seq<Entry>, table': seq<Entry>, win: int) returns (k: nat)
    requires Ticketed(table) && Ticketed(table') && Later(table, table') && 0 <= win < Sum(table, |table|)
    ensures Wins(table', win, k)
    ensures forall j: nat :: Wins(table', win, j) ==> j == k
  {
    LaterSum(table, table', |table|);
    k := WinnerWithin(table', win, |table'|);
  }

  // ---------- How often each wins

  ghost predicate FirstRunnable(table: seq<Entry>, k: nat) {
    k < |table| && table[k].runnable && forall j | 0 <= j < k :: !table[j].runnable
  }

  ghost predicate LastRunnable(table: seq<Entry>, k: nat) {
    k < |table| && table[k].runnable && forall j | k < j < |table| :: !table[j].runnable
  }

  ghost function Draws(table: seq<Entry>, k: nat): set<int> {
    set w: int | 0 <= w < Sum(table, |table|) && Wins(table, w, k)
  }

  /** The numbers lo to hi - 1. */
  function Between(lo: int, hi: int): (s: set<int>)
    requires lo <= hi
    ensures |s| == hi - lo && forall w :: w in s <==> lo <= w < hi
    decreases hi - lo
  {
    if lo == hi then {} else Between(lo, hi - 1) + {hi - 1}
  }

  /** Of all the numbers that can be drawn, each process wins as many as it has tickets, but the first RUNNABLE process
      one more and the last one fewer: the loop compares with >, so 0 and the first running sum both go to the first. */
  lemma ExactShares(table: seq<Entry>, k: nat)
    requires Ticketed(table) && k < |table| && table[k].runnable
    ensures |Draws(table, k)| == table[k].tickets
                                 + (if FirstRunnable(table, k) then 1 else 0)
                                 - (if LastRunnable(table, k) then 1 else 0)
  {
    var lo, hi := DrawsBetween(table, k);
  }

  lemma DrawsBetween(table: seq<Entry>, k: nat) returns (lo: int, hi: int)
    requires Ticketed(table) && k < |table| && table[k].runnable
    ensures 0 <= lo <= hi <= Sum(table, |table|) && Draws(table, k) == Between(lo, hi)
    ensures hi - lo == table[k].tickets
                       + (if FirstRunnable(table, k) then 1 else 0) - (if LastRunnable(table, k) then 1 else 0)
  {
    lo := if FirstRunnable(table, k) then 0 else Sum(table, k) + 1;
    hi := if LastRunnable(table, k) then Sum(table, k + 1) else Sum(table, k + 1) + 1;
    FirstSum(table, k);
    LastSum(table, k);
    SumMonotone(table, 0, k);
    SumMonotone(table, k + 1, |table|);
    forall w: int ensures w in Draws(table, k) <==> lo <= w < hi {
      if 0 <= w {
        WinsWhen(table, k, w);
      }
    }
    assert Draws(table, k) == Between(lo, hi);
  }

  lemma WinsWhen(table: seq<Entry>, k: nat, w: int)
    requires Ticketed(table) && k < |table| && table[k].runnable && 0 <= w
    ensures Wins(table, w, k) <==> w <= Sum(table, k + 1) && (FirstRunnable(table, k) || Sum(table, k) < w)
  {
    forall j: nat | j < k && table[j].runnable ensures Sum(table, j) + table[j].tickets <= Sum(table, k) {
      SumMonotone(table, j + 1, k);
    }
    if Wins(table, w, k) && !FirstRunnable(table, k) {
      PreviousRunnable(table, k, w);
    }
  }

  lemma {:induction false} FirstSum(table: seq<Entry>, k: nat)
    requires Ticketed(table) && k <= |table|
    ensures Sum(table, k) == 0 <==> forall j | 0 <= j < k :: !table[j].runnable
  {
    if k > 0 {
      FirstSum(table, k - 1);
      SumMonotone(table, 0, k - 1);
    }
  }

  lemma {:induction false} PreviousRunnable(table: seq<Entry>, k: nat, w: int)
    requires Ticketed(table) && k <= |table| && exists j :: 0 <= j < k && table[j].runnable
    requires forall j: nat | j < k && table[j].runnable :: Sum(table, j) + table[j].tickets < w
    ensures Sum(table, k) < w
  {
    if !table[k - 1].runnable {
      PreviousRunnable(table, k - 1, w);
    }
  }

  lemma {:induction false} RestSum(table: seq<Entry>, k: nat, n: nat)
    requires Ticketed(table) && k <= n <= |table|
    ensures Sum(table, n) == Sum(table, k) <==> forall j | k <= j < n :: !table[j].runnable
    decreases n
  {
    if k < n {
      RestSum(table, k, n - 1);
      SumMonotone(table, k, n - 1);
    }
  }

  lemma LastSum(table: seq<Entry>, k: nat)
    requires Ticketed(table) && k < |table| && table[k].runnable
    ensures LastRunnable(table, k) <==> Sum(table, |table|) == Sum(table, k + 1)
  {
    RestSum(table, k + 1, |table|);
  }
}
