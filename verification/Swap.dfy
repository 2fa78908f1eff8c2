/** Demand swapping of one process: the paging metadata, page table entries, frames and swap file of the swapping vm.c.

    Addresses and file offsets are counted in pages: vpn is virtualAddr / PGSIZE, slot is offset_in_file / PGSIZE.  A
    pointer into pagingMetaData is an index, NIL is a null pointer, and the link fields of the entries are the two
    sequences next and prev. */
module Swap {
  import opened Blocks
  import opened Params

  const MAX_TOTAL_PAGES: nat := 30
  const MAX_PSYC_PAGES: nat := 15
  const NIL: int := -1

  type Page = p: seq<Byte> | |p| == 4096 witness seq(4096, i => 0)

  const ZERO_PAGE: Page := seq(4096, i => 0)
  const JUNK_PAGE: Page := seq(4096, i => 1)

  datatype PageState = NotUsed | PhysMemory | SwapFile

  datatype PageInfo = PageInfo(vpn: int, slot: int, state: PageState)

  datatype Pte = Pte(frame: nat, present: bool, pagedOut: bool, accessed: bool)

  const UNUSED: PageInfo := PageInfo(NIL, NIL, NotUsed)

  // ---- the list of resident pages ---------------------------------------------------------------------------

  /** head, next and prev hold the list order of metadata indices, and entries outside it have no links. */
  ghost predicate Listed(next: seq<int>, prev: seq<int>, head: int, order: seq<nat>) {
    && |next| == |prev| == MAX_TOTAL_PAGES
    && head == At(order, 0)
    && (forall k | 0 <= k < |order| :: order[k] < MAX_TOTAL_PAGES)
    && (forall j, k | 0 <= j < k < |order| :: order[j] != order[k])
    && (forall k | 0 <= k < |order| :: next[order[k]] == At(order, k + 1) && prev[order[k]] == At(order, k - 1))
    && (forall x: nat | x < MAX_TOTAL_PAGES && x !in order :: next[x] == NIL && prev[x] == NIL)
  }

  /** The k-th of the list, or NIL beyond its ends. */
  function At(order: seq<nat>, k: int): int {
    if 0 <= k < |order| then order[k] else NIL
  }

  function Without(order: seq<nat>, k: nat): seq<nat>
    requires k < |order|
  {
    order[..k] + order[k + 1..]
  }

  lemma LinksAt(next: seq<int>, prev: seq<int>, head: int, order: seq<nat>, k: nat)
    requires Listed(next, prev, head, order) && k < |order|
    ensures order[k] < MAX_TOTAL_PAGES == |next| == |prev|
    ensures next[order[k]] == At(order, k + 1) && prev[order[k]] == At(order, k - 1)
    ensures k + 1 < |order| ==> order[k + 1] < MAX_TOTAL_PAGES && order[k + 1] != order[k]
    ensures k > 0 ==> order[k - 1] < MAX_TOTAL_PAGES && order[k - 1] != order[k]
  {
  }

  /** The stores of updateListPointers. */
  function UnlinkNext(next: seq<int>, prev: seq<int>, x: nat): seq<int>
    requires x < |next| == |prev| && prev[x] < |next|
  {
    (if prev[x] >= 0 then next[prev[x] := next[x]] else next)[x := NIL]
  }

  function UnlinkPrev(next: seq<int>, prev: seq<int>, x: nat): seq<int>
    requires x < |next| == |prev| && next[x] < |next|
  {
    (if next[x] >= 0 then prev[next[x] := prev[x]] else prev)[x := NIL]
  }

  lemma Different(next: seq<int>, prev: seq<int>, head: int, order: seq<nat>, i: nat, j: nat)
    requires Listed(next, prev, head, order) && i < |order| && j < |order| && i != j
    ensures order[i] != order[j]
  {
    assert i < j ==> order[i] != order[j];
    assert j < i ==> order[j] != order[i];
  }

  lemma UnlinkedAt(next: seq<int>, prev: seq<int>, head: int, order: seq<nat>, k: nat, j: nat)
    requires Listed(next, prev, head, order) && k < |order| && j < |order| - 1
    requires order[k] < |next| == |prev| && next[order[k]] < |next| && prev[order[k]] < |next|
    ensures var r := Without(order, k);
            && r[j] < MAX_TOTAL_PAGES == |next| == |prev|
            && UnlinkNext(next, prev, order[k])[r[j]] == At(r, j + 1)
            && UnlinkPrev(next, prev, order[k])[r[j]] == At(r, j - 1)
  {
    hide Listed;
    var o := if j < k then j else j + 1;
    LinksAt(next, prev, head, order, k);
    LinksAt(next, prev, head, order, o);
    Different(next, prev, head, order, o, k);
    if k > 0 && o != k - 1 { Different(next, prev, head, order, o, k - 1); }
    if k + 1 < |order| && o != k + 1 { Different(next, prev, head, order, o, k + 1); }
  }

  lemma InWithout(order: seq<nat>, k: nat, y: nat)
    requires k < |order| && y in order && y != order[k]
    ensures y in Without(order, k)
  {
    var o :| 0 <= o < |order| && order[o] == y;
    assert Without(order, k)[if o < k then o else o - 1] == y;
  }

  /** What makes a list, entry by entry. */
  ghost predicate NodeOk(next: seq<int>, prev: seq<int>, order: seq<nat>, j: nat) {
    && j < |order| && order[j] < |next| == |prev|
    && next[order[j]] == At(order, j + 1) && prev[order[j]] == At(order, j - 1)
    && (forall i | 0 <= i < j :: order[i] != order[j])
  }

  lemma MakeListed(next: seq<int>, prev: seq<int>, order: seq<nat>)
    requires |next| == |prev| == MAX_TOTAL_PAGES
    requires forall j: nat | j < |order| :: NodeOk(next, prev, order, j)
    requires forall x: nat | x < |next| && x !in order :: next[x] == NIL && prev[x] == NIL
    ensures Listed(next, prev, At(order, 0), order)
  {
    forall j, k | 0 <= j < k < |order| ensures order[j] != order[k] {
      assert NodeOk(next, prev, order, k);
    }
    forall k | 0 <= k < |order|
      ensures order[k] < MAX_TOTAL_PAGES && next[order[k]] == At(order, k + 1) && prev[order[k]] == At(order, k - 1)
    {
      assert NodeOk(next, prev, order, k);
    }
  }

  lemma NoLinks(next: seq<int>, prev: seq<int>, head: int, order: seq<nat>, y: nat)
    requires Listed(next, prev, head, order) && y < MAX_TOTAL_PAGES && y !in order
    ensures y < |next| == |prev| && next[y] == NIL && prev[y] == NIL
    ensures forall k | 0 <= k < |order| :: order[k] != y
    ensures head == At(order, 0)
  {
  }

  lemma WithoutNodeOk(next: seq<int>, prev: seq<int>, head: int, order: seq<nat>, k: nat, j: nat)
    requires Listed(next, prev, head, order) && k < |order| && j < |order| - 1
    requires order[k] < |next| == |prev| && next[order[k]] < |next| && prev[order[k]] < |next|
    ensures NodeOk(UnlinkNext(next, prev, order[k]), UnlinkPrev(next, prev, order[k]), Without(order, k), j)
  {
    hide Listed, At, UnlinkNext, UnlinkPrev;
    UnlinkedAt(next, prev, head, order, k, j);
    UnlinkSizes(next, prev, order[k]);
    var o := if j < k then j else j + 1;
    forall i | 0 <= i < j ensures Without(order, k)[i] != Without(order, k)[j] {
      var q := if i < k then i else i + 1;
      Different(next, prev, head, order, q, o);
    }
  }

  lemma UnlinkSizes(next: seq<int>, prev: seq<int>, x: nat)
    requires x < |next| == |prev| && next[x] < |next| && prev[x] < |next|
    ensures |UnlinkNext(next, prev, x)| == |next| && |UnlinkPrev(next, prev, x)| == |next|
    ensures UnlinkNext(next, prev, x)[x] == NIL && UnlinkPrev(next, prev, x)[x] == NIL
    ensures forall y | 0 <= y < |next| && y != x && y != prev[x] :: UnlinkNext(next, prev, x)[y] == next[y]
    ensures forall y | 0 <= y < |next| && y != x && y != next[x] :: UnlinkPrev(next, prev, x)[y] == prev[y]
  {
  }

  lemma Unlinked(next: seq<int>, prev: seq<int>, head: int, order: seq<nat>, k: nat)
    requires Listed(next, prev, head, order) && k < |order|
    requires order[k] < |next| == |prev| && next[order[k]] < |next| && prev[order[k]] < |next|
    ensures Listed(UnlinkNext(next, prev, order[k]), UnlinkPrev(next, prev, order[k]),
                   At(Without(order, k), 0), Without(order, k))
  {
    hide Listed, NodeOk, UnlinkNext, UnlinkPrev;
    var x := order[k];
    LinksAt(next, prev, head, order, k);
    UnlinkSizes(next, prev, x);
    var r := Without(order, k);
    var next', prev' := UnlinkNext(next, prev, x), UnlinkPrev(next, prev, x);
    forall j: nat | j < |r| ensures NodeOk(next', prev', r, j) {
      WithoutNodeOk(next, prev, head, order, k, j);
    }
    forall y: nat | y < |next| && y !in r ensures next'[y] == NIL && prev'[y] == NIL {
      if y in order && y != x {
        InWithout(order, k, y);
      } else if y != x {
        NoLinks(next, prev, head, order, y);
      }
    }
    MakeListed(next', prev', r);
  }

  /** Appending behind the last entry. */
  lemma Appended(next: seq<int>, prev: seq<int>, head: int, order: seq<nat>, x: nat)
    requires Listed(next, prev, head, order) && order != [] && x < MAX_TOTAL_PAGES && x !in order
    ensures var tail := order[|order| - 1];
            && tail < MAX_TOTAL_PAGES == |next| == |prev|
            && Listed(next[tail := x][x := NIL], prev[x := tail], head, order + [x])
  {
    hide Listed;
    var tail := order[|order| - 1];
    var r := order + [x];
    NoLinks(next, prev, head, order, x);
    LinksAt(next, prev, head, order, |order| - 1);
    var next', prev' := next[tail := x][x := NIL], prev[x := tail];
    forall j: nat | j < |r| ensures NodeOk(next', prev', r, j) {
      if j < |order| {
        LinksAt(next, prev, head, order, j);
        if j < |order| - 1 { Different(next, prev, head, order, j, |order| - 1); }
        forall i | 0 <= i < j ensures r[i] != r[j] { Different(next, prev, head, order, i, j); }
      }
    }
    forall y: nat | y < |next| && y !in r ensures next'[y] == NIL && prev'[y] == NIL {
      assert y !in order && y != x;
      NoLinks(next, prev, head, order, y);
    }
    assert r[0] == order[0];
    MakeListed(next', prev', r);
  }

  lemma HeadAt(next: seq<int>, prev: seq<int>, head: int, order: seq<nat>)
    requires Listed(next, prev, head, order)
    ensures head == At(order, 0)
  {
  }

  lemma FirstListed(next: seq<int>, prev: seq<int>, x: nat)
    requires Listed(next, prev, NIL, []) && x < MAX_TOTAL_PAGES
    ensures Listed(next[x := NIL], prev, x, [x])
  {
  }

  // ---- pages --------------------------------------------------------------------------------------------------

  /** Entry i tracks page i for the n pages of the process; the pages of order are in memory, and the slots of the swap
      file hold the pages of slots, one to one. */
  ghost predicate Tracked(meta: seq<PageInfo>, order: seq<nat>, slots: seq<nat>, n: nat) {
    && |meta| == MAX_TOTAL_PAGES && n <= MAX_TOTAL_PAGES
    && |order| + |slots| == n
    && (forall i: nat | i < MAX_TOTAL_PAGES :: EntryOk(meta, order, slots, n, i))
    && (forall k | 0 <= k < |order| :: order[k] < n && meta[order[k]].state == PhysMemory)
    && (forall k | 0 <= k < |slots| :: slots[k] < n && meta[slots[k]].state == SwapFile && meta[slots[k]].slot == k)
  }

  ghost predicate EntryOk(meta: seq<PageInfo>, order: seq<nat>, slots: seq<nat>, n: nat, i: nat) {
    && i < |meta|
    && if i < n then
         && meta[i].vpn == i
         && match meta[i].state {
              case PhysMemory => i in order && meta[i].slot == NIL
              case SwapFile => 0 <= meta[i].slot < |slots| && slots[meta[i].slot] == i
              case NotUsed => false
            }
       else
         meta[i] == UNUSED
  }

  /** A page in memory is mapped to a frame of its own that holds its bytes; a swapped one has them in its slot.  PTE_P
      and PTE_PG say which. */
  ghost predicate Backed(meta: seq<PageInfo>, pte: map<nat, Pte>, mem: map<nat, Page>, free: seq<nat>,
                         swap: map<nat, Page>, flat: seq<Page>) {
    && |flat| <= |meta|
    && (forall i: nat :: i in pte <==> i < |flat|)
    && (forall i | 0 <= i < |flat| :: PageOk(meta[i], pte[i], mem, free, swap, flat[i]))
    && (forall i, j | 0 <= i < j < |flat| && meta[i].state == PhysMemory && meta[j].state == PhysMemory ::
          pte[i].frame != pte[j].frame)
    && FreeOk(mem, free)
  }

  ghost predicate PageOk(m: PageInfo, e: Pte, mem: map<nat, Page>, free: seq<nat>, swap: map<nat, Page>, page: Page) {
    match m.state
    case PhysMemory => e.present && !e.pagedOut && e.frame in mem && e.frame !in free && mem[e.frame] == page
    case SwapFile => !e.present && e.pagedOut && m.slot >= 0 && m.slot in swap && swap[m.slot] == page
    case NotUsed => false
  }

  ghost predicate FreeOk(mem: map<nat, Page>, free: seq<nat>) {
    && (forall a, b | 0 <= a < b < |free| :: free[a] != free[b])
    && (forall f | f in free :: f in mem)
  }

  class Proc {
    var meta: seq<PageInfo>
    var next: seq<int>
    var prev: seq<int>
    var head: int
    var numInFile: nat
    var numInMemory: nat
    var pte: map<nat, Pte>
    var mem: map<nat, Page>
    var free: seq<nat>
    var swap: map<nat, Page>
    ghost var order: seq<nat>
    ghost var slots: seq<nat>
    /** The memory the process believes it has. */
    ghost var flat: seq<Page>

    ghost predicate Valid()
      reads this
    {
      && Listed(next, prev, head, order)
      && Tracked(meta, order, slots, |flat|)
      && Backed(meta, pte, mem, free, swap, flat)
      && numInMemory == |order| <= MAX_PSYC_PAGES && numInFile == |slots|
      && (if slots == [] then order == Count(0, |flat|) else |order| == MAX_PSYC_PAGES)
    }

    /** ResetProcPagesData, with a stock of free frames. */
    constructor (frames: map<nat, Page>, list: seq<nat>)
      requires FreeOk(frames, list)
      ensures Valid() && flat == [] && free == list
    {
      meta := seq(MAX_TOTAL_PAGES, i => UNUSED);
      next, prev := seq(MAX_TOTAL_PAGES, i => NIL), seq(MAX_TOTAL_PAGES, i => NIL);
      head, numInFile, numInMemory := NIL, 0, 0;
      pte, mem, free, swap := map[], frames, list, map[];
      order, slots, flat := [], [], [];
    }

    method ChoosePageFromPhysMem() returns (x: int)
      requires Listed(next, prev, head, order)
      ensures x == if order == [] then NIL else order[0]
    {
      x := head;
    }

    /** updateListPointers: take an entry out of the list. */
    method UpdateListPointers(x: nat, ghost k: nat)
      requires Listed(next, prev, head, order) && k < |order| && order[k] == x
      modifies this`next, this`prev, this`head, this`order
      ensures order == Without(old(order), k) && Listed(next, prev, head, order)
    {
      hide Listed;
      LinksAt(next, prev, head, order, k);
      Unlinked(next, prev, head, order, k);
      HeadAt(next, prev, head, order);
      if prev[x] != NIL {
        var previous := prev[x];
        next := next[previous := next[x]];
        if next[x] != NIL {
          prev := prev[next[x] := previous];
        }
      } else {
        head := next[x];
        if next[x] != NIL {
          prev := prev[next[x] := NIL];
        }
      }
      prev := prev[x := NIL];
      next := next[x := NIL];
      order := Without(order, k);
    }

    /** The tail search of AddNewPageToPhysicalMemory and FileToMemory. */
    method FindTail() returns (tail: nat)
      requires Listed(next, prev, head, order) && order != []
      ensures tail == order[|order| - 1]
    {
      tail := head;
      ghost var k := 0;
      while next[tail] != NIL
        invariant 0 <= k < |order| && tail == order[k]
        decreases |order| - k
      {
        LinksAt(next, prev, head, order, k);
        tail := next[tail];
        k := k + 1;
      }
      LinksAt(next, prev, head, order, k);
    }

    /** Hang an entry behind the tail of the list. */
    method AppendEntry(x: nat)
      requires Listed(next, prev, head, order) && order != [] && x < MAX_TOTAL_PAGES && x !in order
      modifies this`next, this`prev, this`order
      ensures Listed(next, prev, head, order) && order == old(order) + [x]
    {
      hide Listed;
      Appended(next, prev, head, order, x);
      var tail := FindTail();
      next := next[tail := x];
      prev := prev[x := tail];
      next := next[x := NIL];
      order := order + [x];
    }

    /** WritePageToFile: the page goes to the slot it has, or to the next one. */
    method WritePageToFile(x: nat)
      requires x < |meta| && x in pte && pte[x].frame in mem && meta[x].vpn == x
      modifies this`meta, this`swap, this`numInFile
      ensures var s := if old(meta)[x].slot > NIL then old(meta)[x].slot else old(numInFile);
              && s >= 0
              && swap == old(swap)[s := mem[pte[x].frame]]
              && meta == old(meta)[x := old(meta)[x].(slot := s, state := SwapFile)]
      ensures numInFile == old(numInFile) + 1
    {
      var contents := mem[pte[meta[x].vpn].frame];
      if meta[x].slot > NIL {
        swap := swap[meta[x].slot := contents];
      } else {
        swap := swap[numInFile := contents];
        meta := meta[x := meta[x].(slot := numInFile)];
      }
      meta := meta[x := meta[x].(state := SwapFile)];
      numInFile := numInFile + 1;
    }

    /** MemoryToSwapFile: write a resident page out, unlink it, and free its frame, now filled with junk. */
    method MemoryToSwapFile(x: nat, ghost k: nat)
      requires Listed(next, prev, head, order) && k < |order| && order[k] == x
      requires x < |meta| && x in pte && pte[x].frame in mem && meta[x].vpn == x && numInMemory > 0
      modifies this`meta, this`swap, this`numInFile, this`next, this`prev, this`head, this`order, this`pte, this`mem,
        this`free, this`numInMemory
      ensures Listed(next, prev, head, order) && order == Without(old(order), k)
      ensures var s := if old(meta)[x].slot > NIL then old(meta)[x].slot else old(numInFile);
              var f := old(pte)[x].frame;
              && s >= 0
              && swap == old(swap)[s := old(mem)[f]]
              && meta == old(meta)[x := old(meta)[x].(slot := s, state := SwapFile)]
              && pte == old(pte)[x := Pte(f, false, true, false)]
              && mem == old(mem)[f := JUNK_PAGE] && free == [f] + old(free)
      ensures numInFile == old(numInFile) + 1 && numInMemory == old(numInMemory) - 1
    {
      hide Listed;
      WritePageToFile(x);
      UpdateListPointers(x, k);
      Unmap(x);
      numInMemory := numInMemory - 1;
    }

    /** clear_present, set_pagedout, clear_PTE_A, and kfree of the frame. */
    method Unmap(x: nat)
      requires x in pte && pte[x].frame in mem
      modifies this`pte, this`mem, this`free
      ensures var f := old(pte)[x].frame;
              && pte == old(pte)[x := Pte(f, false, true, false)]
              && mem == old(mem)[f := JUNK_PAGE] && free == [f] + old(free)
    {
      pte := pte[x := pte[x].(present := false)];
      pte := pte[x := pte[x].(pagedOut := true)];
      pte := pte[x := pte[x].(accessed := false)];
      var f := pte[x].frame;
      mem := mem[f := JUNK_PAGE];
      free := [f] + free;
    }

    /** FileToMemory: a new frame takes a page from its slot, and the page goes to the end of the list. */
    method FileToMemory(x: nat)
      requires Listed(next, prev, head, order) && order != [] && x !in order && x < |meta| == MAX_TOTAL_PAGES
      requires free != [] && meta[x].vpn == x && meta[x].slot >= 0 && meta[x].slot in swap && numInFile > 0
      requires x in pte && !pte[x].present
      modifies this`meta, this`numInFile, this`next, this`prev, this`order, this`pte, this`mem, this`free,
        this`numInMemory
      ensures Listed(next, prev, head, order) && order == old(order) + [x]
      ensures var f := old(free)[0];
              && meta == old(meta)[x := old(meta)[x].(slot := NIL, state := PhysMemory)]
              && pte == old(pte)[x := Pte(f, true, false, false)]
              && mem == old(mem)[f := swap[old(meta)[x].slot]] && free == old(free)[1..]
      ensures numInFile == old(numInFile) - 1 && numInMemory == old(numInMemory) + 1
    {
      hide Listed;
      var slot := meta[x].slot;
      var f := free[0];
      free := free[1..];
      pte := pte[x := Pte(f, true, false, false)];
      mem := mem[f := swap[slot]];
      pte := pte[x := pte[x].(pagedOut := false)];
      pte := pte[x := pte[x].(present := true)];
      numInMemory := numInMemory + 1;
      meta := meta[x := meta[x].(slot := NIL)];
      meta := meta[x := meta[x].(state := PhysMemory)];
      numInFile := numInFile - 1;
      AppendEntry(x);
    }

    /** AddNewPageToPhysicalMemory and InitNewPhyPage.  False means that no entry was free, and that the C code goes on
        to write behind the end of pagingMetaData. */
    method AddNewPage(vpn: nat, ghost n: nat) returns (ok: bool)
      requires Listed(next, prev, head, order) && Tracked(meta, order, slots, n) && vpn == n && (order == [] ==> n == 0)
      modifies this`meta, this`next, this`prev, this`head, this`order, this`numInMemory
      ensures ok <==> n < MAX_TOTAL_PAGES
      ensures ok ==>
                && Listed(next, prev, head, order) && order == old(order) + [n]
                && meta == old(meta)[n := PageInfo(n, NIL, PhysMemory)]
                && numInMemory == old(numInMemory) + 1
    {
      hide Listed;
      var x := 0;
      HeadAt(next, prev, head, order);
      HeadNil(next, prev, head, order);
      if head == NIL {
        FirstListed(next, prev, 0);
        head := 0;
        next := next[0 := NIL];
        order := [0];
      } else {
        while x < MAX_TOTAL_PAGES && meta[x].vpn != vpn
          invariant 0 <= x <= MAX_TOTAL_PAGES
        {
          x := x + 1;
        }
        assert x < MAX_TOTAL_PAGES ==> EntryOk(meta, order, slots, n, x);
        if x == MAX_TOTAL_PAGES {
          x := 0;
          while x < MAX_TOTAL_PAGES && meta[x].state != NotUsed
            invariant 0 <= x <= MAX_TOTAL_PAGES
            invariant x <= n
          {
            assert EntryOk(meta, order, slots, n, x);
            x := x + 1;
          }
        }
        assert x < MAX_TOTAL_PAGES ==> EntryOk(meta, order, slots, n, x);
        assert x == n;
        if x == MAX_TOTAL_PAGES {
          return false;
        }
        NotListedYet(meta, order, slots, n);
        AppendEntry(x);
      }
      meta := meta[x := PageInfo(vpn, NIL, PhysMemory)];
      numInMemory := numInMemory + 1;
      ok := true;
    }

    /** One round of the loop of allocuvm for a process with pid > 2: a fresh zeroed page at the end of the process.
        With MAX_PSYC_PAGES pages resident the oldest goes to the swap file first, also when the limit is reported. */
    method GrowOne(a: nat) returns (r: RoundEnd)
      requires Valid() && a == |flat|
      modifies this
      ensures r == NoFrame <==> old(free) == [] && |old(order)| < MAX_PSYC_PAGES
      ensures r == NoFrame ==> Valid() && slots == [] && flat == old(flat) && free == old(free) && order == old(order)
      ensures r == NoEntry <==> |old(flat)| == MAX_TOTAL_PAGES
      ensures r == Added ==>
                && Valid()
                && flat == old(flat) + [ZERO_PAGE]
                && order == (if |old(order)| == MAX_PSYC_PAGES then old(order)[1..] else old(order)) + [|old(flat)|]
                && |free| + |order| == |old(free)| + |old(order)|
    {
      hide Listed, Tracked, Backed;
      TrackedCount(meta, order, slots, |flat|);
      if numInMemory == MAX_PSYC_PAGES {
        SwapOutOldest();
      }
      if free == [] {
        return NoFrame;
      }
      NextCount(|flat|);
      var ok := AddZeroPage(a);
      r := if ok then Added else NoEntry;
    }

    /** kalloc, memset, mappages and AddNewPageToPhysicalMemory in allocuvm. */
    method AddZeroPage(a: nat) returns (ok: bool)
      requires Listed(next, prev, head, order) && Tracked(meta, order, slots, |flat|)
      requires Backed(meta, pte, mem, free, swap, flat) && numInMemory == |order| && numInFile == |slots|
      requires free != [] && (order == [] ==> flat == []) && a == |flat|
      modifies this
      ensures ok <==> |old(flat)| < MAX_TOTAL_PAGES
      ensures ok ==>
                && Listed(next, prev, head, order) && Tracked(meta, order, slots, |flat|)
                && Backed(meta, pte, mem, free, swap, flat) && numInMemory == |order| && numInFile == |slots|
                && flat == old(flat) + [ZERO_PAGE] && order == old(order) + [|old(flat)|] && slots == old(slots)
                && |free| == |old(free)| - 1
    {
      hide Listed, Tracked, Backed;
      ghost var n, meta0, pte0, mem0, free0 := |flat|, meta, pte, mem, free;
      TrackedCount(meta, order, slots, n);
      var f := free[0];
      free := free[1..];
      mem := mem[f := ZERO_PAGE];
      pte := pte[a := Pte(f, true, false, false)];
      ok := AddNewPage(a, n);
      if ok {
        AddTracked(meta0, order[..|order| - 1], slots, n);
        AddBacked(meta0, pte0, mem0, free0, swap, flat);
        flat := flat + [ZERO_PAGE];
      }
    }

    /** choosePageFromPhysMem and MemoryToSwapFile in allocuvm. */
    method SwapOutOldest()
      requires Valid() && |order| == MAX_PSYC_PAGES
      modifies this
      ensures Listed(next, prev, head, order) && Tracked(meta, order, slots, |flat|)
      ensures Backed(meta, pte, mem, free, swap, flat)
      ensures numInMemory == |order| && numInFile == |slots|
      ensures order == old(order)[1..] && slots == old(slots) + [old(order)[0]] && flat == old(flat)
      ensures |free| == |old(free)| + 1
    {
      hide Listed, Tracked, Backed;
      var x := ChoosePageFromPhysMem();
      ghost var meta0, pte0, mem0, free0, swap0 := meta, pte, mem, free, swap;
      ResidentFacts(meta, order, slots, pte, mem, free, swap, flat, 0);
      SwapOutTracked(meta, next, prev, head, order, slots, |flat|);
      HeadAt(next, prev, head, order);
      MemoryToSwapFile(x, 0);
      SwapOutBacked(meta0, old(order), slots, pte0, mem0, free0, swap0, flat);
      slots := slots + [x];
    }

    /** DeletePage, with no page in the swap file. */
    method DeletePage(x: nat, ghost k: nat)
      requires Listed(next, prev, head, order) && k < |order| && order[k] == x && x < |meta|
      requires numInMemory > 0 && numInFile == 0
      modifies this`meta, this`next, this`prev, this`head, this`order, this`numInMemory
      ensures Listed(next, prev, head, order) && order == Without(old(order), k)
      ensures meta == old(meta)[x := UNUSED] && numInMemory == old(numInMemory) - 1
    {
      hide Listed;
      numInMemory := numInMemory - 1;
      meta := meta[x := meta[x].(vpn := NIL)];
      meta := meta[x := meta[x].(state := NotUsed)];
      meta := meta[x := meta[x].(slot := NIL)];
      UpdateListPointers(x, k);
    }

    /** The body of the loop of deallocuvm, for a resident page. */
    method FreePage(a: nat, ghost lo: nat, ghost flat0: seq<Page>)
      requires Listed(next, prev, head, order) && Shrinking(meta, order, pte, mem, free, flat0, lo, a)
      requires lo <= a < |flat0|
      requires numInMemory == |order| && numInFile == 0
      modifies this`meta, this`next, this`prev, this`head, this`order, this`numInMemory, this`pte, this`mem, this`free
      ensures Listed(next, prev, head, order) && Shrinking(meta, order, pte, mem, free, flat0, lo, a + 1)
      ensures numInMemory == |order| == |old(order)| - 1 && |free| == |old(free)| + 1
    {
      hide Listed;
      ShrinkNext(meta, order, pte, mem, free, flat0, lo, a);
      var f := pte[a].frame;
      mem := mem[f := JUNK_PAGE];
      free := [f] + free;
      pte := pte - {a};
      var x := 0;
      while x < MAX_TOTAL_PAGES && meta[x].vpn != a
        invariant x <= a
      {
        x := x + 1;
      }
      DeletePage(x, lo);
    }

    /** deallocuvm as a failed allocuvm calls it, which has not swapped anything out: the pages from lo on go. */
    method FreePages(lo: nat, hi: nat)
      requires Valid() && slots == [] && lo <= |flat| <= hi
      modifies this
      ensures Valid() && flat == old(flat)[..lo] && |free| + |order| == |old(free)| + |old(order)|
    {
      hide Listed, Tracked, Backed, Shrinking;
      ghost var flat0 := flat;
      ShrinkStart(meta, order, pte, mem, free, swap, flat, lo);
      var a := lo;
      while a < hi
        invariant lo <= a <= hi && slots == [] && numInFile == 0 && numInMemory == |order|
        invariant Listed(next, prev, head, order)
        invariant Shrinking(meta, order, pte, mem, free, flat0, lo, if a < |flat0| then a else |flat0|)
        invariant |free| + |order| == |old(free)| + |old(order)|
      {
        ShrinkPte(meta, order, pte, mem, free, flat0, lo, if a < |flat0| then a else |flat0|, a);
        if a in pte && pte[a].present {
          FreePage(a, lo, flat0);
        }
        a := a + 1;
      }
      ShrinkEnd(meta, order, pte, mem, free, swap, flat0, lo);
      flat := flat0[..lo];
    }

    /** allocuvm: grow from oldsz to newsz bytes.  Pages already there keep their bytes, the new ones read as zeros.
        Without the frames for up to MAX_PSYC_PAGES pages it fails and takes back what it has added.  Otherwise the
        process gets past the end of its metadata exactly when it asks for more than MAX_TOTAL_PAGES pages. */
    method Allocuvm(oldsz: nat, newsz: nat) returns (r: GrowResult)
      requires Valid() && oldsz <= |flat| * PGSIZE < oldsz + PGSIZE
      modifies this
      ensures r == Size(newsz) && newsz > oldsz ==> newsz <= |flat| * PGSIZE < newsz + PGSIZE
      ensures r == Overran <==>
                && oldsz <= newsz < KERNBASE && Pages(newsz) > MAX_TOTAL_PAGES && Pages(newsz) > Pages(oldsz)
                && |old(free)| + |old(order)| >= MAX_PSYC_PAGES
      ensures r != Overran ==> Valid() && |free| + |order| == |old(free)| + |old(order)|
      ensures newsz >= KERNBASE ==> r == Size(0) && flat == old(flat)
      ensures newsz < KERNBASE && newsz < oldsz ==> r == Size(oldsz) && flat == old(flat)
      ensures oldsz <= newsz < KERNBASE && r != Overran ==>
                if Pages(newsz) > Pages(oldsz) && |old(free)| + |old(order)| < Min(Pages(newsz), MAX_PSYC_PAGES)
                then r == Size(0) && flat == old(flat)
                else r == Size(newsz) && flat == old(flat) + Zeros(Pages(newsz) - Pages(oldsz))
    {
      hide Listed, Tracked, Backed, Count, Pages, Zeros;
      PagesCover(oldsz, |flat|);
      if newsz >= KERNBASE {
        return Size(0);
      }
      if newsz < oldsz {
        return Size(oldsz);
      }
      ghost var flat0, n0, frames := flat, |flat|, |free| + |order|;
      PagesOrder(oldsz, newsz);
      ResidentCount(this);
      NoZeros(flat);
      var a := Pages(oldsz) * PGSIZE;
      while a < newsz
        invariant Valid() && a == |flat| * PGSIZE && |free| + |order| == frames
        invariant n0 <= |flat| && (|flat| > n0 ==> |flat| <= Pages(newsz) && frames >= Min(|flat|, MAX_PSYC_PAGES))
        invariant |flat| > n0 ==> |flat| <= MAX_TOTAL_PAGES
        invariant flat == flat0 + Zeros(|flat| - n0)
      {
        ghost var k := |flat| - n0;
        PagesLess(newsz, |flat|);
        ResidentCount(this);
        var e := GrowOne(a / PGSIZE);
        if e == NoEntry {
          return Overran;
        }
        if e == NoFrame {
          FreePages(Pages(oldsz), Pages(newsz));
          return Size(0);
        }
        OneMoreZero(flat0, k);
        a := a + PGSIZE;
      }
      PagesLess(newsz, |flat|);
      PagesCover(newsz, |flat|);
      r := Size(newsz);
    }

    /** The page fault of a process with pid > 2: SwapPages if the page is in the swap file.  Afterwards the page is in
        memory, as the newest one; the oldest has taken its slot; and the bytes are all as they were.  hasTable tells
        whether there is a page table for the page.  If not, the null pointer that walkpgdir returns is read, at address
        0 of the process itself, which faults in turn when page 0 is in the swap file; whatever is read, the process is
        killed, since SwapPages finds no such page. */
    method Fault(vpn: nat, hasTable: bool) returns (r: FaultResult)
      requires Valid() && (vpn in pte ==> hasTable) && (!hasTable ==> flat != [])
      modifies this
      ensures r == OutOfMemory <==> (vpn in old(slots) || (!hasTable && 0 in old(slots))) && old(free) == []
      ensures r != OutOfMemory ==> Valid() && flat == old(flat) && (r == Killed <==> vpn !in old(slots))
      ensures r == Killed && (hasTable || 0 !in old(slots)) ==>
                order == old(order) && slots == old(slots) && free == old(free)
      ensures r == Resumed || (r == Killed && !hasTable && 0 in old(slots)) ==>
                var x := if r == Resumed then vpn else 0;
                && order == old(order)[1..] + [x] && x in pte && pte[x].present
                && |slots| == |old(slots)| && old(order)[0] in slots
                && |free| == |old(free)|
    {
      hide Listed, Tracked, Backed;
      FaultFacts(meta, order, slots, pte, mem, free, swap, flat, vpn);
      if !hasTable {
        FaultFacts(meta, order, slots, pte, mem, free, swap, flat, 0);
        if 0 in pte && pte[0].pagedOut {
          if free == [] {
            return OutOfMemory;
          }
          SwapPages(0);
        }
        return Killed;
      }
      if vpn !in pte || !pte[vpn].pagedOut {
        return Killed;
      }
      if free == [] {
        return OutOfMemory;
      }
      SwapPages(vpn);
      r := Resumed;
    }

    /** The exchange in SwapPages: page x comes in from its slot, and the oldest page v goes out to that slot. */
    method Exchange(x: nat, v: nat)
      requires Listed(next, prev, head, order) && order != [] && order[0] == v && x !in order && x != v
      requires x < |meta| == MAX_TOTAL_PAGES && v < |meta| && meta[x].vpn == x && meta[v].vpn == v
      requires free != [] && meta[x].slot >= 0 && meta[x].slot in swap && numInFile > 0
      requires x in pte && !pte[x].present && v in pte && pte[v].frame in mem && pte[v].frame != free[0]
      modifies this`meta, this`swap, this`numInFile, this`next, this`prev, this`head, this`order, this`pte, this`mem,
        this`free, this`numInMemory
      ensures Listed(next, prev, head, order) && order == Without(old(order) + [x], 0)
      ensures var f, g, k := old(free)[0], old(pte)[v].frame, old(meta)[x].slot;
              && meta == Swapped(old(meta), v, x)
              && pte == old(pte)[x := Pte(f, true, false, true)][v := Pte(g, false, true, false)]
              && mem == old(mem)[f := old(swap)[k]][g := JUNK_PAGE]
              && free == [g] + old(free)[1..] && swap == old(swap)[k := old(mem)[g]]
      ensures numInFile == old(numInFile) && numInMemory == old(numInMemory)
    {
      hide Listed;
      meta := meta[v := meta[v].(slot := meta[x].slot)];
      FileToMemory(x);
      MemoryToSwapFile(v, 0);
      pte := pte[x := pte[x].(accessed := true)];
    }

    /** SwapPages: the victim inherits the slot of the page that comes in. */
    method SwapPages(vpn: nat)
      requires Valid() && vpn in slots && free != []
      modifies this
      ensures Valid() && flat == old(flat)
      ensures order == old(order)[1..] + [vpn] && vpn in pte && pte[vpn].present
      ensures |slots| == |old(slots)| && old(order)[0] in slots && |free| == |old(free)|
    {
      hide Listed, Tracked, Backed, Swapped;
      FaultFacts(meta, order, slots, pte, mem, free, swap, flat, vpn);
      ResidentFacts(meta, order, slots, pte, mem, free, swap, flat, 0);
      HeadAt(next, prev, head, order);
      FaultTracked(meta, next, prev, head, order, slots, |flat|, vpn);
      SlotsApart(meta, order, slots, |flat|, vpn);
      FaultBacked(meta, slots, pte, mem, free, swap, flat, order[0], vpn);
      var v := ChoosePageFromPhysMem();
      var x := FindPage(vpn);
      ghost var k := meta[x].slot;
      Exchange(x, v);
      slots := slots[k := v];
    }

    /** The search of SwapPages through the metadata. */
    method FindPage(vpn: nat) returns (x: nat)
      requires Tracked(meta, order, slots, |flat|) && vpn < |flat|
      ensures x == vpn < |meta|
    {
      x := 0;
      while x < MAX_TOTAL_PAGES && meta[x].vpn != vpn
        invariant x <= vpn
      {
        assert EntryOk(meta, order, slots, |flat|, vpn);
        x := x + 1;
      }
      assert x < MAX_TOTAL_PAGES ==> EntryOk(meta, order, slots, |flat|, x);
      assert EntryOk(meta, order, slots, |flat|, vpn);
    }

    /** A load by the process, with the fault it may take on the way. */
    method Load(vpn: nat, hasTable: bool) returns (r: FaultResult, page: Page)
      requires Valid() && (vpn in pte ==> hasTable) && (!hasTable ==> flat != [])
      modifies this
      ensures r == OutOfMemory ==> old(free) == []
      ensures r != OutOfMemory ==> Valid() && flat == old(flat) && |free| == |old(free)|
      ensures r == Resumed ==> vpn < |flat| && page == flat[vpn]
      ensures r == Killed ==> vpn >= |flat|
    {
      hide Listed, Tracked, Backed;
      page := ZERO_PAGE;
      r := Resumed;
      OnePlace(this, vpn);
      if vpn !in pte || !pte[vpn].present {
        r := Fault(vpn, hasTable);
      }
      if r == Resumed {
        OnePlace(this, vpn);
        page := mem[pte[vpn].frame];
      }
    }

    /** A store by the process. */
    method Store(vpn: nat, page: Page, hasTable: bool) returns (r: FaultResult)
      requires Valid() && (vpn in pte ==> hasTable) && (!hasTable ==> flat != [])
      modifies this
      ensures r == OutOfMemory ==> old(free) == []
      ensures r != OutOfMemory ==> Valid() && |free| == |old(free)|
      ensures r == Resumed ==> vpn < |old(flat)| && flat == old(flat)[vpn := page]
      ensures r == Killed ==> vpn >= |old(flat)| && flat == old(flat)
    {
      hide Listed, Tracked, Backed;
      r := Resumed;
      OnePlace(this, vpn);
      if vpn !in pte || !pte[vpn].present {
        r := Fault(vpn, hasTable);
      }
      if r == Resumed {
        OnePlace(this, vpn);
        StoreBacked(this, vpn, page);
        mem := mem[pte[vpn].frame := page];
        flat := flat[vpn := page];
      }
    }

    /** A process that has grown to newsz bytes can use every address below newsz; the new ones read as zero. */
    method GrowThenLoad(oldsz: nat, newsz: nat, a: nat) returns (g: GrowResult, r: FaultResult, page: Page)
      requires Valid() && oldsz <= |flat| * PGSIZE < oldsz + PGSIZE && oldsz <= newsz && a < newsz
      modifies this
      ensures g == Size(newsz) ==> r != Killed && (|old(free)| + |old(order)| > MAX_PSYC_PAGES ==> r == Resumed)
      ensures g == Size(newsz) && r == Resumed && a / PGSIZE < |old(flat)| ==> page == old(flat)[a / PGSIZE]
      ensures g == Size(newsz) && r == Resumed && a / PGSIZE >= |old(flat)| ==> page[a % PGSIZE] == 0
    {
      hide Listed, Tracked, Backed, Pages, Proc.Valid;
      PagesCover(oldsz, |flat|);
      PagesCover(newsz, Pages(newsz));
      PagesOrder(oldsz, newsz);
      r, page := Resumed, ZERO_PAGE;
      g := Allocuvm(oldsz, newsz);
      if g == Size(newsz) && newsz > 0 {
        Below(a, newsz, |flat|);
        AtMostResident(this);
        NewIsZero(old(flat), flat, a / PGSIZE, a % PGSIZE);
        r, page := Load(a / PGSIZE, true);
      }
    }
  }

  datatype GrowResult = Size(sz: nat) | Overran

  datatype RoundEnd = Added | NoFrame | NoEntry

  datatype FaultResult = Resumed | Killed | OutOfMemory

  /** PGROUNDUP, in pages. */
  function Pages(sz: nat): nat {
    (sz + PGSIZE - 1) / PGSIZE
  }

  /** The numbers from a to b. */
  function Count(a: nat, b: nat): seq<nat>
    requires a <= b
  {
    seq(b - a, i requires 0 <= i < b - a => a + i)
  }

  lemma NextCount(n: nat)
    ensures Count(0, n + 1) == Count(0, n) + [n]
  {
  }

  lemma ResidentCount(h: Proc)
    requires h.Valid()
    ensures |h.order| == Min(|h.flat|, MAX_PSYC_PAGES) && |h.flat| <= MAX_TOTAL_PAGES
  {
  }

  /** Of a process all of whose pages were resident, pages lo to a are gone. */
  ghost predicate Shrinking(meta: seq<PageInfo>, order: seq<nat>, pte: map<nat, Pte>, mem: map<nat, Page>,
                            free: seq<nat>, flat: seq<Page>, lo: nat, a: nat) {
    && lo <= a <= |flat| <= MAX_TOTAL_PAGES == |meta|
    && order == Count(0, lo) + Count(a, |flat|)
    && (forall i: nat | i < MAX_TOTAL_PAGES ::
          meta[i] == if i < lo || a <= i < |flat| then PageInfo(i, NIL, PhysMemory) else UNUSED)
    && (forall i: nat :: i in pte <==> i < lo || a <= i < |flat|)
    && (forall i: nat | i in pte :: FrameOk(pte[i], mem, free, flat[i]))
    && (forall i: nat, j: nat | i in pte && j in pte && i < j :: pte[i].frame != pte[j].frame)
    && FreeOk(mem, free)
  }

  ghost predicate FrameOk(e: Pte, mem: map<nat, Page>, free: seq<nat>, page: Page) {
    e.present && !e.pagedOut && e.frame in mem && e.frame !in free && mem[e.frame] == page
  }

  lemma ShrinkStart(meta: seq<PageInfo>, order: seq<nat>, pte: map<nat, Pte>, mem: map<nat, Page>, free: seq<nat>,
                    swap: map<nat, Page>, flat: seq<Page>, lo: nat)
    requires Tracked(meta, order, [], |flat|) && Backed(meta, pte, mem, free, swap, flat) && lo <= |flat|
    requires order == Count(0, |flat|)
    ensures Shrinking(meta, order, pte, mem, free, flat, lo, lo)
  {
    assert Count(0, |flat|) == Count(0, lo) + Count(lo, |flat|);
    forall i: nat | i < MAX_TOTAL_PAGES ensures meta[i] == if i < |flat| then PageInfo(i, NIL, PhysMemory) else UNUSED {
      assert EntryOk(meta, order, [], |flat|, i);
    }
    forall i: nat | i < |flat| ensures FrameOk(pte[i], mem, free, flat[i]) {
      assert PageOk(meta[i], pte[i], mem, free, swap, flat[i]);
    }
  }

  lemma ShrinkPte(meta: seq<PageInfo>, order: seq<nat>, pte: map<nat, Pte>, mem: map<nat, Page>, free: seq<nat>,
                  flat: seq<Page>, lo: nat, a: nat, v: nat)
    requires Shrinking(meta, order, pte, mem, free, flat, lo, a) && v >= a && (v == a || a == |flat|)
    ensures v in pte <==> v < |flat|
    ensures v in pte ==> pte[v].present
  {
  }

  /** One more page gone. */
  lemma ShrinkNext(meta: seq<PageInfo>, order: seq<nat>, pte: map<nat, Pte>, mem: map<nat, Page>, free: seq<nat>,
                   flat: seq<Page>, lo: nat, a: nat)
    requires Shrinking(meta, order, pte, mem, free, flat, lo, a) && a < |flat|
    ensures lo < |order| && order[lo] == a && a in pte
    ensures forall x: nat | x < a :: meta[x].vpn != a
    ensures var f := pte[a].frame;
            && f in mem
            && Shrinking(meta[a := UNUSED], Without(order, lo), pte - {a}, mem[f := JUNK_PAGE], [f] + free, flat, lo,
                         a + 1)
  {
    assert Without(order, lo) == Count(0, lo) + Count(a + 1, |flat|);
    var f := pte[a].frame;
    assert FrameOk(pte[a], mem, free, flat[a]);
    forall i: nat | i in pte && i != a ensures FrameOk(pte[i], mem[f := JUNK_PAGE], [f] + free, flat[i]) {
      assert FrameOk(pte[i], mem, free, flat[i]);
      assert if i < a then pte[i].frame != pte[a].frame else pte[a].frame != pte[i].frame;
    }
  }

  lemma ShrinkEnd(meta: seq<PageInfo>, order: seq<nat>, pte: map<nat, Pte>, mem: map<nat, Page>, free: seq<nat>,
                  swap: map<nat, Page>, flat: seq<Page>, lo: nat)
    requires Shrinking(meta, order, pte, mem, free, flat, lo, |flat|)
    ensures Tracked(meta, order, [], lo) && Backed(meta, pte, mem, free, swap, flat[..lo]) && order == Count(0, lo)
  {
    assert Count(|flat|, |flat|) == [];
    forall i: nat | i < lo ensures i in order {
      assert order[i] == i;
    }
    forall i: nat | i < lo ensures PageOk(meta[i], pte[i], mem, free, swap, flat[i]) {
      assert FrameOk(pte[i], mem, free, flat[i]);
    }
  }

  lemma NoZeros(flat: seq<Page>)
    ensures flat + Zeros(0) == flat
  {
  }

  lemma OneMoreZero(flat: seq<Page>, k: nat)
    ensures flat + Zeros(k) + [ZERO_PAGE] == flat + Zeros(k + 1)
  {
  }

  /** PGROUNDUP rounds up, and no further than to the next page. */
  lemma PagesCover(sz: nat, n: nat)
    ensures sz <= Pages(sz) * PGSIZE < sz + PGSIZE
    ensures sz <= n * PGSIZE < sz + PGSIZE <==> n == Pages(sz)
  {
  }

  lemma PagesLess(sz: nat, n: nat)
    ensures n * PGSIZE < sz <==> n < Pages(sz)
  {
  }

  lemma Below(a: nat, sz: nat, n: nat)
    requires a < sz && sz <= n * PGSIZE
    ensures a / PGSIZE < n
  {
  }

  lemma NewIsZero(flat0: seq<Page>, flat: seq<Page>, v: nat, o: nat)
    requires |flat0| <= |flat| && flat == flat0 + Zeros(|flat| - |flat0|) && v < |flat| && o < PGSIZE
    ensures if v < |flat0| then flat[v] == flat0[v] else flat[v][o] == 0
  {
  }

  lemma AtMostResident(h: Proc)
    requires h.Valid()
    ensures |h.order| <= MAX_PSYC_PAGES
  {
  }

  lemma PagesOrder(a: nat, b: nat)
    requires a <= b
    ensures Pages(a) <= Pages(b)
  {
  }

  function Zeros(n: nat): seq<Page> {
    seq(n, i => ZERO_PAGE)
  }

  lemma FaultFacts(meta: seq<PageInfo>, order: seq<nat>, slots: seq<nat>, pte: map<nat, Pte>, mem: map<nat, Page>,
                   free: seq<nat>, swap: map<nat, Page>, flat: seq<Page>, i: nat)
    requires Tracked(meta, order, slots, |flat|) && Backed(meta, pte, mem, free, swap, flat)
    ensures i in slots <==> i in pte && pte[i].pagedOut
    ensures i in slots ==>
              && i < |meta| == MAX_TOTAL_PAGES && i < |flat| && i !in order && meta[i].vpn == i
              && meta[i].state == SwapFile
              && 0 <= meta[i].slot < |slots| && slots[meta[i].slot] == i && meta[i].slot in swap
              && !pte[i].present
  {
    if i in slots {
      var k :| 0 <= k < |slots| && slots[k] == i;
      assert EntryOk(meta, order, slots, |flat|, i);
      assert PageOk(meta[i], pte[i], mem, free, swap, flat[i]);
    }
    if i in pte {
      assert EntryOk(meta, order, slots, |flat|, i);
      assert PageOk(meta[i], pte[i], mem, free, swap, flat[i]);
    }
  }

  /** What Fault leaves in the metadata. */
  function Swapped(meta: seq<PageInfo>, v: nat, i: nat): seq<PageInfo>
    requires v < |meta| && i < |meta|
  {
    var k := meta[i].slot;
    meta[v := meta[v].(slot := k)][i := PageInfo(meta[i].vpn, NIL, PhysMemory)][v := PageInfo(meta[v].vpn, k, SwapFile)]
  }

  lemma FaultTracked(meta: seq<PageInfo>, next: seq<int>, prev: seq<int>, head: int, order: seq<nat>, slots: seq<nat>,
                     n: nat, i: nat)
    requires Tracked(meta, order, slots, n) && Listed(next, prev, head, order) && order != [] && i in slots
    ensures i < |meta| && order[0] < |meta| && 0 <= meta[i].slot < |slots|
    ensures Tracked(Swapped(meta, order[0], i), Without(order + [i], 0), slots[meta[i].slot := order[0]], n)
    ensures Without(order + [i], 0) == order[1..] + [i]
    ensures slots[meta[i].slot := order[0]][meta[i].slot] == order[0]
  {
    hide Listed, EntryOk;
    var v := order[0];
    SlotsApart(meta, order, slots, n, i);
    var k := meta[i].slot;
    var meta', order', slots' := Swapped(meta, v, i), order[1..] + [i], slots[k := v];
    assert Without(order + [i], 0) == order';
    forall j | 0 <= j < |order'| ensures order'[j] < n && meta'[order'[j]].state == PhysMemory {
      if j < |order| - 1 {
        assert order'[j] == order[j + 1];
        Different(next, prev, head, order, 0, j + 1);
      }
    }
    forall j: nat | j < MAX_TOTAL_PAGES ensures EntryOk(meta', order', slots', n, j) {
      FaultEntryOk(meta, order, slots, n, i, j);
    }
  }

  lemma FaultEntryOk(meta: seq<PageInfo>, order: seq<nat>, slots: seq<nat>, n: nat, i: nat, j: nat)
    requires |meta| == MAX_TOTAL_PAGES && order != [] && order[0] < n && i < n <= MAX_TOTAL_PAGES && order[0] != i
    requires j < |meta|
    requires EntryOk(meta, order, slots, n, i) && EntryOk(meta, order, slots, n, j)
    requires EntryOk(meta, order, slots, n, order[0])
    requires meta[order[0]].state == PhysMemory && meta[i].state == SwapFile
    ensures 0 <= meta[i].slot < |slots|
    ensures EntryOk(Swapped(meta, order[0], i), order[1..] + [i], slots[meta[i].slot := order[0]], n, j)
  {
    var order' := order[1..] + [i];
    assert order'[|order'| - 1] == i;
    if j in order && j != order[0] {
      var q :| 0 <= q < |order| && order[q] == j;
      assert order'[q - 1] == j;
    }
  }

  lemma FaultPageOk(meta: seq<PageInfo>, slots: seq<nat>, pte: map<nat, Pte>, mem: map<nat, Page>,
                    free: seq<nat>, swap: map<nat, Page>, flat: seq<Page>, v: nat, i: nat, j: nat)
    requires Backed(meta, pte, mem, free, swap, flat)
    requires v < |flat| && i < |flat| && j < |flat| && v != i && free != []
    requires meta[v].state == PhysMemory && meta[i].state == SwapFile
    requires meta[j].state == SwapFile && j != i ==> meta[j].slot != meta[i].slot
    ensures v in pte && pte[v].frame in mem && meta[i].slot >= 0 && meta[i].slot in swap
    ensures var f, g, k := free[0], pte[v].frame, meta[i].slot;
            var pte' := pte[i := Pte(f, true, false, true)][v := Pte(g, false, true, false)];
            && j in pte'
            && PageOk(Swapped(meta, v, i)[j], pte'[j], mem[f := swap[k]][g := JUNK_PAGE], [g] + free[1..],
                      swap[k := mem[g]], flat[j])
  {
    assert PageOk(meta[v], pte[v], mem, free, swap, flat[v]);
    assert PageOk(meta[i], pte[i], mem, free, swap, flat[i]);
    assert PageOk(meta[j], pte[j], mem, free, swap, flat[j]);
    assert free[0] in free;
    if j != v && j != i && meta[j].state == PhysMemory {
      FramesApart(meta, pte, mem, free, swap, flat, v, j);
    }
    FramesFree(mem, free, pte[v].frame, swap[meta[i].slot]);
  }

  lemma FramesApart(meta: seq<PageInfo>, pte: map<nat, Pte>, mem: map<nat, Page>, free: seq<nat>, swap: map<nat, Page>,
                    flat: seq<Page>, i: nat, j: nat)
    requires Backed(meta, pte, mem, free, swap, flat) && i < |flat| && j < |flat| && i != j
    requires meta[i].state == PhysMemory && meta[j].state == PhysMemory
    ensures pte[i].frame != pte[j].frame
  {
    if i < j { assert pte[i].frame != pte[j].frame; } else { assert pte[j].frame != pte[i].frame; }
  }

  /** A page comes into the first free frame and another frame is freed. */
  lemma FramesFree(mem: map<nat, Page>, free: seq<nat>, g: nat, x: Page)
    requires FreeOk(mem, free) && free != [] && g in mem && g !in free
    ensures FreeOk(mem[free[0] := x][g := JUNK_PAGE], [g] + free[1..])
    ensures free[0] !in [g] + free[1..]
    ensures forall h | h !in free && h != g :: h !in [g] + free[1..]
  {
    var free' := [g] + free[1..];
    forall a, b | 0 <= a < b < |free'| ensures free'[a] != free'[b] {
      assert free'[b] == free[b];
      assert a > 0 ==> free'[a] == free[a];
    }
    assert free[0] in free;
    forall h | h in free' ensures h == g || (h in free && h != free[0]) {
      var a :| 0 <= a < |free'| && free'[a] == h;
      if a > 0 { assert free[a] == h; }
    }
  }

  lemma FaultBacked(meta: seq<PageInfo>, slots: seq<nat>, pte: map<nat, Pte>, mem: map<nat, Page>,
                    free: seq<nat>, swap: map<nat, Page>, flat: seq<Page>, v: nat, i: nat)
    requires Backed(meta, pte, mem, free, swap, flat) && v < |flat| && i < |flat| && v != i && free != []
    requires meta[v].state == PhysMemory && meta[i].state == SwapFile
    requires forall j | 0 <= j < |flat| && meta[j].state == SwapFile && j != i :: meta[j].slot != meta[i].slot
    ensures v < |meta| && i < |meta| && v in pte && 0 <= meta[i].slot && meta[i].slot in swap
    ensures pte[v].frame in mem && pte[v].frame != free[0]
    ensures var f, g, k := free[0], pte[v].frame, meta[i].slot;
            Backed(Swapped(meta, v, i), pte[i := Pte(f, true, false, true)][v := Pte(g, false, true, false)],
                   mem[f := swap[k]][g := JUNK_PAGE], [g] + free[1..], swap[k := mem[g]], flat)
  {
    hide PageOk, FreeOk;
    FaultPageOk(meta, slots, pte, mem, free, swap, flat, v, i, i);
    var f, g, k := free[0], pte[v].frame, meta[i].slot;
    var meta' := Swapped(meta, v, i);
    var pte' := pte[i := Pte(f, true, false, true)][v := Pte(g, false, true, false)];
    var mem', free', swap' := mem[f := swap[k]][g := JUNK_PAGE], [g] + free[1..], swap[k := mem[g]];
    forall j | 0 <= j < |flat| ensures j in pte' && PageOk(meta'[j], pte'[j], mem', free', swap', flat[j]) {
      FaultPageOk(meta, slots, pte, mem, free, swap, flat, v, i, j);
    }
    forall a, b | 0 <= a < b < |flat| && meta'[a].state == PhysMemory && meta'[b].state == PhysMemory
      ensures pte'[a].frame != pte'[b].frame
    {
      FaultFramesApart(meta, pte, mem, free, swap, flat, v, i, a, b);
    }
    InMemoryFacts(meta[v], pte[v], mem, free, swap, flat[v]);
    FramesFree(mem, free, g, swap[k]);
    assert free[0] in free;
  }

  lemma InMemoryFacts(m: PageInfo, e: Pte, mem: map<nat, Page>, free: seq<nat>, swap: map<nat, Page>, page: Page)
    requires PageOk(m, e, mem, free, swap, page) && m.state == PhysMemory
    ensures e.frame in mem && e.frame !in free && e.present && !e.pagedOut && mem[e.frame] == page
  {
  }

  lemma FaultFramesApart(meta: seq<PageInfo>, pte: map<nat, Pte>, mem: map<nat, Page>, free: seq<nat>,
                         swap: map<nat, Page>, flat: seq<Page>, v: nat, i: nat, a: nat, b: nat)
    requires Backed(meta, pte, mem, free, swap, flat) && v < |flat| && i < |flat| && v != i && free != []
    requires a < |flat| && b < |flat| && a != b && a != v && b != v
    requires a == i || meta[a].state == PhysMemory
    requires b == i || meta[b].state == PhysMemory
    ensures var pte' := pte[i := Pte(free[0], true, false, true)];
            a in pte' && b in pte' && pte'[a].frame != pte'[b].frame
  {
    assert free[0] in free;
    assert PageOk(meta[a], pte[a], mem, free, swap, flat[a]);
    assert PageOk(meta[b], pte[b], mem, free, swap, flat[b]);
    if a != i && b != i {
      FramesApart(meta, pte, mem, free, swap, flat, a, b);
    }
  }

  lemma SlotsApart(meta: seq<PageInfo>, order: seq<nat>, slots: seq<nat>, n: nat, i: nat)
    requires Tracked(meta, order, slots, n) && i in slots && order != []
    ensures order[0] < n && i < n && order[0] != i
    ensures meta[order[0]].state == PhysMemory && meta[i].state == SwapFile
    ensures n <= |meta| && 0 <= meta[i].slot < |slots| && slots[meta[i].slot] == i
    ensures forall j | 0 <= j < n && meta[j].state == SwapFile && j != i :: meta[j].slot != meta[i].slot
  {
    var k :| 0 <= k < |slots| && slots[k] == i;
    forall j: nat | j < n && meta[j].state == SwapFile && j != i ensures meta[j].slot != meta[i].slot {
      assert EntryOk(meta, order, slots, n, j) && EntryOk(meta, order, slots, n, i);
    }
  }

  lemma OnePlace(h: Proc, i: nat)
    requires h.Valid()
    ensures i in h.pte <==> i < |h.flat|
    ensures i in h.pte && !h.pte[i].present ==> i in h.slots
    ensures i in h.pte && h.pte[i].present ==> h.pte[i].frame in h.mem && h.mem[h.pte[i].frame] == h.flat[i]
    ensures i in h.slots ==> i < |h.flat|
  {
    FaultFacts(h.meta, h.order, h.slots, h.pte, h.mem, h.free, h.swap, h.flat, i);
    if i < |h.flat| {
      assert PageOk(h.meta[i], h.pte[i], h.mem, h.free, h.swap, h.flat[i]);
      assert EntryOk(h.meta, h.order, h.slots, |h.flat|, i);
    }
  }

  lemma StoreBacked(h: Proc, i: nat, page: Page)
    requires h.Valid() && i < |h.flat| && i in h.pte && h.pte[i].present
    ensures Backed(h.meta, h.pte, h.mem[h.pte[i].frame := page], h.free, h.swap, h.flat[i := page])
  {
    hide Listed;
    var flat', mem' := h.flat[i := page], h.mem[h.pte[i].frame := page];
    assert PageOk(h.meta[i], h.pte[i], h.mem, h.free, h.swap, h.flat[i]);
    forall j | 0 <= j < |flat'| ensures PageOk(h.meta[j], h.pte[j], mem', h.free, h.swap, flat'[j]) {
      assert PageOk(h.meta[j], h.pte[j], h.mem, h.free, h.swap, h.flat[j]);
      if j != i && h.meta[j].state == PhysMemory {
        FramesApart(h.meta, h.pte, h.mem, h.free, h.swap, h.flat, i, j);
      }
    }
  }

  lemma HeadNil(next: seq<int>, prev: seq<int>, head: int, order: seq<nat>)
    requires Listed(next, prev, head, order)
    ensures head == NIL <==> order == []
    ensures |next| == |prev| == MAX_TOTAL_PAGES
  {
  }

  lemma NotListedYet(meta: seq<PageInfo>, order: seq<nat>, slots: seq<nat>, n: nat)
    requires Tracked(meta, order, slots, n)
    ensures n !in order
  {
  }

  lemma TrackedCount(meta: seq<PageInfo>, order: seq<nat>, slots: seq<nat>, n: nat)
    requires Tracked(meta, order, slots, n)
    ensures |meta| == MAX_TOTAL_PAGES && |order| + |slots| == n <= MAX_TOTAL_PAGES
  {
  }

  lemma ResidentFacts(meta: seq<PageInfo>, order: seq<nat>, slots: seq<nat>, pte: map<nat, Pte>, mem: map<nat, Page>,
                      free: seq<nat>, swap: map<nat, Page>, flat: seq<Page>, k: nat)
    requires Tracked(meta, order, slots, |flat|) && Backed(meta, pte, mem, free, swap, flat) && k < |order|
    ensures var x := order[k];
            && x < |meta| && x < |flat| && x in pte && pte[x].frame in mem && mem[pte[x].frame] == flat[x]
            && meta[x] == PageInfo(x, NIL, PhysMemory) && pte[x].present
  {
    var x := order[k];
    assert EntryOk(meta, order, slots, |flat|, x);
    assert PageOk(meta[x], pte[x], mem, free, swap, flat[x]);
  }

  lemma SwapOutTracked(meta: seq<PageInfo>, next: seq<int>, prev: seq<int>, head: int, order: seq<nat>, slots: seq<nat>,
                       n: nat)
    requires Tracked(meta, order, slots, n) && order != [] && Listed(next, prev, head, order)
    ensures order[0] < |meta|
    ensures Tracked(meta[order[0] := PageInfo(order[0], |slots|, SwapFile)], Without(order, 0), slots + [order[0]], n)
  {
    hide Listed, EntryOk;
    var v := order[0];
    var meta', order', slots' := meta[v := PageInfo(v, |slots|, SwapFile)], Without(order, 0), slots + [v];
    forall j | 0 <= j < |order'| ensures order'[j] < n && meta'[order'[j]].state == PhysMemory {
      assert order'[j] == order[j + 1];
      Different(next, prev, head, order, 0, j + 1);
    }
    forall j: nat | j < MAX_TOTAL_PAGES ensures EntryOk(meta', order', slots', n, j) {
      SwapOutEntryOk(meta, order, slots, n, j);
    }
  }

  lemma SwapOutEntryOk(meta: seq<PageInfo>, order: seq<nat>, slots: seq<nat>, n: nat, j: nat)
    requires order != [] && order[0] < n <= |meta| && j < |meta| && EntryOk(meta, order, slots, n, j)
    ensures EntryOk(meta[order[0] := PageInfo(order[0], |slots|, SwapFile)], Without(order, 0), slots + [order[0]], n,
                    j)
  {
    var slots' := slots + [order[0]];
    assert slots'[|slots|] == order[0];
    if j in order && j != order[0] {
      InWithout(order, 0, j);
    }
  }

  lemma SwapOutBacked(meta: seq<PageInfo>, order: seq<nat>, slots: seq<nat>, pte: map<nat, Pte>, mem: map<nat, Page>,
                      free: seq<nat>, swap: map<nat, Page>, flat: seq<Page>)
    requires Tracked(meta, order, slots, |flat|) && Backed(meta, pte, mem, free, swap, flat) && order != []
    ensures order[0] < |meta| && order[0] in pte && pte[order[0]].frame in mem
    ensures var v := order[0];
            var f := pte[v].frame;
            Backed(meta[v := PageInfo(v, |slots|, SwapFile)], pte[v := Pte(f, false, true, false)], mem[f := JUNK_PAGE],
                   [f] + free, swap[|slots| := mem[f]], flat)
  {
    hide EntryOk;
    var v := order[0];
    ResidentFacts(meta, order, slots, pte, mem, free, swap, flat, 0);
    var f := pte[v].frame;
    var meta', pte', mem', free' := meta[v := PageInfo(v, |slots|, SwapFile)], pte[v := Pte(f, false, true, false)],
                                    mem[f := JUNK_PAGE], [f] + free;
    assert PageOk(meta[v], pte[v], mem, free, swap, flat[v]);
    forall j: nat | j < |flat| ensures PageOk(meta'[j], pte'[j], mem', free', swap[|slots| := mem[f]], flat[j]) {
      assert PageOk(meta[j], pte[j], mem, free, swap, flat[j]);
      SlotBelow(meta, order, slots, |flat|, j);
      if j != v && meta[j].state == PhysMemory {
        FramesApart(meta, pte, mem, free, swap, flat, v, j);
      }
    }
  }

  lemma SlotBelow(meta: seq<PageInfo>, order: seq<nat>, slots: seq<nat>, n: nat, j: nat)
    requires Tracked(meta, order, slots, n) && j < n
    ensures meta[j].state == SwapFile ==> meta[j].slot < |slots|
  {
    assert EntryOk(meta, order, slots, n, j);
  }

  lemma AddTracked(meta: seq<PageInfo>, order: seq<nat>, slots: seq<nat>, n: nat)
    requires Tracked(meta, order, slots, n) && n < MAX_TOTAL_PAGES
    ensures Tracked(meta[n := PageInfo(n, NIL, PhysMemory)], order + [n], slots, n + 1)
  {
    var meta', order' := meta[n := PageInfo(n, NIL, PhysMemory)], order + [n];
    assert order'[|order|] == n;
    var m := n + 1;
    forall j: nat | j < MAX_TOTAL_PAGES ensures EntryOk(meta', order', slots, m, j) {
      assert EntryOk(meta, order, slots, n, j);
    }
  }

  lemma AddBacked(meta: seq<PageInfo>, pte: map<nat, Pte>, mem: map<nat, Page>, free: seq<nat>, swap: map<nat, Page>,
                  flat: seq<Page>)
    requires Backed(meta, pte, mem, free, swap, flat) && free != [] && |flat| < |meta|
    ensures var n := |flat|;
            Backed(meta[n := PageInfo(n, NIL, PhysMemory)], pte[n := Pte(free[0], true, false, false)],
                   mem[free[0] := ZERO_PAGE], free[1..], swap, flat + [ZERO_PAGE])
  {
  }
}
