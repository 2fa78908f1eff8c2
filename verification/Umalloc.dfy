/** The allocator of umalloc.c on memory counted in header units: ptr[u] and size[u] are the two fields of the header at
    unit u.  Unit NULL is no address; the static header base is unit BASE; the break grows above it. */
module Umalloc {
  import opened FreeList

  const NULL: nat := 0
  const BASE: nat := 1
  const HEADER_BYTES: nat := 8
  const MIN_UNITS: nat := 4096

  /** The units malloc sets aside: a header and enough units for the bytes. */
  function Units(nbytes: nat): nat {
    (nbytes + HEADER_BYTES - 1) / HEADER_BYTES + 1
  }

  /** That is room for the bytes, and not a unit more than needed. */
  lemma UnitsSuffice(nbytes: nat)
    ensures nbytes <= (Units(nbytes) - 1) * HEADER_BYTES < nbytes + HEADER_BYTES
  {
  }

  /** The j-th node of the circular list: base, then the chunks. */
  function Node(cs: seq<Chunk>, j: nat): nat
    requires j <= |cs|
  {
    if j == 0 then BASE else cs[j - 1].addr
  }

  function NextNode(cs: seq<Chunk>, j: nat): nat
    requires j <= |cs|
  {
    if j == |cs| then BASE else Node(cs, j + 1)
  }

  /** Memory holds the list cs: circular, with exactly one descent, from the last chunk to base. */
  ghost predicate Rep(ptr: seq<nat>, size: seq<nat>, cs: seq<Chunk>) {
    && BASE < |ptr| == |size|
    && size[BASE] == 0
    && (forall i | 0 <= i < |cs| :: BASE < cs[i].addr < |ptr| && size[cs[i].addr] == cs[i].len)
    && (forall j | 0 <= j <= |cs| :: ptr[Node(cs, j)] == NextNode(cs, j))
  }

  lemma NodeInRange(ptr: seq<nat>, size: seq<nat>, cs: seq<Chunk>, j: nat)
    requires Rep(ptr, size, cs) && j <= |cs|
    ensures BASE <= Node(cs, j) < |ptr| && (j == 0 <==> Node(cs, j) == BASE)
    ensures size[Node(cs, j)] == if j == 0 then 0 else cs[j - 1].len
    ensures ptr[Node(cs, j)] == NextNode(cs, j)
    ensures BASE <= NextNode(cs, j) < |ptr|
  {
  }

  lemma NodesSorted(cs: seq<Chunk>, i: nat, j: nat)
    requires Coalesced(cs) && i < j <= |cs| && forall k | 0 <= k < |cs| :: BASE < cs[k].addr
    ensures Node(cs, i) < Node(cs, j)
  {
  }

  /** Does a block at position t touch the chunk above it, or the one below? */
  predicate TouchesUp(cs: seq<Chunk>, b: Chunk, t: nat) {
    t < |cs| && End(b) == cs[t].addr
  }

  predicate TouchesDown(cs: seq<Chunk>, b: Chunk, t: nat) {
    0 < t <= |cs| && End(cs[t - 1]) == b.addr
  }

  /** The list after b has joined it at position t. */
  function Joined(cs: seq<Chunk>, b: Chunk, t: nat): seq<Chunk>
    requires t <= |cs|
  {
    var up := TouchesUp(cs, b, t);
    var len := b.len + (if up then cs[t].len else 0);
    var rest := cs[if up then t + 1 else t..];
    if TouchesDown(cs, b, t)
    then cs[..t - 1] + [Chunk(cs[t - 1].addr, cs[t - 1].len + len)] + rest
    else cs[..t] + [Chunk(b.addr, len)] + rest
  }

  lemma MergeUpJoins(cs: seq<Chunk>, b: Chunk, t: nat)
    requires t <= |cs|
    ensures MergeUp(b, cs[t..]) ==
            if TouchesUp(cs, b, t) then [Chunk(b.addr, b.len + cs[t].len)] + cs[t + 1..] else [b] + cs[t..]
  {
    if t < |cs| {
      assert cs[t..][1..] == cs[t + 1..];
    }
  }

  lemma MergeDownJoins(cs: seq<Chunk>, t: nat, b: Chunk, rest: seq<Chunk>)
    requires t <= |cs|
    ensures MergeDown(cs[..t], [b] + rest) ==
            if TouchesDown(cs, b, t)
            then cs[..t - 1] + [Chunk(cs[t - 1].addr, cs[t - 1].len + b.len)] + rest
            else cs[..t] + [b] + rest
  {
    assert ([b] + rest)[1..] == rest;
    if t > 0 {
      assert cs[..t][..t - 1] == cs[..t - 1];
    }
    assert cs[..t] + ([b] + rest) == cs[..t] + [b] + rest;
  }

  lemma InsertJoins(cs: seq<Chunk>, b: Chunk)
    ensures Insert(cs, b) == Joined(cs, b, Below(cs, b.addr))
  {
    hide MergeUp, MergeDown, Below;
    var t := Below(cs, b.addr);
    var up := TouchesUp(cs, b, t);
    var b1 := Chunk(b.addr, b.len + (if up then cs[t].len else 0));
    MergeUpJoins(cs, b, t);
    MergeDownJoins(cs, t, b1, cs[if up then t + 1 else t..]);
  }

  /** Memory after the stores of free. */
  ghost predicate Stored(ptr: seq<nat>, size: seq<nat>, ptr': seq<nat>, size': seq<nat>, cs: seq<Chunk>, b: Chunk,
                         t: nat)
    requires t <= |cs| && Rep(ptr, size, cs) && b.addr < |ptr|
  {
    NodeInRange(ptr, size, cs, t);
    var p := Node(cs, t);
    var up, down := TouchesUp(cs, b, t), TouchesDown(cs, b, t);
    var len := b.len + (if up then cs[t].len else 0);
    var nxt := if up then NextNode(cs, t + 1) else NextNode(cs, t);
    && |ptr'| == |size'| == |ptr|
    && (forall u | 0 <= u < |ptr| && u != p && u != b.addr :: ptr'[u] == ptr[u] && size'[u] == size[u])
    && ptr'[p] == (if down then nxt else b.addr)
    && size'[p] == (if down then size[p] + len else size[p])
    && (!down ==> ptr'[b.addr] == nxt && size'[b.addr] == len)
  }

  /** A node that is neither the predecessor nor the new block is left alone. */
  lemma OtherNode(ptr: seq<nat>, size: seq<nat>, ptr': seq<nat>, size': seq<nat>, cs: seq<Chunk>, b: Chunk, t: nat,
                  o: nat)
    requires Coalesced(cs) && Rep(ptr, size, cs) && BASE < b.addr < |ptr| && t <= |cs|
    requires b.len > 0 && Apart(cs, b)
    requires Stored(ptr, size, ptr', size', cs, b, t)
    requires o <= |cs| && o != t
    ensures BASE <= Node(cs, o) < |ptr| && (o == 0 <==> Node(cs, o) == BASE)
    ensures size'[Node(cs, o)] == if o == 0 then 0 else cs[o - 1].len
    ensures ptr'[Node(cs, o)] == NextNode(cs, o)
  {
    NodeInRange(ptr, size, cs, o);
    if o < t { NodesSorted(cs, o, t); } else { NodesSorted(cs, t, o); }
    if o > 0 { assert cs[o - 1].len > 0 && cs[o - 1].addr != b.addr; }
  }

  /** Where the nodes of the joined list come from: before, at and after the place of b. */
  lemma JoinedBefore(cs: seq<Chunk>, b: Chunk, t: nat, j: nat)
    requires j < t <= |cs|
    ensures var ds := Joined(cs, b, t);
            && j < |ds| && Node(ds, j) == Node(cs, j) && NextNode(ds, j) == NextNode(cs, j)
            && (j > 0 ==> ds[j - 1].len == cs[j - 1].len)
  {
  }

  lemma JoinedAt(cs: seq<Chunk>, b: Chunk, t: nat)
    requires t <= |cs|
    ensures var ds := Joined(cs, b, t);
            var up := TouchesUp(cs, b, t);
            var len := b.len + (if up then cs[t].len else 0);
            var nxt := if up then NextNode(cs, t + 1) else NextNode(cs, t);
            && t <= |ds| && Node(ds, t) == Node(cs, t)
            && (if TouchesDown(cs, b, t)
                then ds[t - 1].len == cs[t - 1].len + len && NextNode(ds, t) == nxt
                else
                  && (t > 0 ==> ds[t - 1].len == cs[t - 1].len)
                  && t < |ds| && NextNode(ds, t) == b.addr
                  && Node(ds, t + 1) == b.addr && ds[t].len == len && NextNode(ds, t + 1) == nxt)
  {
  }

  lemma JoinedAfter(cs: seq<Chunk>, b: Chunk, t: nat, j: nat)
    requires t <= |cs| && (if TouchesDown(cs, b, t) then t else t + 1) < j <= |Joined(cs, b, t)|
    ensures var ds := Joined(cs, b, t);
            var o := j - 1 + (if TouchesUp(cs, b, t) then 1 else 0) + (if TouchesDown(cs, b, t) then 1 else 0);
            && t < o <= |cs| && Node(ds, j) == Node(cs, o) && NextNode(ds, j) == NextNode(cs, o)
            && ds[j - 1].len == cs[o - 1].len
  {
  }

  /** What the joined list's j-th node holds after the stores. */
  lemma JoinedNodeOk(ptr: seq<nat>, size: seq<nat>, ptr': seq<nat>, size': seq<nat>, cs: seq<Chunk>, b: Chunk, t: nat,
                     j: nat)
    requires Coalesced(cs) && Rep(ptr, size, cs) && BASE < b.addr < |ptr| && t <= |cs|
    requires b.len > 0 && Apart(cs, b)
    requires Stored(ptr, size, ptr', size', cs, b, t)
    requires j <= |Joined(cs, b, t)|
    ensures |ptr'| == |size'| == |ptr|
    ensures var ds := Joined(cs, b, t);
            && BASE <= Node(ds, j) < |ptr| && (j == 0 <==> Node(ds, j) == BASE)
            && size'[Node(ds, j)] == (if j == 0 then 0 else ds[j - 1].len)
            && ptr'[Node(ds, j)] == NextNode(ds, j)
  {
    hide Coalesced, Nonempty, Apart, Joined, Rep;
    if j < t {
      JoinedBefore(cs, b, t, j);
      OtherNode(ptr, size, ptr', size', cs, b, t, j);
    } else if j > (if TouchesDown(cs, b, t) then t else t + 1) {
      JoinedAfter(cs, b, t, j);
      OtherNode(ptr, size, ptr', size', cs, b, t,
                j - 1 + (if TouchesUp(cs, b, t) then 1 else 0) + (if TouchesDown(cs, b, t) then 1 else 0));
    } else {
      NodeInRange(ptr, size, cs, t);
      JoinedAt(cs, b, t);
    }
  }

  lemma JoinedRep(ptr: seq<nat>, size: seq<nat>, ptr': seq<nat>, size': seq<nat>, cs: seq<Chunk>, b: Chunk, t: nat)
    requires Coalesced(cs) && Rep(ptr, size, cs) && BASE < b.addr < |ptr| && t <= |cs|
    requires b.len > 0 && Apart(cs, b)
    requires Stored(ptr, size, ptr', size', cs, b, t)
    ensures Rep(ptr', size', Joined(cs, b, t))
  {
    hide Joined, Stored, Coalesced, Nonempty, Apart;
    var ds := Joined(cs, b, t);
    JoinedNodeOk(ptr, size, ptr', size', cs, b, t, 0);
    forall j | 0 <= j <= |ds| ensures Node(ds, j) < |ptr'| && ptr'[Node(ds, j)] == NextNode(ds, j) {
      JoinedNodeOk(ptr, size, ptr', size', cs, b, t, j);
    }
    forall i | 0 <= i < |ds| ensures BASE < ds[i].addr < |ptr'| && size'[ds[i].addr] == ds[i].len {
      JoinedNodeOk(ptr, size, ptr', size', cs, b, t, i + 1);
    }
  }

  /** The header of a live block still holds its length. */
  ghost predicate Headers(size: seq<nat>, live: map<nat, nat>) {
    forall a | a in live :: a < |size| && size[a] == live[a]
  }

  /** Live blocks overlap neither each other nor the free list. */
  ghost predicate Separate(cs: seq<Chunk>, live: map<nat, nat>, brk: nat) {
    && (forall a | a in live :: BASE < a && live[a] > 0 && a + live[a] <= brk)
    && (forall a | a in live :: Apart(cs, Chunk(a, live[a])))
    && (forall a, b | a in live && b in live && a < b :: a + live[a] <= b)
  }

  ghost predicate InBlock(live: map<nat, nat>, a: nat, u: nat) {
    a in live && a <= u < a + live[a]
  }

  ghost predicate LiveHas(live: map<nat, nat>, u: nat) {
    exists a :: InBlock(live, a, u)
  }

  /** Free units and live units are together exactly the units obtained. */
  ghost predicate Conserved(cs: seq<Chunk>, live: map<nat, nat>, core: set<nat>) {
    forall u: nat :: u in core <==> Has(cs, u) || LiveHas(live, u)
  }

  class Heap {
    var ptr: seq<nat>
    var size: seq<nat>
    var freep: nat
    var brk: nat
    /** The free chunks in address order, and the position of freep among the nodes. */
    ghost var cs: seq<Chunk>
    ghost var fi: nat
    /** Header address and length in units of every block handed out and not yet freed. */
    ghost var live: map<nat, nat>
    /** Every unit obtained from morecore. */
    ghost var core: set<nat>

    ghost predicate ListOk()
      reads this
    {
      && BASE < brk <= |ptr| == |size|
      && Coalesced(cs)
      && (forall i | 0 <= i < |cs| :: BASE < cs[i].addr && End(cs[i]) <= brk)
      && (freep == NULL ==> cs == [] && live == map[])
      && (freep != NULL ==> Rep(ptr, size, cs) && fi <= |cs| && freep == Node(cs, fi))
    }

    ghost predicate Valid()
      reads this
    {
      ListOk() && Headers(size, live) && Separate(cs, live, brk) && Conserved(cs, live, core)
    }

    constructor (memory: nat, brk0: nat)
      requires BASE < brk0 <= memory
      ensures Valid() && brk == brk0 && freep == NULL && live == map[] && core == {} && |ptr| == memory
    {
      ptr, size := seq(memory, i => 0), seq(memory, i => 0);
      freep, brk := NULL, brk0;
      cs, fi, live, core := [], 0, map[], {};
    }

    /** The search loop of free: the node after which the block at bp belongs. */
    method FindPlace(bp: nat) returns (p: nat)
      requires ListOk() && freep != NULL && BASE < bp && forall i | 0 <= i < |cs| :: cs[i].addr != bp
      ensures p == Node(cs, Below(cs, bp))
    {
      hide Coalesced, Nonempty, Rep;
      ghost var t := Below(cs, bp);
      ghost var j: nat := fi;
      p := freep;
      NodeInRange(ptr, size, cs, j);
      Placing(cs, bp, j);
      while !(bp > p && bp < ptr[p])
        invariant j <= |cs| && p == Node(cs, j) && p < |ptr| && ptr[p] == NextNode(cs, j)
        invariant p < bp <==> j <= t
        invariant j < |cs| ==> p < ptr[p] && (bp < ptr[p] <==> t < j + 1)
        decreases if j <= t then t - j else |cs| + 1 - j + t
      {
        if p >= ptr[p] && (bp > p || bp < ptr[p]) {
          break;
        }
        p := ptr[p];
        j := if j == |cs| then 0 else j + 1;
        NodeInRange(ptr, size, cs, j);
        Placing(cs, bp, j);
      }
    }

    /** The pointer stores of free, once the place is found. */
    method Link(p: nat, bp: nat, ghost t: nat)
      requires Rep(ptr, size, cs) && t <= |cs| && p == Node(cs, t) && BASE < bp < |size| && p != bp
      requires t < |cs| ==> cs[t].addr != bp
      modifies this`ptr, this`size
      ensures Stored(old(ptr), old(size), ptr, size, cs, Chunk(bp, old(size)[bp]), t)
    {
      NodeInRange(ptr, size, cs, t);
      if t < |cs| { NodeInRange(ptr, size, cs, t + 1); }
      if bp + size[bp] == ptr[p] {
        size := size[bp := size[bp] + size[ptr[p]]];
        ptr := ptr[bp := ptr[ptr[p]]];
      } else {
        ptr := ptr[bp := ptr[p]];
      }
      if p + size[p] == bp {
        size := size[p := size[p] + size[bp]];
        ptr := ptr[p := ptr[bp]];
      } else {
        ptr := ptr[p := bp];
      }
    }

    /** free without the accounting: the block at bp joins the list. */
    method FreeBlock(bp: nat)
      requires ListOk() && freep != NULL && BASE < bp < |size| && bp + size[bp] <= brk && size[bp] > 0
      requires Apart(cs, Chunk(bp, size[bp]))
      modifies this`ptr, this`size, this`freep, this`cs, this`fi
      ensures cs == Insert(old(cs), Chunk(bp, old(size)[bp]))
      ensures ListOk() && freep == Node(old(cs), Below(old(cs), bp)) && |size| == |old(size)|
      ensures fi == Below(old(cs), bp)
      ensures forall u | 0 <= u < |size| && u != bp && u != freep :: size[u] == old(size)[u]
    {
      hide Rep, Coalesced, Nonempty, Stored, Insert, Apart;
      ghost var b := Chunk(bp, size[bp]);
      NotThere(cs, b);
      var p := FindPlace(bp);
      ghost var t, ptr0, size0 := Below(cs, bp), ptr, size;
      NodeInRange(ptr, size, cs, t);
      Link(p, bp, t);
      freep := p;
      StoredSize(ptr0, size0, ptr, size, cs, b, t);
      InsertRep(ptr0, size0, ptr, size, cs, b, brk);
      cs := Insert(cs, b);
      fi := t;
    }

    /** free: the block leaves the live ones and joins the list, which stays circular, sorted and coalesced.  The next
        search starts at the node below the block. */
    method Free(ap: nat)
      requires Valid() && ap > 0 && ap - 1 in live
      modifies this`ptr, this`size, this`freep, this`cs, this`fi, this`live
      ensures Valid() && freep != NULL && |ptr| == |old(ptr)|
      ensures live == old(live) - {ap - 1}
      ensures cs == Insert(old(cs), Chunk(ap - 1, old(live)[ap - 1]))
      ensures fi == Below(old(cs), ap - 1) && fi <= |cs| && freep == Node(cs, fi) && JustBelow(old(cs), freep, ap - 1)
    {
      hide Rep, Coalesced, Nonempty, Insert;
      LastBelow(cs, ap - 1);
      ghost var b, cs0, live0, size0 := Chunk(ap - 1, live[ap - 1]), cs, live, size;
      FreeBlock(ap - 1);
      live := live - {ap - 1};
      HeadersKept(cs0, live0, brk, size0, size, Below(cs0, ap - 1), ap - 1);
      FreeKeepsSeparate(cs0, live0, brk, b);
      FreeConserves(cs0, live0, core, b);
    }

    /** morecore: sbrk some units and free them.  The break may have been moved by others in between. */
    method Morecore(units: nat) returns (p: nat)
      requires Valid() && freep != NULL
      modifies this`ptr, this`size, this`freep, this`cs, this`fi, this`brk, this`core
      ensures Valid() && freep != NULL && |ptr| == |old(ptr)|
      ensures var nu := AtLeast4096(units);
              if old(brk) + nu > |old(ptr)|
              then p == NULL && cs == old(cs) && brk == old(brk) && core == old(core) && freep == old(freep)
              else
                && p == freep && brk == old(brk) + nu && fi == Below(old(cs), old(brk))
                && cs == Insert(old(cs), Chunk(old(brk), nu))
                && core == old(core) + Range(old(brk), nu)
    {
      hide Rep, Coalesced, Nonempty, Insert, Range, Apart, Headers, Separate, Conserved, Below;
      var nu := AtLeast4096(units);
      if brk + nu > |ptr| {
        return NULL;
      }
      var hp := brk;
      ghost var cs0, core0, size0 := cs, core, size;
      FreshHeader(ptr, size, cs, hp, nu);
      size := size[hp := nu];
      brk := brk + nu;
      ghost var size1 := size;
      HeadersBelow(live, size0, hp, nu, cs);
      FreeBlock(hp);
      core := core + Range(hp, nu);
      HeadersKept(cs0, live, hp, size1, size, Below(cs0, hp), hp);
      MoreKeepsSeparate(cs0, live, Chunk(hp, nu));
      MoreConserves(cs0, live, core0, Chunk(hp, nu));
      p := freep;
    }

    /** malloc's stores when the node p after prevp fits: units come off the end of the chunk, or all of it. */
    method TakeUnits(prevp: nat, p: nat, n: nat, ghost i: nat) returns (hp: nat)
      requires Rep(ptr, size, cs) && Coalesced(cs) && i < |cs| && prevp == Node(cs, i) && p == cs[i].addr
      requires 0 < n <= cs[i].len
      requires End(cs[i]) <= |ptr|
      modifies this`ptr, this`size
      ensures Rep(ptr, size, Take(cs, i, n)) && |size| == |ptr| == |old(ptr)| == |old(size)|
      ensures hp == Taken(cs, i, n).addr && size[hp] == n
      ensures forall u | 0 <= u < |size| && u != cs[i].addr && u != hp :: size[u] == old(size)[u]
    {
      hide Coalesced, Rep, Take;
      SameLength(ptr, size, cs);
      NodeInRange(ptr, size, cs, i);
      NodeInRange(ptr, size, cs, i + 1);
      if size[p] == n {
        TakeAllRep(ptr, size, cs, i);
        ptr := ptr[prevp := ptr[p]];
        hp := p;
      } else {
        TakeTailRep(ptr, size, cs, i, n);
        size := size[p := size[p] - n];
        hp := p + size[p];
        size := size[hp := n];
      }
    }

    /** The successful end of malloc. */
    method Carve(prevp: nat, p: nat, n: nat, ghost i: nat) returns (hp: nat)
      requires Valid() && freep != NULL && i < |cs| && prevp == Node(cs, i) && p == cs[i].addr && 0 < n <= cs[i].len
      modifies this`ptr, this`size, this`freep, this`cs, this`fi, this`live
      ensures Valid() && freep == prevp && freep != NULL && fi == i && |ptr| == |old(ptr)|
      ensures hp == Taken(old(cs), i, n).addr && hp !in old(live)
      ensures cs == Take(old(cs), i, n) && live == old(live)[hp := n]
    {
      hide Conserved, Separate, Headers, Rep, Coalesced, Nonempty;
      ghost var cs0, live0, size0 := cs, live, size;
      TakeBounds(cs, i, n, brk);
      TakeCoalesced(cs, i, n);
      hp := TakeUnits(prevp, p, n, i);
      freep := prevp;
      TakeHeaders(cs, live, brk, size0, size, i, n);
      TakeSeparate(cs, live, brk, i, n);
      TakeConserves(cs, live, core, i, n, brk);
      cs := Take(cs, i, n);
      fi := i;
      live := live[hp := n];
    }

    /** The first call of malloc: base becomes a list of its own. */
    method InitList()
      requires Valid() && freep == NULL
      modifies this`ptr, this`size, this`freep, this`fi
      ensures Valid() && freep == BASE && fi == 0 && |ptr| == |old(ptr)|
    {
      ptr := ptr[BASE := BASE];
      freep := BASE;
      size := size[BASE := 0];
      fi := 0;
    }

    /** morecore, seen from malloc: if it succeeds, something fits. */
    method Grow(nunits: nat) returns (p: nat)
      requires Valid() && freep != NULL
      modifies this`ptr, this`size, this`freep, this`cs, this`fi, this`brk, this`core
      ensures Valid() && freep != NULL && |ptr| == |old(ptr)| && fi <= |cs| && freep == Node(cs, fi) && brk <= |ptr|
      ensures p == NULL <==> old(brk) + AtLeast4096(nunits) > |ptr|
      ensures p == NULL ==> cs == old(cs) && brk == old(brk) && core == old(core) && freep == old(freep)
      ensures p != NULL ==>
                && p == freep && Fits(cs, nunits) && fi == Below(old(cs), old(brk))
                && Grew(old(cs), old(brk), old(core), cs, brk, core, AtLeast4096(nunits))
    {
      hide Heap.Valid, Insert, Range, Fits, AtLeast4096;
      InsertFits(cs, Chunk(brk, AtLeast4096(nunits)), nunits);
      p := Morecore(nunits);
      AtFreep(this);
    }

    /** malloc: the first chunk after freep that fits, or, when none does, units from morecore; 0 when the break cannot
        grow either.  The scan ends: each step comes closer to freep, and morecore is called at most once.  The next
        search starts before the chunk that has been taken from. */
    method Malloc(nbytes: nat) returns (ap: nat)
      requires Valid()
      modifies this
      ensures Valid() && freep != NULL && |ptr| == |old(ptr)|
      ensures var n := Units(nbytes);
              var nu := AtLeast4096(n);
              ap == NULL <==> !Fits(old(cs), n) && old(brk) + nu > |old(ptr)|
      ensures ap == NULL ==> cs == old(cs) && live == old(live) && core == old(core) && brk == old(brk)
      ensures ap == NULL ==> freep == if old(freep) == NULL then BASE else old(freep)
      ensures ap != NULL ==> ap - 1 !in old(live) && live == old(live)[ap - 1 := Units(nbytes)]
      ensures Fits(old(cs), Units(nbytes)) ==>
                && core == old(core) && brk == old(brk)
                && TookFirst(old(cs), old(fi), Units(nbytes), cs, fi, ap) && freep == Node(old(cs), fi)
      ensures ap != NULL && !Fits(old(cs), Units(nbytes)) ==>
                var nu := AtLeast4096(Units(nbytes));
                && brk == old(brk) + nu && core == old(core) + Range(old(brk), nu)
                && TookFirst(Insert(old(cs), Chunk(old(brk), nu)), Below(old(cs), old(brk)), Units(nbytes), cs, fi, ap)
                && freep == Node(Insert(old(cs), Chunk(old(brk), nu)), fi)
    {
      hide Heap.Valid, Rep, Coalesced, Insert, Range, Take, Taken, Scanned, Fits, Passed, FirstFit, TookFirst,
        AtLeast4096, Below;
      var nunits := Units(nbytes);
      var prevp := freep;
      NothingFits(this, nunits);
      if prevp == NULL {
        InitList();
        prevp := freep;
      }
      ghost var cs0, fi0, brk0, core0, freep0 := cs, fi, brk, core, freep;
      ghost var grown := false;
      ghost var j: nat := fi;
      AtFreep(this);
      AtNode(this, j);
      ScanStart(cs, fi, nunits);
      var p := ptr[prevp];
      while true
        invariant Valid() && freep != NULL && |ptr| == |old(ptr)| && live == old(live)
        invariant fi <= |cs| && freep == Node(cs, fi) && j <= |cs| && prevp == Node(cs, j) && p == NextNode(cs, j)
        invariant Scanned(cs, fi, j, nunits)
        invariant if grown
                  then !Fits(cs0, nunits) && Fits(cs, nunits) && fi == Below(cs0, brk0)
                      && Grew(cs0, brk0, core0, cs, brk, core, AtLeast4096(nunits))
                  else cs == cs0 && fi == fi0 && brk == brk0 && core == core0 && freep == freep0
        invariant brk <= |ptr|
        decreases if grown then 0 else 1, Distance(cs, NextIndex(cs, j), fi)
      {
        ghost var k := NextIndex(cs, j);
        AtNode(this, k);
        if size[p] >= nunits {
          FoundFits(cs, fi, j, nunits);
          var hp := Carve(prevp, p, nunits, j);
          return hp + 1;
        }
        ScanOn(cs, fi, j, nunits);
        if p == freep {
          SameNode(this, k);
          ScannedAll(cs, fi, j, nunits);
          p := Grow(nunits);
          if p == NULL {
            return NULL;
          }
          grown := true;
          k := fi;
          AtNode(this, k);
          ScanStart(cs, fi, nunits);
        }
        prevp := p;
        p := ptr[p];
        j := k;
      }
    }

    /** A program may store whatever it likes into the units of a block after its header. */
    method StorePayload(a: nat, u: nat, x: nat, y: nat)
      requires Valid() && InBlock(live, a, u) && u != a
      modifies this`ptr, this`size
      ensures Valid()
    {
      hide Conserved, Coalesced, Nonempty, Rep, Separate;
      PayloadIsNoHeader(cs, live, brk, a, u);
      if freep != NULL { StoreKeepsRep(ptr, size, cs, u, x, y); }
      ptr := ptr[u := x];
      size := size[u := y];
    }

    /** Other callers of sbrk move the break between two calls of morecore. */
    method SbrkElsewhere(units: nat)
      requires Valid() && brk + units <= |ptr|
      modifies this`brk
      ensures Valid() && brk == old(brk) + units
    {
      brk := brk + units;
    }
  }

  /** Node p of the list is the last below address a. */
  ghost predicate JustBelow(cs: seq<Chunk>, p: nat, a: nat) {
    && (p == BASE || exists i :: 0 <= i < |cs| && cs[i].addr == p)
    && p <= a && forall i | 0 <= i < |cs| && cs[i].addr <= a :: cs[i].addr <= p
  }

  lemma LastBelow(cs: seq<Chunk>, a: nat)
    requires Coalesced(cs) && BASE < a && forall i | 0 <= i < |cs| :: BASE < cs[i].addr
    ensures JustBelow(cs, Node(cs, Below(cs, a)), a)
  {
    BelowSplits(cs, a);
    var t := Below(cs, a);
    forall i | 0 <= i < |cs| && cs[i].addr <= a ensures cs[i].addr <= Node(cs, t) {
      assert i < t;
      assert i < t - 1 ==> End(cs[i]) < cs[t - 1].addr;
    }
    assert t > 0 ==> cs[t - 1].addr == Node(cs, t);
  }

  /** malloc twice: if the chunk that the first block came off still fits the second, the second ends where the first
      begins. */
  method MallocTwice(h: Heap, a: nat, b: nat) returns (p: nat, q: nat)
    requires h.Valid()
    modifies h
    ensures h.Valid()
    ensures forall i | 0 <= i < |old(h.cs)| && old(h.cs)[i].len >= Units(a) + Units(b)
        && p == End(old(h.cs)[i]) - Units(a) + 1 ::
              q == p - Units(b)
  {
    hide Heap.Valid, Coalesced, FirstFit, Range, Insert;
    ghost var cs, fi := h.cs, h.fi;
    CoalescedCs(h);
    p := h.Malloc(a);
    ghost var mid, mi := h.cs, h.fi;
    q := h.Malloc(b);
    forall i | 0 <= i < |cs| && cs[i].len >= Units(a) + Units(b) && p == End(cs[i]) - Units(a) + 1
      ensures q == p - Units(b)
    {
      TakenTwice(cs, fi, Units(a), mid, mi, Units(b), h.cs, h.fi, p, q, i);
    }
  }

  lemma CoalescedCs(h: Heap)
    requires h.Valid()
    ensures Coalesced(h.cs)
  {
  }

  lemma TakenTwice(cs: seq<Chunk>, f: nat, n: nat, mid: seq<Chunk>, mi: nat, m: nat, cs': seq<Chunk>, fi: nat, p: nat,
                   q: nat,
                   i: nat)
    requires Coalesced(cs) && i < |cs| && n > 0 && m > 0 && cs[i].len >= n + m && p == End(cs[i]) - n + 1
    requires Fits(cs, n) ==> TookFirst(cs, f, n, mid, mi, p)
    requires Fits(mid, m) ==> TookFirst(mid, mi, m, cs', fi, q)
    ensures q == p - m
  {
    assert Fits(cs, n);
    assert mi == i by {
      assert End(cs[mi]) == End(cs[i]);
    }
    assert mid[i] == Chunk(cs[i].addr, cs[i].len - n);
    assert Fits(mid, m);
    FirstFitMeans(mid, mi, m, fi);
  }

  /** morecore has put nu units at the old break into the list. */
  ghost predicate Grew(cs: seq<Chunk>, brk: nat, core: set<nat>, cs': seq<Chunk>, brk': nat, core': set<nat>, nu: nat) {
    cs' == Insert(cs, Chunk(brk, nu)) && brk' == brk + nu && core' == core + Range(brk, nu)
  }

  ghost predicate Fits(cs: seq<Chunk>, n: nat) {
    exists i :: 0 <= i < |cs| && cs[i].len >= n
  }

  function NextIndex(cs: seq<Chunk>, j: nat): (k: nat)
    ensures j <= |cs| ==> k <= |cs|
  {
    if j == |cs| then 0 else j + 1
  }

  /** Steps along the ring from node k to node f. */
  function Distance(cs: seq<Chunk>, k: nat, f: nat): int {
    if k <= f then f - k else |cs| + 1 - k + f
  }

  /** Node x comes after node f and not after node j on the way round. */
  predicate Passed(f: nat, j: nat, x: nat) {
    if f <= j then f < x <= j else x > f || x <= j
  }

  /** No chunk between node f and node j, going round, fits. */
  ghost predicate Scanned(cs: seq<Chunk>, f: nat, j: nat, n: nat) {
    forall i | 0 <= i < |cs| && Passed(f, j, i + 1) :: cs[i].len < n
  }

  /** Chunk i fits, and no chunk before it does when one starts after node f. */
  ghost predicate FirstFit(cs: seq<Chunk>, f: nat, n: nat, i: nat) {
    i < |cs| && cs[i].len >= n && Scanned(cs, f, i, n)
  }

  lemma ScanStart(cs: seq<Chunk>, f: nat, n: nat)
    ensures Scanned(cs, f, f, n)
  {
  }

  /** The block at ap is what came off chunk i, the first after node f that fits. */
  ghost predicate TookFirst(cs: seq<Chunk>, f: nat, n: nat, cs': seq<Chunk>, i: nat, ap: nat) {
    FirstFit(cs, f, n, i) && cs' == Take(cs, i, n) && ap == Taken(cs, i, n).addr + 1
  }

  /** The chunks from node f on, and then those from base on, up to chunk i: none of them fits. */
  lemma FirstFitMeans(cs: seq<Chunk>, f: nat, n: nat, i: nat)
    requires f <= |cs|
    ensures FirstFit(cs, f, n, i) <==>
              && i < |cs| && cs[i].len >= n
              && forall k | 0 <= k < |cs| && (if f <= i then f <= k < i else f <= k || k < i) :: cs[k].len < n
  {
  }

  lemma FoundFits(cs: seq<Chunk>, f: nat, i: nat, n: nat)
    requires i < |cs| && cs[i].len >= n && Scanned(cs, f, i, n)
    ensures Fits(cs, n)
    ensures TookFirst(cs, f, n, Take(cs, i, n), i, Taken(cs, i, n).addr + 1)
  {
  }

  lemma ScanOn(cs: seq<Chunk>, f: nat, j: nat, n: nat)
    requires j <= |cs| && f <= |cs| && Scanned(cs, f, j, n)
    requires j < |cs| ==> cs[j].len < n
    ensures NextIndex(cs, j) != f ==> Scanned(cs, f, NextIndex(cs, j), n)
  {
  }

  lemma ScannedAll(cs: seq<Chunk>, f: nat, j: nat, n: nat)
    requires j <= |cs| && f == NextIndex(cs, j) && Scanned(cs, f, j, n)
    requires j < |cs| ==> cs[j].len < n
    ensures !Fits(cs, n)
  {
    forall i | 0 <= i < |cs| ensures cs[i].len < n {
      if i != j {
        assert Passed(f, j, i + 1);
      }
    }
  }

  lemma SameNode(h: Heap, k: nat)
    requires h.Valid() && h.freep != NULL && k <= |h.cs| && h.freep == Node(h.cs, k)
    ensures h.fi == k
  {
    if h.fi < k { NodesSorted(h.cs, h.fi, k); } else if k < h.fi { NodesSorted(h.cs, k, h.fi); }
  }

  lemma AtNode(h: Heap, k: nat)
    requires h.Valid() && h.freep != NULL && k <= |h.cs|
    ensures Node(h.cs, k) < |h.ptr| && h.ptr[Node(h.cs, k)] == NextNode(h.cs, k) == Node(h.cs, NextIndex(h.cs, k))
    ensures Node(h.cs, k) < |h.size| && h.size[Node(h.cs, k)] == if k == 0 then 0 else h.cs[k - 1].len
  {
    NodeInRange(h.ptr, h.size, h.cs, k);
  }

  lemma AtFreep(h: Heap)
    requires h.Valid() && h.freep != NULL
    ensures h.fi <= |h.cs| && h.freep == Node(h.cs, h.fi) && h.brk <= |h.ptr|
  {
  }

  lemma NothingFits(h: Heap, n: nat)
    requires h.Valid()
    ensures h.freep == NULL ==> !Fits(h.cs, n)
  {
  }

  lemma InsertFits(cs: seq<Chunk>, b: Chunk, n: nat)
    requires b.len >= n
    ensures Fits(Insert(cs, b), n)
  {
    InsertJoins(cs, b);
    var t := Below(cs, b.addr);
    JoinedAt(cs, b, t);
    assert Joined(cs, b, t)[if TouchesDown(cs, b, t) then t - 1 else t].len >= n;
  }

  lemma StoreKeepsRep(ptr: seq<nat>, size: seq<nat>, cs: seq<Chunk>, u: nat, x: nat, y: nat)
    requires Rep(ptr, size, cs) && BASE < u < |ptr| && forall i | 0 <= i < |cs| :: cs[i].addr != u
    ensures |ptr| == |size| && Rep(ptr[u := x], size[u := y], cs)
  {
  }

  lemma PayloadIsNoHeader(cs: seq<Chunk>, live: map<nat, nat>, brk: nat, a: nat, u: nat)
    requires Separate(cs, live, brk) && Coalesced(cs) && InBlock(live, a, u) && u != a
    ensures BASE < u < brk && u !in live
    ensures forall i | 0 <= i < |cs| :: cs[i].addr != u
  {
    assert Apart(cs, Chunk(a, live[a]));
  }

  /** Where an address that is no node lies. */
  lemma Placing(cs: seq<Chunk>, bp: nat, j: nat)
    requires Coalesced(cs) && BASE < bp && j <= |cs|
    requires forall i | 0 <= i < |cs| :: cs[i].addr != bp && BASE < cs[i].addr
    ensures Below(cs, bp) <= |cs|
    ensures Node(cs, j) < bp <==> j <= Below(cs, bp)
    ensures j < |cs| ==> Node(cs, j) < NextNode(cs, j) && (bp < NextNode(cs, j) <==> Below(cs, bp) < j + 1)
  {
    BelowSplits(cs, bp);
    if j < |cs| { NodesSorted(cs, j, j + 1); }
  }

  lemma SameLength(ptr: seq<nat>, size: seq<nat>, cs: seq<Chunk>)
    requires Rep(ptr, size, cs)
    ensures |ptr| == |size|
  {
  }

  lemma TakeBounds(cs: seq<Chunk>, i: nat, n: nat, brk: nat)
    requires i < |cs| && 0 < n <= cs[i].len
    requires forall i | 0 <= i < |cs| :: BASE < cs[i].addr && End(cs[i]) <= brk
    ensures forall k | 0 <= k < |Take(cs, i, n)| :: BASE < Take(cs, i, n)[k].addr && End(Take(cs, i, n)[k]) <= brk
    ensures i <= |Take(cs, i, n)| && Node(Take(cs, i, n), i) == Node(cs, i) != NULL
  {
  }

  lemma RemovedNode(cs: seq<Chunk>, i: nat, j: nat)
    requires i < |cs| && j < |cs|
    ensures var ds := Take(cs, i, cs[i].len);
            var o := if j <= i then j else j + 1;
            && |ds| == |cs| - 1 && Node(ds, j) == Node(cs, o)
            && NextNode(ds, j) == (if j == i then NextNode(cs, i + 1) else NextNode(cs, o))
            && (j > 0 ==> ds[j - 1] == cs[o - 1])
  {
  }

  lemma RemovedNodeOk(ptr: seq<nat>, size: seq<nat>, cs: seq<Chunk>, i: nat, j: nat)
    requires Rep(ptr, size, cs) && Coalesced(cs) && i < |cs| && j < |cs|
    ensures Node(cs, i) < |ptr| == |size| && cs[i].addr < |ptr|
    ensures var ds := Take(cs, i, cs[i].len);
            var ptr' := ptr[Node(cs, i) := ptr[cs[i].addr]];
            && j <= |ds| && BASE <= Node(ds, j) < |ptr| && ptr'[Node(ds, j)] == NextNode(ds, j)
            && (j > 0 ==> BASE < Node(ds, j) && size[Node(ds, j)] == ds[j - 1].len)
  {
    hide Take, Rep;
    var o := if j <= i then j else j + 1;
    SameLength(ptr, size, cs);
    NodeInRange(ptr, size, cs, i);
    NodeInRange(ptr, size, cs, i + 1);
    RemovedNode(cs, i, j);
    NodeInRange(ptr, size, cs, o);
    NodesAbove(ptr, size, cs);
    if o < i { NodesSorted(cs, o, i); } else if o > i { NodesSorted(cs, i, o); }
  }

  lemma NodesAbove(ptr: seq<nat>, size: seq<nat>, cs: seq<Chunk>)
    requires Rep(ptr, size, cs)
    ensures forall k | 0 <= k < |cs| :: BASE < cs[k].addr
    ensures BASE < |ptr| && size[BASE] == 0
  {
  }

  lemma MakeRep(ptr: seq<nat>, size: seq<nat>, cs: seq<Chunk>)
    requires BASE < |ptr| == |size| && size[BASE] == 0
    requires forall j | 0 <= j <= |cs| :: Node(cs, j) < |ptr| && ptr[Node(cs, j)] == NextNode(cs, j)
    requires forall k | 0 <= k < |cs| :: BASE < cs[k].addr < |ptr| && size[cs[k].addr] == cs[k].len
    ensures Rep(ptr, size, cs)
  {
  }

  lemma TakeAllRep(ptr: seq<nat>, size: seq<nat>, cs: seq<Chunk>, i: nat)
    requires Rep(ptr, size, cs) && Coalesced(cs) && i < |cs|
    ensures Node(cs, i) < |ptr| && cs[i].addr < |ptr|
    ensures Rep(ptr[Node(cs, i) := ptr[cs[i].addr]], size, Take(cs, i, cs[i].len))
  {
    hide Take, Coalesced, Nonempty, Rep;
    var ds := Take(cs, i, cs[i].len);
    RemovedNode(cs, i, 0);
    RemovedNodeOk(ptr, size, cs, i, 0);
    NodesAbove(ptr, size, cs);
    var ptr' := ptr[Node(cs, i) := ptr[cs[i].addr]];
    forall j | 0 <= j <= |ds| ensures Node(ds, j) < |ptr'| && ptr'[Node(ds, j)] == NextNode(ds, j) {
      RemovedNodeOk(ptr, size, cs, i, j);
    }
    forall k | 0 <= k < |ds| ensures BASE < ds[k].addr < |ptr'| && size[ds[k].addr] == ds[k].len {
      RemovedNodeOk(ptr, size, cs, i, k + 1);
    }
    MakeRep(ptr', size, ds);
  }

  lemma TakeTailRep(ptr: seq<nat>, size: seq<nat>, cs: seq<Chunk>, i: nat, n: nat)
    requires Rep(ptr, size, cs) && Coalesced(cs) && i < |cs| && 0 < n < cs[i].len && End(cs[i]) <= |ptr|
    ensures Rep(ptr, size[cs[i].addr := cs[i].len - n][End(cs[i]) - n := n], Take(cs, i, n))
  {
    var ds := Take(cs, i, n);
    forall j | 0 <= j <= |ds| ensures Node(ds, j) == Node(cs, j) && NextNode(ds, j) == NextNode(cs, j) {
    }
    forall k | 0 <= k < |cs| && k != i ensures cs[k].addr != cs[i].addr && cs[k].addr != End(cs[i]) - n {
      if k < i { assert End(cs[k]) < cs[i].addr; } else { assert End(cs[i]) < cs[k].addr; }
    }
  }

  lemma TakeHeaders(cs: seq<Chunk>, live: map<nat, nat>, brk: nat, size: seq<nat>, size': seq<nat>, i: nat, n: nat)
    requires Coalesced(cs) && Separate(cs, live, brk) && Headers(size, live) && i < |cs| && 0 < n <= cs[i].len
    requires |size'| == |size| && End(cs[i]) <= |size|
    requires forall u | 0 <= u < |size| && u != cs[i].addr && u != Taken(cs, i, n).addr :: size'[u] == size[u]
    requires size'[Taken(cs, i, n).addr] == n
    ensures Headers(size', live[Taken(cs, i, n).addr := n])
    ensures Taken(cs, i, n).addr !in live
  {
    forall a | a in live ensures a != cs[i].addr && a != Taken(cs, i, n).addr {
      assert Apart(cs, Chunk(a, live[a]));
    }
  }

  lemma TakeSeparate(cs: seq<Chunk>, live: map<nat, nat>, brk: nat, i: nat, n: nat)
    requires Coalesced(cs) && Separate(cs, live, brk) && i < |cs| && 0 < n <= cs[i].len
    requires BASE < cs[i].addr && End(cs[i]) <= brk
    ensures Separate(Take(cs, i, n), live[Taken(cs, i, n).addr := n], brk)
  {
    var b := Taken(cs, i, n);
    TakeCoalesced(cs, i, n);
    forall a | a in live
      ensures Apart(Take(cs, i, n), Chunk(a, live[a])) && Apart([b], Chunk(a, live[a])) && a != b.addr
    {
      assert Apart(cs, Chunk(a, live[a]));
      assert End(cs[i]) <= a || a + live[a] <= cs[i].addr;
      TakeIsConcat(cs, i, n);
    }
    assert [b][0] == b;
  }

  lemma TakeConserves(cs: seq<Chunk>, live: map<nat, nat>, core: set<nat>, i: nat, n: nat, brk: nat)
    requires Coalesced(cs) && Separate(cs, live, brk) && Conserved(cs, live, core) && i < |cs| && 0 < n <= cs[i].len
    ensures Conserved(Take(cs, i, n), live[Taken(cs, i, n).addr := n], core)
  {
    hide Take;
    var b := Taken(cs, i, n);
    var live' := live[b.addr := n];
    assert b.addr in live ==> Apart(cs, Chunk(b.addr, live[b.addr]));
    assert b.addr !in live;
    forall u: nat ensures u in core <==> Has(Take(cs, i, n), u) || LiveHas(live', u) {
      TakeHas(cs, i, n, u);
      if LiveHas(live, u) {
        var a :| InBlock(live, a, u);
        assert InBlock(live', a, u);
      }
      if LiveHas(live', u) {
        var a :| InBlock(live', a, u);
        assert a != b.addr ==> InBlock(live, a, u);
      }
      if Covers(b, u) {
        assert InBlock(live', b.addr, u);
      }
    }
  }

  function AtLeast4096(units: nat): (r: nat)
    ensures r >= units && r >= 4096 && (r == units || r == 4096)
  {
    if units < MIN_UNITS then MIN_UNITS else units
  }

  ghost function Range(a: nat, n: nat): set<nat> {
    set u | a <= u < a + n && Covers(Chunk(a, n), u)
  }

  /** Storing into list nodes leaves the headers of live blocks alone. */
  lemma HeadersKept(cs: seq<Chunk>, live: map<nat, nat>, brk: nat, size: seq<nat>, size': seq<nat>, t: nat, bp: nat)
    requires Separate(cs, live, brk) && Coalesced(cs) && t <= |cs| && |size| == |size'|
    requires forall a | a in live && a != bp :: a < |size| && size[a] == live[a]
    requires forall u | 0 <= u < |size| && u != bp && u != Node(cs, t) :: size'[u] == size[u]
    ensures Headers(size', live - {bp})
  {
    forall a | a in live && a != bp ensures a != Node(cs, t) {
      if t > 0 {
        assert cs[t - 1].len > 0 && Apart(cs, Chunk(a, live[a]));
      }
    }
  }

  lemma FreeKeepsSeparate(cs: seq<Chunk>, live: map<nat, nat>, brk: nat, b: Chunk)
    requires Coalesced(cs) && Separate(cs, live, brk) && b.addr in live && b.len == live[b.addr]
    ensures Separate(Insert(cs, b), live - {b.addr}, brk)
  {
    hide Insert;
    forall a | a in live && a != b.addr ensures Apart(Insert(cs, b), Chunk(a, live[a])) {
      assert [b][0] == b;
      StaysApart(cs, b, Chunk(a, live[a]));
    }
  }

  lemma MoreKeepsSeparate(cs: seq<Chunk>, live: map<nat, nat>, b: Chunk)
    requires Coalesced(cs) && Separate(cs, live, b.addr) && b.len > 0
    requires Apart(cs, b)
    ensures Separate(Insert(cs, b), live, End(b))
    ensures live - {b.addr} == live
  {
    hide Insert;
    forall a | a in live ensures Apart(Insert(cs, b), Chunk(a, live[a])) {
      assert [b][0] == b;
      StaysApart(cs, b, Chunk(a, live[a]));
    }
  }

  lemma FreeConserves(cs: seq<Chunk>, live: map<nat, nat>, core: set<nat>, b: Chunk)
    requires Conserved(cs, live, core) && b.addr in live && b.len == live[b.addr]
    ensures Conserved(Insert(cs, b), live - {b.addr}, core)
  {
    hide Insert;
    var live' := live - {b.addr};
    forall u: nat ensures u in core <==> Has(Insert(cs, b), u) || LiveHas(live', u) {
      InsertHas(cs, b, u);
      if LiveHas(live, u) {
        var a :| InBlock(live, a, u);
        assert a != b.addr ==> InBlock(live', a, u);
      }
      if LiveHas(live', u) {
        var a :| InBlock(live', a, u);
        assert InBlock(live, a, u);
      }
      if Covers(b, u) {
        assert InBlock(live, b.addr, u);
      }
    }
  }

  lemma MoreConserves(cs: seq<Chunk>, live: map<nat, nat>, core: set<nat>, b: Chunk)
    requires Conserved(cs, live, core)
    ensures Conserved(Insert(cs, b), live, core + Range(b.addr, b.len))
  {
    hide Insert;
    forall u: nat ensures u in core + Range(b.addr, b.len) <==> Has(Insert(cs, b), u) || LiveHas(live, u) {
      InsertHas(cs, b, u);
    }
  }

  lemma HeadersBelow(live: map<nat, nat>, size: seq<nat>, hp: nat, nu: nat, cs: seq<Chunk>)
    requires Headers(size, live) && Separate(cs, live, hp) && hp < |size|
    ensures forall a | a in live && a != hp :: a < |size| && size[hp := nu][a] == live[a]
  {
  }

  lemma FreshHeader(ptr: seq<nat>, size: seq<nat>, cs: seq<Chunk>, hp: nat, nu: nat)
    requires Rep(ptr, size, cs) && hp < |size| && BASE < hp
    requires Coalesced(cs) && forall i | 0 <= i < |cs| :: End(cs[i]) <= hp
    ensures Rep(ptr, size[hp := nu], cs)
    ensures Apart(cs, Chunk(hp, nu))
  {
  }

  lemma StoredSize(ptr: seq<nat>, size: seq<nat>, ptr': seq<nat>, size': seq<nat>, cs: seq<Chunk>, b: Chunk, t: nat)
    requires Rep(ptr, size, cs) && b.addr < |ptr| && t <= |cs| && Stored(ptr, size, ptr', size', cs, b, t)
    ensures |ptr'| == |size'| == |ptr| == |size|
    ensures forall u | 0 <= u < |size| && u != b.addr && u != Node(cs, t) :: size'[u] == size[u]
  {
  }

  /** After the stores of free, memory holds the list with the block inserted. */
  lemma InsertRep(ptr: seq<nat>, size: seq<nat>, ptr': seq<nat>, size': seq<nat>, cs: seq<Chunk>, b: Chunk, brk: nat)
    requires Coalesced(cs) && Rep(ptr, size, cs) && BASE < b.addr < |ptr| && b.len > 0 && Apart(cs, b) && End(b) <= brk
    requires forall i | 0 <= i < |cs| :: BASE < cs[i].addr && End(cs[i]) <= brk
    requires Stored(ptr, size, ptr', size', cs, b, Below(cs, b.addr))
    ensures Rep(ptr', size', Insert(cs, b)) && Coalesced(Insert(cs, b))
    ensures forall i | 0 <= i < |Insert(cs, b)| :: BASE < Insert(cs, b)[i].addr && End(Insert(cs, b)[i]) <= brk
    ensures var t := Below(cs, b.addr); t <= |Insert(cs, b)| && Node(Insert(cs, b), t) == Node(cs, t)
  {
    hide Rep, Coalesced, Nonempty, Apart, Insert, Joined, Stored;
    JoinedRep(ptr, size, ptr', size', cs, b, Below(cs, b.addr));
    InsertJoins(cs, b);
    InsertCoalesced(cs, b);
    JoinedKeeps(cs, b, Below(cs, b.addr), brk);
  }

  lemma NotThere(cs: seq<Chunk>, b: Chunk)
    requires Coalesced(cs) && Apart(cs, b) && b.len > 0
    ensures forall i | 0 <= i < |cs| :: cs[i].addr != b.addr
  {
  }

  /** The joined list stays below the break, and its predecessor node stays where it was. */
  lemma JoinedKeeps(cs: seq<Chunk>, b: Chunk, t: nat, brk: nat)
    requires t <= |cs| && BASE < b.addr && End(b) <= brk
    requires forall i | 0 <= i < |cs| :: BASE < cs[i].addr && End(cs[i]) <= brk
    ensures forall i | 0 <= i < |Joined(cs, b, t)| :: BASE < Joined(cs, b, t)[i].addr && End(Joined(cs, b, t)[i]) <= brk
    ensures t <= |Joined(cs, b, t)| && Node(Joined(cs, b, t), t) == Node(cs, t)
  {
    JoinedAt(cs, b, t);
  }
}
