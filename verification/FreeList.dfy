/** The free list of umalloc.c as a value: chunks in address order, never touching. */
module FreeList {
  /** len header units starting at unit addr. */
  datatype Chunk = Chunk(addr: nat, len: nat)

  function End(c: Chunk): nat {
    c.addr + c.len
  }

  predicate Nonempty(cs: seq<Chunk>) {
    forall i | 0 <= i < |cs| :: cs[i].len > 0
  }

  /** Address-sorted, pairwise disjoint and fully coalesced. */
  predicate Coalesced(cs: seq<Chunk>) {
    && Nonempty(cs)
    && (forall i, j | 0 <= i < j < |cs| :: End(cs[i]) < cs[j].addr)
  }

  ghost predicate Covers(c: Chunk, u: nat) {
    c.addr <= u < End(c)
  }

  /** Unit u belongs to one of the chunks. */
  ghost predicate Has(cs: seq<Chunk>, u: nat) {
    exists i :: 0 <= i < |cs| && Covers(cs[i], u)
  }

  ghost predicate SameUnits(cs: seq<Chunk>, ds: seq<Chunk>) {
    forall u: nat :: Has(cs, u) <==> Has(ds, u)
  }

  ghost predicate Apart(cs: seq<Chunk>, b: Chunk) {
    forall i | 0 <= i < |cs| :: End(cs[i]) <= b.addr || End(b) <= cs[i].addr
  }

  /** How many chunks lie below an address. */
  function Below(cs: seq<Chunk>, a: nat): (t: nat)
    ensures t <= |cs|
  {
    if cs == [] || cs[0].addr > a then 0 else 1 + Below(cs[1..], a)
  }

  lemma {:induction false} BelowSplits(cs: seq<Chunk>, a: nat)
    requires Coalesced(cs)
    ensures forall i | 0 <= i < Below(cs, a) :: cs[i].addr <= a
    ensures forall i | Below(cs, a) <= i < |cs| :: a < cs[i].addr
  {
    if cs != [] {
      if cs[0].addr <= a {
        BelowSplits(cs[1..], a);
        forall i | 0 <= i < Below(cs, a) ensures cs[i].addr <= a {
          if i > 0 { assert cs[i] == cs[1..][i - 1]; }
        }
        forall i | Below(cs, a) <= i < |cs| ensures a < cs[i].addr {
          assert cs[i] == cs[1..][i - 1];
        }
      }
    }
  }

  /** free: merge with the chunk above, then with the one below. */
  function MergeUp(b: Chunk, right: seq<Chunk>): seq<Chunk> {
    if right != [] && End(b) == right[0].addr then [Chunk(b.addr, b.len + right[0].len)] + right[1..] else [b] + right
  }

  function MergeDown(left: seq<Chunk>, right: seq<Chunk>): seq<Chunk>
    requires right != []
  {
    if left != [] && End(left[|left| - 1]) == right[0].addr
    then left[..|left| - 1] + [Chunk(left[|left| - 1].addr, left[|left| - 1].len + right[0].len)] + right[1..]
    else left + right
  }

  function Insert(cs: seq<Chunk>, b: Chunk): seq<Chunk> {
    var t := Below(cs, b.addr);
    MergeDown(cs[..t], MergeUp(b, cs[t..]))
  }

  /** malloc: units come off the end of a chunk. */
  function Take(cs: seq<Chunk>, i: nat, n: nat): seq<Chunk>
    requires i < |cs| && n <= cs[i].len
  {
    if cs[i].len == n then cs[..i] + cs[i + 1..] else cs[i := Chunk(cs[i].addr, cs[i].len - n)]
  }

  function Taken(cs: seq<Chunk>, i: nat, n: nat): Chunk
    requires i < |cs| && n <= cs[i].len
  {
    Chunk(End(cs[i]) - n, n)
  }

  // ---- what the operations do to the set of free units ------------------------------------------------------

  lemma HasAt(cs: seq<Chunk>, i: nat, u: nat)
    requires i < |cs| && Covers(cs[i], u)
    ensures Has(cs, u)
  {
  }

  lemma HasConcat(cs: seq<Chunk>, ds: seq<Chunk>, u: nat)
    ensures Has(cs + ds, u) <==> Has(cs, u) || Has(ds, u)
  {
    if Has(cs, u) {
      var i :| 0 <= i < |cs| && Covers(cs[i], u);
      HasAt(cs + ds, i, u);
    }
    if Has(ds, u) {
      var i :| 0 <= i < |ds| && Covers(ds[i], u);
      HasAt(cs + ds, |cs| + i, u);
    }
    if Has(cs + ds, u) {
      var i :| 0 <= i < |cs + ds| && Covers((cs + ds)[i], u);
      if i < |cs| { HasAt(cs, i, u); } else { HasAt(ds, i - |cs|, u); }
    }
  }

  lemma HasOne(c: Chunk, u: nat)
    ensures Has([c], u) <==> Covers(c, u)
  {
    if Covers(c, u) {
      HasAt([c], 0, u);
    }
  }

  lemma HasSplit(cs: seq<Chunk>, t: nat, u: nat)
    requires t <= |cs|
    ensures Has(cs, u) <==> Has(cs[..t], u) || Has(cs[t..], u)
  {
    assert cs == cs[..t] + cs[t..];
    HasConcat(cs[..t], cs[t..], u);
  }

  lemma MergeUpHas(b: Chunk, right: seq<Chunk>, u: nat)
    ensures Has(MergeUp(b, right), u) <==> Covers(b, u) || Has(right, u)
  {
    if right != [] && End(b) == right[0].addr {
      var c := Chunk(b.addr, b.len + right[0].len);
      HasConcat([c], right[1..], u);
      HasOne(c, u);
      HasSplit(right, 1, u);
      assert right[..1] == [right[0]];
      HasOne(right[0], u);
    } else {
      HasConcat([b], right, u);
      HasOne(b, u);
    }
  }

  lemma MergeDownHas(left: seq<Chunk>, right: seq<Chunk>, u: nat)
    requires right != []
    ensures Has(MergeDown(left, right), u) <==> Has(left, u) || Has(right, u)
  {
    if left != [] && End(left[|left| - 1]) == right[0].addr {
      var l, r := left[|left| - 1], right[0];
      var c := Chunk(l.addr, l.len + r.len);
      HasConcat(left[..|left| - 1] + [c], right[1..], u);
      HasConcat(left[..|left| - 1], [c], u);
      HasOne(c, u);
      HasSplit(left, |left| - 1, u);
      assert left[|left| - 1..] == [l];
      HasOne(l, u);
      HasSplit(right, 1, u);
      assert right[..1] == [r];
      HasOne(r, u);
    } else {
      HasConcat(left, right, u);
    }
  }

  /** Freeing adds exactly the units of the block. */
  lemma InsertHas(cs: seq<Chunk>, b: Chunk, u: nat)
    ensures Has(Insert(cs, b), u) <==> Has(cs, u) || Covers(b, u)
  {
    var t := Below(cs, b.addr);
    MergeUpHas(b, cs[t..], u);
    MergeDownHas(cs[..t], MergeUp(b, cs[t..]), u);
    HasSplit(cs, t, u);
  }

  /** Freeing keeps the list sorted, disjoint and fully coalesced. */
  lemma InsertCoalesced(cs: seq<Chunk>, b: Chunk)
    requires Coalesced(cs) && Apart(cs, b) && b.len > 0
    ensures Coalesced(Insert(cs, b))
  {
    BelowSplits(cs, b.addr);
    var t := Below(cs, b.addr);
    var left, right := cs[..t], cs[t..];
    forall i | 0 <= i < |left| ensures End(left[i]) <= b.addr {
      assert left[i] == cs[i];
      assert cs[i].len > 0;
    }
    MergeUpCoalesced(b, right);
    MergeDownCoalesced(left, MergeUp(b, right));
  }

  lemma MergeUpCoalesced(b: Chunk, right: seq<Chunk>)
    requires Coalesced(right) && b.len > 0
    requires forall i | 0 <= i < |right| :: End(b) <= right[i].addr
    ensures Coalesced(MergeUp(b, right))
    ensures MergeUp(b, right)[0].addr == b.addr
  {
  }

  lemma MergeDownCoalesced(left: seq<Chunk>, right: seq<Chunk>)
    requires Coalesced(left) && Coalesced(right) && right != []
    requires forall i | 0 <= i < |left| :: End(left[i]) <= right[0].addr
    ensures Coalesced(MergeDown(left, right))
  {
    var r := MergeDown(left, right);
    if left != [] && End(left[|left| - 1]) == right[0].addr {
      var m := |left| - 1;
      assert forall i | 0 <= i < m :: r[i] == left[i];
      assert forall i | m < i < |r| :: r[i] == right[i - m];
    }
  }

  lemma TakeCoalesced(cs: seq<Chunk>, i: nat, n: nat)
    requires Coalesced(cs) && i < |cs| && 0 < n <= cs[i].len
    ensures Coalesced(Take(cs, i, n))
    ensures Apart(Take(cs, i, n), Taken(cs, i, n))
  {
  }

  /** Allocating removes exactly the units of the block. */
  lemma TakeHas(cs: seq<Chunk>, i: nat, n: nat, u: nat)
    requires Coalesced(cs) && i < |cs| && 0 < n <= cs[i].len
    ensures Has(cs, u) <==> Has(Take(cs, i, n), u) || Covers(Taken(cs, i, n), u)
    ensures !(Has(Take(cs, i, n), u) && Covers(Taken(cs, i, n), u))
  {
    var c := cs[i];
    var kept := if c.len == n then [] else [Chunk(c.addr, c.len - n)];
    TakeIsConcat(cs, i, n);
    HasSplit(cs, i, u);
    HasSplit(cs[i..], 1, u);
    assert cs[i..][..1] == [c] && cs[i..][1..] == cs[i + 1..];
    HasOne(c, u);
    HasConcat(cs[..i] + kept, cs[i + 1..], u);
    HasConcat(cs[..i], kept, u);
    if c.len != n { HasOne(kept[0], u); }
    if Has(cs[..i], u) {
      var j :| 0 <= j < i && Covers(cs[..i][j], u);
      assert cs[..i][j] == cs[j];
    }
    if Has(cs[i + 1..], u) {
      var j :| 0 <= j < |cs[i + 1..]| && Covers(cs[i + 1..][j], u);
      assert cs[i + 1..][j] == cs[i + 1 + j];
    }
  }

  lemma TakeIsConcat(cs: seq<Chunk>, i: nat, n: nat)
    requires i < |cs| && n <= cs[i].len
    ensures Take(cs, i, n)
        == cs[..i] + (if cs[i].len == n then [] else [Chunk(cs[i].addr, cs[i].len - n)]) + cs[i + 1..]
  {
  }

  // ---- the list is determined by the set of free units ------------------------------------------------------

  lemma NotBefore(cs: seq<Chunk>, u: nat)
    requires Coalesced(cs) && cs != [] && u < cs[0].addr
    ensures !Has(cs, u)
  {
  }

  lemma NotAfterFirst(cs: seq<Chunk>)
    requires Coalesced(cs) && cs != []
    ensures !Has(cs, End(cs[0]))
  {
  }

  lemma FirstChunkSame(cs: seq<Chunk>, ds: seq<Chunk>)
    requires Coalesced(cs) && Coalesced(ds) && SameUnits(cs, ds) && cs != []
    ensures ds != [] && ds[0] == cs[0]
  {
    HasAt(cs, 0, cs[0].addr);
    assert Has(ds, cs[0].addr);
    HasAt(ds, 0, ds[0].addr);
    assert Has(cs, ds[0].addr);
    if ds[0].addr < cs[0].addr { NotBefore(cs, ds[0].addr); }
    if cs[0].addr < ds[0].addr { NotBefore(ds, cs[0].addr); }
    var c, d := cs[0], ds[0];
    NotAfterFirst(cs);
    NotAfterFirst(ds);
    assert End(c) < End(d) ==> Covers(d, End(c));
    assert End(d) < End(c) ==> Covers(c, End(d));
  }

  lemma TailHas(cs: seq<Chunk>, u: nat)
    requires Coalesced(cs) && cs != []
    ensures Coalesced(cs[1..])
    ensures Has(cs[1..], u) <==> Has(cs, u) && !Covers(cs[0], u)
  {
    HasSplit(cs, 1, u);
    assert cs[..1] == [cs[0]];
    HasOne(cs[0], u);
    if Has(cs[1..], u) {
      var i :| 0 <= i < |cs[1..]| && Covers(cs[1..][i], u);
      assert cs[1..][i] == cs[1 + i];
    }
  }

  /** Normal form: the set of free units alone determines the free list, whatever the history of malloc and free. */
  lemma {:induction false} Canonical(cs: seq<Chunk>, ds: seq<Chunk>)
    requires Coalesced(cs) && Coalesced(ds) && SameUnits(cs, ds)
    ensures cs == ds
  {
    if cs == [] {
      if ds != [] {
        FirstChunkSame(ds, cs);
      }
    } else {
      FirstChunkSame(cs, ds);
      forall u: nat ensures Has(cs[1..], u) <==> Has(ds[1..], u) {
        TailHas(cs, u);
        TailHas(ds, u);
        assert Has(cs, u) <==> Has(ds, u);
      }
      TailHas(cs, 0);
      TailHas(ds, 0);
      Canonical(cs[1..], ds[1..]);
    }
  }

  /** free undoes malloc: giving a block back restores the free list as it was. */
  lemma FreeUndoesMalloc(cs: seq<Chunk>, i: nat, n: nat)
    requires Coalesced(cs) && i < |cs| && 0 < n <= cs[i].len
    ensures Insert(Take(cs, i, n), Taken(cs, i, n)) == cs
  {
    var ds, b := Take(cs, i, n), Taken(cs, i, n);
    TakeCoalesced(cs, i, n);
    InsertCoalesced(ds, b);
    forall u: nat ensures Has(Insert(ds, b), u) <==> Has(cs, u) {
      InsertHas(ds, b, u);
      TakeHas(cs, i, n, u);
    }
    Canonical(Insert(ds, b), cs);
  }

  /** The order in which two blocks are freed leaves no trace in the list. */
  lemma FreesCommute(cs: seq<Chunk>, a: Chunk, b: Chunk)
    requires Coalesced(cs) && Apart(cs, a) && Apart(cs, b) && Apart([a], b) && a.len > 0 && b.len > 0
    ensures Insert(Insert(cs, a), b) == Insert(Insert(cs, b), a)
  {
    InsertCoalesced(cs, a);
    InsertCoalesced(cs, b);
    StaysApart(cs, a, b);
    assert [a][0] == a;
    assert Apart([b], a);
    StaysApart(cs, b, a);
    InsertCoalesced(Insert(cs, a), b);
    InsertCoalesced(Insert(cs, b), a);
    forall u: nat ensures Has(Insert(Insert(cs, a), b), u) <==> Has(Insert(Insert(cs, b), a), u) {
      InsertHas(cs, a, u);
      InsertHas(cs, b, u);
      InsertHas(Insert(cs, a), b, u);
      InsertHas(Insert(cs, b), a, u);
    }
    Canonical(Insert(Insert(cs, a), b), Insert(Insert(cs, b), a));
  }

  lemma StaysApart(cs: seq<Chunk>, a: Chunk, b: Chunk)
    requires Coalesced(cs) && Apart(cs, a) && Apart(cs, b) && Apart([a], b) && a.len > 0 && b.len > 0
    ensures Apart(Insert(cs, a), b)
  {
    var ds := Insert(cs, a);
    InsertCoalesced(cs, a);
    assert [a][0] == a;
    forall i | 0 <= i < |ds| ensures End(ds[i]) <= b.addr || End(b) <= ds[i].addr {
      if ds[i].addr < End(b) && b.addr < End(ds[i]) {
        var u := if ds[i].addr < b.addr then b.addr else ds[i].addr;
        HasAt(ds, i, u);
        InsertHas(cs, a, u);
      }
    }
  }
}
