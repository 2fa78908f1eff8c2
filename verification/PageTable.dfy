/** Two-level page tables (vm.c; 32-bit paging, section 4.3 of the Intel SDM Volume 3A) as a value: page directories,
    the page tables that they point to, and what every frame in use is for.  Virtual addresses are page numbers, of
    which the first USER belong to the process. */
module PageTable {
  const ENTRIES: nat := 1024
  const PAGES: nat := 0x10_0000
  /** The page number of KERNBASE. */
  const USER: nat := 0x8_0000

  /** An entry of a directory or table: the frame, PTE_P, and the other flag bits. */
  datatype Pte = Pte(ppn: nat, present: bool, flags: nat)

  const EMPTY: Pte := Pte(0, false, 0)

  /** What a frame in use is for. */
  datatype Place = Directory | Table(dir: nat, pdx: nat) | Page(dir: nat, vpn: nat) | Elsewhere

  /** The directories, the contents of every directory and table, and the frames in use. */
  datatype Mem = Mem(dirs: set<nat>, tables: map<nat, seq<Pte>>, owner: map<nat, Place>)

  ghost predicate Shape(m: Mem) {
    && (forall f | f in m.tables :: |m.tables[f]| == ENTRIES)
    && m.dirs <= m.tables.Keys
  }

  function PdeAt(m: Mem, d: nat, i: nat): Pte
    requires Shape(m) && d in m.dirs && i < ENTRIES
  {
    m.tables[d][i]
  }

  /** The flat map that a directory stands for. */
  function PteAt(m: Mem, d: nat, v: nat): Pte
    requires Shape(m) && d in m.dirs && v < PAGES
  {
    var pde := PdeAt(m, d, v / ENTRIES);
    if pde.present && pde.ppn in m.tables then m.tables[pde.ppn][v % ENTRIES] else EMPTY
  }

  ghost predicate PdeOk(m: Mem, d: nat, i: nat)
    requires Shape(m) && d in m.dirs && i < ENTRIES
  {
    var pde := PdeAt(m, d, i);
    pde.present ==> pde.ppn in m.owner && m.owner[pde.ppn] == Table(d, i) && pde.ppn in m.tables && pde.ppn !in m.dirs
  }

  ghost predicate PteOk(m: Mem, d: nat, v: nat)
    requires Shape(m) && d in m.dirs && v < PAGES
  {
    var pte := PteAt(m, d, v);
    && (!pte.present ==> pte == EMPTY)
    && (pte.present && v < USER ==> pte.ppn in m.owner && m.owner[pte.ppn] == Page(d, v))
  }

  ghost predicate FrameOk(m: Mem, f: nat)
    requires Shape(m) && f in m.owner
  {
    match m.owner[f]
    case Directory => f in m.dirs
    case Table(d, i) => d in m.dirs && i < ENTRIES && PdeAt(m, d, i).present && PdeAt(m, d, i).ppn == f
    case Page(d, v) => d in m.dirs && v < USER && PteAt(m, d, v).present && PteAt(m, d, v).ppn == f
    case Elsewhere => true
  }

  /** Every frame in use is reached in exactly one way. */
  ghost predicate Sound(m: Mem) {
    && Shape(m)
    && (forall d | d in m.dirs :: d in m.owner && m.owner[d] == Directory)
    && (forall d: nat, i: nat | d in m.dirs && i < ENTRIES :: PdeOk(m, d, i))
    && (forall d: nat, v: nat | d in m.dirs && v < PAGES :: PteOk(m, d, v))
    && (forall f: nat | f in m.owner :: FrameOk(m, f))
  }

  /** A frame that has been allocated and is not yet linked, or is unlinked and not yet freed. */
  ghost predicate Spare(m: Mem, f: nat) {
    f in m.owner && m.owner[f] == Elsewhere
  }

  /** All that the directories map, except pages lo to hi of d, is as it was. */
  ghost predicate SameMaps(m: Mem, m': Mem, d: nat, lo: nat, hi: nat) {
    && Shape(m) && Shape(m')
    && forall d': nat, v: nat | d' in m.dirs && d' in m'.dirs && v < PAGES && !(d' == d && lo <= v < hi) ::
         PteAt(m', d', v) == PteAt(m, d', v)
  }

  lemma SameMapsSelf(m: Mem, d: nat)
    requires Shape(m)
    ensures SameMaps(m, m, d, 0, 0)
  {
  }

  /** Changes to pages lo to mid, then to others up to hi. */
  lemma SameMapsTrans(m0: Mem, m1: Mem, m2: Mem, d: nat, lo: nat, mid: nat, mid': nat, hi: nat)
    requires SameMaps(m0, m1, d, lo, mid) && SameMaps(m1, m2, d, mid', hi) && m0.dirs == m1.dirs
    requires lo <= mid' <= mid <= hi || lo == mid || mid' >= hi
    ensures lo <= mid' <= mid <= hi ==> SameMaps(m0, m2, d, lo, hi)
    ensures lo == mid ==> SameMaps(m0, m2, d, mid', hi)
    ensures mid' >= hi ==> SameMaps(m0, m2, d, lo, mid)
  {
    hide PteAt, Shape;
  }

  lemma SoundShape(m: Mem)
    requires Sound(m)
    ensures Shape(m) && forall d | d in m.dirs :: d in m.owner && m.owner[d] == Directory
  {
  }

  lemma PresentHasTable(m: Mem, d: nat, v: nat)
    requires Shape(m) && d in m.dirs && v < PAGES && PteAt(m, d, v).present
    ensures PdeAt(m, d, v / ENTRIES).present
  {
  }

  // ---------- A new table

  ghost predicate Blank(t: seq<Pte>) {
    |t| == ENTRIES && forall k | 0 <= k < ENTRIES :: t[k] == EMPTY
  }

  function WithTable(m: Mem, d: nat, i: nat, f: nat, blank: seq<Pte>, flags: nat): Mem
    requires Shape(m) && d in m.dirs && i < ENTRIES
  {
    Mem(m.dirs, m.tables[d := m.tables[d][i := Pte(f, true, flags)]][f := blank], m.owner[f := Table(d, i)])
  }

  lemma TableEntries(m: Mem, d: nat, i: nat, f: nat, blank: seq<Pte>, flags: nat, d': nat, j: nat, v: nat)
    requires Sound(m) && d in m.dirs && i < ENTRIES && !PdeAt(m, d, i).present && Spare(m, f) && Blank(blank)
    requires d' in m.dirs && j < ENTRIES && v < PAGES
    ensures var m' := WithTable(m, d, i, f, blank, flags);
            && Shape(m') && f !in m.dirs
            && PdeAt(m', d', j) == (if d' == d && j == i then Pte(f, true, flags) else PdeAt(m, d', j))
            && PteAt(m', d', v) == PteAt(m, d', v)
            && PdeOk(m', d', j) && PteOk(m', d', v)
  {
    assert PdeOk(m, d', j) && PteOk(m, d', v) && PdeOk(m, d', v / ENTRIES);
    assert m.owner[d'] == Directory;
  }

  /** A blank page table changes nothing that the directories map. */
  lemma TableAdded(m: Mem, d: nat, i: nat, f: nat, blank: seq<Pte>, flags: nat)
    requires Sound(m) && d in m.dirs && i < ENTRIES && !PdeAt(m, d, i).present && Spare(m, f) && Blank(blank)
    ensures var m' := WithTable(m, d, i, f, blank, flags);
            && Sound(m') && PdeAt(m', d, i) == Pte(f, true, flags) && SameMaps(m, m', d, 0, 0)
  {
    hide PdeAt, PteAt, PdeOk, PteOk, FrameOk;
    var m' := WithTable(m, d, i, f, blank, flags);
    TableEntries(m, d, i, f, blank, flags, d, i, 0);
    forall d': nat, j: nat | d' in m'.dirs && j < ENTRIES ensures PdeOk(m', d', j) {
      TableEntries(m, d, i, f, blank, flags, d', j, 0);
    }
    forall d': nat, v: nat | d' in m'.dirs && v < PAGES
      ensures PteOk(m', d', v) && PteAt(m', d', v) == PteAt(m, d', v)
    {
      TableEntries(m, d, i, f, blank, flags, d', 0, v);
    }
    forall g: nat | g in m'.owner ensures FrameOk(m', g) {
      TableFrame(m, d, i, f, blank, flags, g);
    }
  }

  lemma TableFrame(m: Mem, d: nat, i: nat, f: nat, blank: seq<Pte>, flags: nat, g: nat)
    requires Sound(m) && d in m.dirs && i < ENTRIES && !PdeAt(m, d, i).present && Spare(m, f) && Blank(blank)
    requires g in WithTable(m, d, i, f, blank, flags).owner
    ensures var m' := WithTable(m, d, i, f, blank, flags);
            Shape(m') && FrameOk(m', g)
  {
    hide PteAt, PdeAt, PdeOk, PteOk;
    if g == f {
      TableEntries(m, d, i, f, blank, flags, d, i, 0);
    } else {
      assert FrameOk(m, g);
      match m.owner[g]
      case Directory => TableEntries(m, d, i, f, blank, flags, d, i, 0);
      case Table(d', j) => TableEntries(m, d, i, f, blank, flags, d', j, 0);
      case Page(d', v) => TableEntries(m, d, i, f, blank, flags, d', 0, v);
      case Elsewhere => TableEntries(m, d, i, f, blank, flags, d, i, 0);
    }
  }

  // ---------- A new entry

  function WithPte(m: Mem, d: nat, v: nat, pte: Pte, owner: map<nat, Place>): Mem
    requires Shape(m) && d in m.dirs && v < PAGES && PdeAt(m, d, v / ENTRIES).ppn in m.tables
  {
    var t := PdeAt(m, d, v / ENTRIES).ppn;
    Mem(m.dirs, m.tables[t := m.tables[t][v % ENTRIES := pte]], owner)
  }

  lemma OnlyEntry(m: Mem, d: nat, v: nat, pte: Pte, owner: map<nat, Place>, d': nat, j: nat, w: nat)
    requires Sound(m) && d in m.dirs && v < PAGES && PdeAt(m, d, v / ENTRIES).present
    requires PdeAt(m, d, v / ENTRIES).ppn in m.tables
    requires d' in m.dirs && j < ENTRIES && w < PAGES
    ensures var m' := WithPte(m, d, v, pte, owner);
            && Shape(m')
            && PdeAt(m', d', j) == PdeAt(m, d', j)
            && PteAt(m', d', w) == if d' == d && w == v then pte else PteAt(m, d', w)
  {
    assert PdeOk(m, d, v / ENTRIES) && PdeOk(m, d', w / ENTRIES);
  }

  /** An entry may be set when the frames of the pages come and go with it. */
  lemma EntrySet(m: Mem, d: nat, v: nat, pte: Pte, owner: map<nat, Place>)
    requires Sound(m) && d in m.dirs && v < PAGES && PdeAt(m, d, v / ENTRIES).present
    requires PdeAt(m, d, v / ENTRIES).ppn in m.tables
    requires !pte.present ==> pte == EMPTY
    requires pte.present && v < USER ==> pte.ppn in owner && owner[pte.ppn] == Page(d, v)
    requires forall f | f in m.owner && m.owner[f] != Elsewhere && m.owner[f] != Page(d, v) ::
              f in owner && owner[f] == m.owner[f]
    requires forall f | f in owner ::
               || owner[f] == Elsewhere
               || (owner[f] == Page(d, v) && v < USER && pte.present && pte.ppn == f)
               || (owner[f] != Page(d, v) && f in m.owner && m.owner[f] == owner[f])
    ensures var m' := WithPte(m, d, v, pte, owner);
            && Sound(m') && SameMaps(m, m', d, v, v + 1) && PteAt(m', d, v) == pte
            && PdeAt(m', d, v / ENTRIES) == PdeAt(m, d, v / ENTRIES)
  {
    hide PdeAt, PteAt, FrameOk, PteOk, PdeOk;
    var m' := WithPte(m, d, v, pte, owner);
    OnlyEntry(m, d, v, pte, owner, d, v / ENTRIES, v);
    forall d': nat, j: nat | d' in m'.dirs && j < ENTRIES ensures PdeOk(m', d', j) {
      EntryPde(m, d, v, pte, owner, d', j);
    }
    forall d': nat, w: nat | d' in m'.dirs && w < PAGES
      ensures PteOk(m', d', w) && (!(d' == d && w == v) ==> PteAt(m', d', w) == PteAt(m, d', w))
    {
      EntryPte(m, d, v, pte, owner, d', w);
    }
    forall f: nat | f in m'.owner ensures FrameOk(m', f) {
      EntryFrame(m, d, v, pte, owner, f);
    }
  }

  lemma EntryPde(m: Mem, d: nat, v: nat, pte: Pte, owner: map<nat, Place>, d': nat, j: nat)
    requires Sound(m) && d in m.dirs && v < PAGES && PdeAt(m, d, v / ENTRIES).present
    requires PdeAt(m, d, v / ENTRIES).ppn in m.tables
    requires forall f | f in m.owner && m.owner[f] != Elsewhere && m.owner[f] != Page(d, v) ::
              f in owner && owner[f] == m.owner[f]
    requires d' in m.dirs && j < ENTRIES
    ensures var m' := WithPte(m, d, v, pte, owner);
            Shape(m') && PdeOk(m', d', j) && owner[d'] == Directory
  {
    assert PdeOk(m, d', j);
    OnlyEntry(m, d, v, pte, owner, d', j, 0);
  }

  lemma EntryPte(m: Mem, d: nat, v: nat, pte: Pte, owner: map<nat, Place>, d': nat, w: nat)
    requires Sound(m) && d in m.dirs && v < PAGES && PdeAt(m, d, v / ENTRIES).present
    requires PdeAt(m, d, v / ENTRIES).ppn in m.tables
    requires !pte.present ==> pte == EMPTY
    requires pte.present && v < USER ==> pte.ppn in owner && owner[pte.ppn] == Page(d, v)
    requires forall f | f in m.owner && m.owner[f] != Elsewhere && m.owner[f] != Page(d, v) ::
              f in owner && owner[f] == m.owner[f]
    requires d' in m.dirs && w < PAGES
    ensures var m' := WithPte(m, d, v, pte, owner);
            Shape(m') && PteOk(m', d', w) && (!(d' == d && w == v) ==> PteAt(m', d', w) == PteAt(m, d', w))
  {
    assert PteOk(m, d', w);
    OnlyEntry(m, d, v, pte, owner, d', 0, w);
    hide Sound, PdeAt;
  }

  lemma EntryFrame(m: Mem, d: nat, v: nat, pte: Pte, owner: map<nat, Place>, f: nat)
    requires Sound(m) && d in m.dirs && v < PAGES && PdeAt(m, d, v / ENTRIES).present
    requires PdeAt(m, d, v / ENTRIES).ppn in m.tables
    requires f in owner
    requires || owner[f] == Elsewhere
             || (owner[f] == Page(d, v) && v < USER && pte.present && pte.ppn == f)
             || (owner[f] != Page(d, v) && f in m.owner && m.owner[f] == owner[f])
    ensures var m' := WithPte(m, d, v, pte, owner);
            Shape(m') && FrameOk(m', f)
  {
    hide PteAt, PdeAt;
    assert f in m.owner ==> FrameOk(m, f);
    match owner[f]
    case Directory => OnlyEntry(m, d, v, pte, owner, d, 0, v);
    case Table(d', j) => OnlyEntry(m, d, v, pte, owner, d', j, v);
    case Page(d', w) => OnlyEntry(m, d, v, pte, owner, d', 0, w);
    case Elsewhere => OnlyEntry(m, d, v, pte, owner, d, 0, v);
  }

  // ---------- A new directory, and the end of one

  function WithDir(m: Mem, f: nat, blank: seq<Pte>): Mem {
    Mem(m.dirs + {f}, m.tables[f := blank], m.owner[f := Directory])
  }

  lemma DirEntries(m: Mem, f: nat, blank: seq<Pte>, d': nat, j: nat, v: nat)
    requires Sound(m) && Spare(m, f) && Blank(blank) && d' in m.dirs + {f} && j < ENTRIES && v < PAGES
    ensures var m' := WithDir(m, f, blank);
            && Shape(m') && f !in m.dirs
            && PdeAt(m', d', j) == (if d' == f then EMPTY else PdeAt(m, d', j))
            && PteAt(m', d', v) == (if d' == f then EMPTY else PteAt(m, d', v))
            && PdeOk(m', d', j) && PteOk(m', d', v)
  {
    if d' != f {
      assert PdeOk(m, d', j) && PteOk(m, d', v) && PdeOk(m, d', v / ENTRIES);
    }
  }

  lemma DirAdded(m: Mem, f: nat, blank: seq<Pte>)
    requires Sound(m) && Spare(m, f) && Blank(blank)
    ensures var m' := WithDir(m, f, blank);
            && Sound(m') && f !in m.dirs && SameMaps(m, m', f, 0, PAGES)
            && forall v: nat | v < PAGES :: PteAt(m', f, v) == EMPTY
  {
    hide PdeAt, PteAt, FrameOk, PteOk, PdeOk;
    var m' := WithDir(m, f, blank);
    DirEntries(m, f, blank, f, 0, 0);
    forall d': nat, j: nat | d' in m'.dirs && j < ENTRIES ensures PdeOk(m', d', j) {
      DirEntries(m, f, blank, d', j, 0);
    }
    forall d': nat, v: nat | d' in m'.dirs && v < PAGES
      ensures PteOk(m', d', v) && PteAt(m', d', v) == if d' == f then EMPTY else PteAt(m, d', v)
    {
      DirEntries(m, f, blank, d', 0, v);
    }
    forall g: nat | g in m'.owner ensures FrameOk(m', g) {
      DirFrame(m, f, blank, g);
    }
  }

  lemma DirFrame(m: Mem, f: nat, blank: seq<Pte>, g: nat)
    requires Sound(m) && Spare(m, f) && Blank(blank) && g in WithDir(m, f, blank).owner
    ensures Shape(WithDir(m, f, blank)) && FrameOk(WithDir(m, f, blank), g)
  {
    hide PteAt, PdeAt, PteOk, PdeOk;
    DirEntries(m, f, blank, f, 0, 0);
    if g != f {
      assert FrameOk(m, g);
      match m.owner[g]
      case Directory =>
      case Table(d', j) => DirEntries(m, f, blank, d', j, 0);
      case Page(d', v) => DirEntries(m, f, blank, d', 0, v);
      case Elsewhere =>
    }
  }

  /** The frames in use but for those of directory d: itself, its tables up to entry i, and its pages lo to hi. */
  function Removed(owner: map<nat, Place>, d: nat, i: nat, lo: nat, hi: nat): map<nat, Place> {
    map f | f in owner && !(owner[f].Table? && owner[f].dir == d && owner[f].pdx < i)
            && !(owner[f].Page? && owner[f].dir == d && lo <= owner[f].vpn < hi) :: owner[f]
  }

  /** With no user page left, a directory's tables and itself can all go. */
  lemma DirDropped(m: Mem, d: nat)
    requires Sound(m) && d in m.dirs && forall v: nat | v < USER :: !PteAt(m, d, v).present
    ensures var m' := Mem(m.dirs - {d}, m.tables, Removed(m.owner, d, ENTRIES, 0, 0) - {d});
            Sound(m') && SameMaps(m, m', d, 0, PAGES)
  {
    hide PdeAt, PteAt, PdeOk, PteOk, FrameOk;
    var m' := Mem(m.dirs - {d}, m.tables, Removed(m.owner, d, ENTRIES, 0, 0) - {d});
    forall d': nat, j: nat | d' in m'.dirs && j < ENTRIES ensures PdeOk(m', d', j) {
      DroppedEntries(m, d, d', j, 0);
    }
    forall d': nat, v: nat | d' in m'.dirs && v < PAGES
      ensures PteOk(m', d', v) && PteAt(m', d', v) == PteAt(m, d', v)
    {
      DroppedEntries(m, d, d', 0, v);
    }
    forall f: nat | f in m'.owner ensures FrameOk(m', f) {
      DroppedFrame(m, d, f);
    }
  }

  lemma DroppedEntries(m: Mem, d: nat, d': nat, j: nat, v: nat)
    requires Sound(m) && d in m.dirs && d' in m.dirs && d' != d && j < ENTRIES && v < PAGES
    ensures var m' := Mem(m.dirs - {d}, m.tables, Removed(m.owner, d, ENTRIES, 0, 0) - {d});
            Shape(m') && PdeOk(m', d', j) && PteOk(m', d', v) && PteAt(m', d', v) == PteAt(m, d', v)
  {
    assert PdeOk(m, d', j) && PteOk(m, d', v) && m.owner[d] == Directory;
  }

  lemma DroppedFrame(m: Mem, d: nat, f: nat)
    requires Sound(m) && d in m.dirs && forall v: nat | v < USER :: !PteAt(m, d, v).present
    requires f in m.owner && f != d && !(m.owner[f].Table? && m.owner[f].dir == d && m.owner[f].pdx < ENTRIES)
    ensures var m' := Mem(m.dirs - {d}, m.tables, Removed(m.owner, d, ENTRIES, 0, 0) - {d});
            Shape(m') && f in m'.owner && FrameOk(m', f)
  {
    assert FrameOk(m, f);
  }

  /** The frame of a mapped user page, and only that, belongs to it. */
  lemma PageFrame(m: Mem, d: nat, v: nat)
    requires Sound(m) && d in m.dirs && v < USER
    ensures PteAt(m, d, v).present ==> PteAt(m, d, v).ppn in m.owner && m.owner[PteAt(m, d, v).ppn] == Page(d, v)
    ensures forall f: nat | f in m.owner && m.owner[f] == Page(d, v) ::
              PteAt(m, d, v).present && PteAt(m, d, v).ppn == f
    ensures !PteAt(m, d, v).present ==> PteAt(m, d, v) == EMPTY
  {
    assert PteOk(m, d, v);
    forall f: nat | f in m.owner && m.owner[f] == Page(d, v) ensures PteAt(m, d, v).present && PteAt(m, d, v).ppn == f {
      assert FrameOk(m, f);
    }
  }

  lemma TableOf(m: Mem, d: nat, i: nat)
    requires Sound(m) && d in m.dirs && i < ENTRIES
    ensures var pde := PdeAt(m, d, i);
            pde.present ==>
              && pde.ppn in m.owner && m.owner[pde.ppn] == Table(d, i)
              && pde.ppn in m.tables && pde.ppn !in m.dirs
    ensures forall f: nat | f in m.owner && m.owner[f] == Table(d, i) ::
              PdeAt(m, d, i).present && PdeAt(m, d, i).ppn == f
  {
    assert PdeOk(m, d, i);
    forall f: nat | f in m.owner && m.owner[f] == Table(d, i)
      ensures PdeAt(m, d, i).present && PdeAt(m, d, i).ppn == f
    {
      assert FrameOk(m, f);
    }
  }

  /** Without a page table, nothing of its whole range is mapped: what deallocuvm skips. */
  lemma NoTable(m: Mem, d: nat, v: nat, w: nat)
    requires Shape(m) && d in m.dirs && v < PAGES && w < PAGES && v / ENTRIES == w / ENTRIES
    requires !PdeAt(m, d, v / ENTRIES).present
    ensures PteAt(m, d, w) == EMPTY
  {
  }

  // ---------- How many frames a change takes

  /** The entries of directory d that have a page table. */
  ghost function Pdes(m: Mem, d: nat): set<nat> {
    if Shape(m) && d in m.dirs then set i: nat | i < ENTRIES && PdeAt(m, d, i).present else {}
  }

  /** The page tables that pages lo to hi belong to. */
  function TablesOf(lo: nat, hi: nat): set<nat>
    decreases hi
  {
    if lo >= hi then {} else TablesOf(lo, hi - 1) + {(hi - 1) / ENTRIES}
  }

  /** Tables t have been made where there were none, at one frame each. */
  ghost predicate Grown(p0: set<nat>, n0: nat, p1: set<nat>, n1: nat, t: set<nat>) {
    p1 == p0 + t && n0 == n1 + |t - p0|
  }

  lemma GrownNone(p: set<nat>, n: nat)
    ensures Grown(p, n, p, n, {})
  {
  }

  lemma GrownTrans(p0: set<nat>, n0: nat, p1: set<nat>, n1: nat, p2: set<nat>, n2: nat, t: set<nat>, u: set<nat>)
    requires Grown(p0, n0, p1, n1, t) && Grown(p1, n1, p2, n2, u)
    ensures Grown(p0, n0, p2, n2, t + u)
  {
    assert t + u - p0 == (t - p0) + (u - (p0 + t));
  }

  /** Frames that do not suffice for the next tables did not suffice for all of them. */
  lemma GrownShort(p0: set<nat>, n0: nat, p1: set<nat>, n1: nat, t: set<nat>, u: set<nat>)
    requires Grown(p0, n0, p1, n1, t)
    ensures |t + u - p0| == |t - p0| + |u - p1|
  {
    assert t + u - p0 == (t - p0) + (u - (p0 + t));
  }

  lemma FewerTables(p: set<nat>, t: set<nat>, u: set<nat>)
    requires t <= u
    ensures |t - p| <= |u - p|
  {
    assert u - p == (t - p) + (u - t - p);
  }

  lemma {:induction false} TablesGrow(lo: nat, a: nat, b: nat)
    requires lo <= a <= b
    ensures TablesOf(lo, a) <= TablesOf(lo, b)
    decreases b
  {
    if a < b {
      TablesGrow(lo, a, b - 1);
    }
  }

  lemma NextTable(lo: nat, a: nat)
    requires lo <= a
    ensures TablesOf(lo, a + 1) == TablesOf(lo, a) + {a / ENTRIES} && TablesOf(a, a + 1) == {a / ENTRIES}
  {
  }

  lemma PdesAre(m: Mem, m': Mem, d: nat, t: set<nat>)
    requires Shape(m) && Shape(m') && d in m.dirs && d in m'.dirs
    requires forall i: nat | i < ENTRIES :: PdeAt(m', d, i).present <==> PdeAt(m, d, i).present || i in t
    requires forall i | i in t :: i < ENTRIES
    ensures Pdes(m', d) == Pdes(m, d) + t
  {
  }

  lemma TableAddedPdes(m: Mem, d: nat, i: nat, f: nat, blank: seq<Pte>, flags: nat)
    requires Sound(m) && d in m.dirs && i < ENTRIES && !PdeAt(m, d, i).present && Spare(m, f) && Blank(blank)
    ensures Shape(WithTable(m, d, i, f, blank, flags)) && i !in Pdes(m, d)
    ensures Pdes(WithTable(m, d, i, f, blank, flags), d) == Pdes(m, d) + {i}
  {
    hide PdeAt, PteAt, Sound;
    SoundShape(m);
    var m' := WithTable(m, d, i, f, blank, flags);
    TableEntries(m, d, i, f, blank, flags, d, i, 0);
    forall j: nat | j < ENTRIES ensures PdeAt(m', d, j).present <==> PdeAt(m, d, j).present || j in {i} {
      TableEntries(m, d, i, f, blank, flags, d, j, 0);
    }
    PdesAre(m, m', d, {i});
  }

  lemma EntrySetPdes(m: Mem, d: nat, v: nat, pte: Pte, owner: map<nat, Place>)
    requires Sound(m) && d in m.dirs && v < PAGES && PdeAt(m, d, v / ENTRIES).present
    requires PdeAt(m, d, v / ENTRIES).ppn in m.tables
    ensures Shape(WithPte(m, d, v, pte, owner)) && Pdes(WithPte(m, d, v, pte, owner), d) == Pdes(m, d)
  {
    hide PdeAt, PteAt, Sound;
    SoundShape(m);
    var m' := WithPte(m, d, v, pte, owner);
    OnlyEntry(m, d, v, pte, owner, d, 0, 0);
    forall j: nat | j < ENTRIES ensures PdeAt(m', d, j).present <==> PdeAt(m, d, j).present || j in {} {
      OnlyEntry(m, d, v, pte, owner, d, j, 0);
    }
    PdesAre(m, m', d, {});
  }

  lemma DirAddedPdes(m: Mem, f: nat, blank: seq<Pte>)
    requires Shape(m) && Blank(blank)
    ensures Shape(WithDir(m, f, blank)) && Pdes(WithDir(m, f, blank), f) == {}
  {
  }

  lemma TableThere(m: Mem, d: nat, i: nat, n: nat)
    requires Shape(m) && d in m.dirs && i < ENTRIES
    ensures PdeAt(m, d, i).present <==> i in Pdes(m, d)
    ensures PdeAt(m, d, i).present ==> Grown(Pdes(m, d), n, Pdes(m, d), n, {i})
    ensures !PdeAt(m, d, i).present ==> |{i} - Pdes(m, d)| == 1
  {
    hide PdeAt;
    assert PdeAt(m, d, i).present ==> {i} - Pdes(m, d) == {};
    assert !PdeAt(m, d, i).present ==> {i} - Pdes(m, d) == {i};
  }

  lemma TableMade(p: set<nat>, n: nat, i: nat)
    requires n > 0 && i !in p
    ensures Grown(p, n, p + {i}, n - 1, {i})
  {
    assert {i} - p == {i};
  }

  lemma SamePdes(m: Mem, m': Mem, d: nat)
    requires Shape(m) && m'.dirs == m.dirs && m'.tables == m.tables && d in m.dirs
    ensures Shape(m') && Pdes(m', d) == Pdes(m, d)
  {
  }

  /** The next page of a range has its table. */
  lemma MorePages(p0: set<nat>, n0: nat, p1: set<nat>, n1: nat, p2: set<nat>, n2: nat, v: nat, a: nat)
    requires Grown(p0, n0, p1, n1, TablesOf(v, a)) && Grown(p1, n1, p2, n2, {a / ENTRIES}) && v <= a
    ensures Grown(p0, n0, p2, n2, TablesOf(v, a + 1))
  {
    hide Grown;
    NextTable(v, a);
    GrownTrans(p0, n0, p1, n1, p2, n2, TablesOf(v, a), {a / ENTRIES});
  }

  /** There is no frame for its table, so there were too few for the range. */
  lemma PagesShort(p0: set<nat>, n0: nat, p1: set<nat>, n1: nat, v: nat, a: nat, hi: nat)
    requires Grown(p0, n0, p1, n1, TablesOf(v, a)) && n1 < |{a / ENTRIES} - p1| && v <= a < hi
    ensures n0 < |TablesOf(v, a + 1) - p0| <= |TablesOf(v, hi) - p0|
  {
    NextTable(v, a);
    GrownShort(p0, n0, p1, n1, TablesOf(v, a), {a / ENTRIES});
    TablesGrow(v, a + 1, hi);
    FewerTables(p0, TablesOf(v, a + 1), TablesOf(v, hi));
  }

  lemma GrownFrames(p0: set<nat>, n0: nat, p1: set<nat>, n1: nat, t: set<nat>)
    requires Grown(p0, n0, p1, n1, t)
    ensures n0 == n1 + |t - p0|
  {
  }

  lemma NoTables(p: set<nat>, n: nat, v: nat)
    ensures Grown(p, n, p, n, TablesOf(v, v))
  {
    GrownNone(p, n);
  }
}
