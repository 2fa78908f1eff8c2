/** The page allocator (kalloc.c) and the virtual memory of processes (vm.c), changed in place.  A pointer to a page is
    its frame number, virtual addresses are page numbers and sizes are bytes, of at most KERNBASE.  The contents of a
    frame are a table or the bytes of a page, whichever it is used as; the junk that kfree writes is left out. */
module Vm {
  import opened Blocks
  import opened PageTable
  import opened Params

  /** PTE_W and PTE_U. */
  const WU: nat := 6

  /** PGROUNDUP, as a page number. */
  function PgUp(sz: nat): nat {
    (sz + PGSIZE - 1) / PGSIZE
  }

  datatype MapEnd = Mapped | NoMemory | Remap

  /** Every frame is free or in use, and no frame is free twice. */
  ghost predicate FreeOk(freelist: seq<nat>, owner: map<nat, Place>, all: set<nat>) {
    && (forall i: nat, j: nat | i < j < |freelist| :: freelist[i] != freelist[j])
    && (forall f | f in freelist :: f !in owner)
    && (forall f :: f in all <==> f in freelist || f in owner)
  }

  class Kernel {
    /** The first frame behind the kernel, and the first that there is no memory for. */
    const end: nat
    const phystop: nat
    var freelist: seq<nat>
    var tables: map<nat, seq<Pte>>
    var pages: map<nat, seq<Byte>>
    /** Every frame that the allocator was given. */
    ghost var all: set<nat>
    ghost var dirs: set<nat>
    ghost var owner: map<nat, Place>

    ghost function M(): Mem
      reads this`tables, this`dirs, this`owner
    {
      Mem(dirs, tables, owner)
    }

    ghost predicate Valid()
      reads this
    {
      && Sound(M())
      && FreeOk(freelist, owner, all) && 0 !in all && InMemory()
      && forall f | f in owner && owner[f].Page? :: f in pages && |pages[f]| == PGSIZE
    }

    /** Whatever frame is in use may be freed. */
    ghost predicate InMemory()
      reads this`all
    {
      forall f | f in all :: end <= f < phystop
    }

    constructor (frames: seq<nat>, end: nat, phystop: nat)
      requires 0 !in frames && forall i: nat, j: nat | i < j < |frames| :: frames[i] != frames[j]
      requires forall f | f in frames :: end <= f < phystop
      ensures Valid() && freelist == frames && owner == map[] && dirs == {}
    {
      this.end, this.phystop := end, phystop;
      freelist, tables, pages := frames, map[], map[];
      all, dirs, owner := set f | f in frames, {}, map[];
    }

    /** kalloc.  The frame is in the caller's hands. */
    method Kalloc() returns (r: Option<nat>)
      requires Valid()
      modifies this`freelist, this`owner
      ensures Valid()
      ensures r == None <==> old(freelist) == []
      ensures r == None ==> freelist == old(freelist) && owner == old(owner)
      ensures r.Some? ==> r.value == old(freelist)[0] && freelist == old(freelist)[1..]
                          && r.value !in old(owner) && owner == old(owner)[r.value := Elsewhere]
    {
      hide FrameOk, PdeOk, PteOk;
      if freelist == [] {
        return None;
      }
      var f := freelist[0];
      Taken(M(), f);
      freelist := freelist[1..];
      owner := owner[f := Elsewhere];
      r := Some(f);
    }

    /** kfree of a frame in use: once freed, it is not in use.  False would be the panic on an address that is not that
        of a frame. */
    method Kfree(f: nat) returns (ok: bool)
      requires FreeOk(freelist, owner, all) && f in owner && InMemory()
      modifies this`freelist, this`owner
      ensures ok && FreeOk(freelist, owner, all)
      ensures freelist == [f] + old(freelist) && owner == old(owner) - {f}
    {
      ok := end <= f < phystop;
      if !ok {
        return;
      }
      freelist := [f] + freelist;
      owner := owner - {f};
    }

    /** walkpgdir: the page table of page v, made if it may and must be.  None is a null pointer. */
    method Walkpgdir(d: nat, v: nat, alloc: bool) returns (r: Option<nat>)
      requires Valid() && d in dirs && v < PAGES
      modifies this`freelist, this`tables, this`owner
      ensures Valid() && SameMaps(old(M()), M(), d, 0, 0)
      ensures PdeAt(old(M()), d, v / ENTRIES).present ==>
                r.Some? && tables == old(tables) && freelist == old(freelist) && owner == old(owner)
      ensures r == None <==> !PdeAt(old(M()), d, v / ENTRIES).present && (!alloc || old(freelist) == [])
      ensures r == None ==> tables == old(tables) && freelist == old(freelist) && owner == old(owner)
      ensures r.Some? ==>
                PdeAt(M(), d, v / ENTRIES).present && PdeAt(M(), d, v / ENTRIES).ppn == r.value && r.value in tables
      ensures r.Some? ==> Grown(Pdes(old(M()), d), |old(freelist)|, Pdes(M(), d), |freelist|, {v / ENTRIES})
      ensures r == None && alloc ==> |old(freelist)| < |{v / ENTRIES} - Pdes(old(M()), d)|
      ensures r.Some? && !PdeAt(old(M()), d, v / ENTRIES).present ==>
                && r.value == old(freelist)[0] && freelist == old(freelist)[1..] && r.value !in old(owner)
                && owner == old(owner)[r.value := Table(d, v / ENTRIES)]
                && UserPte(PdeAt(M(), d, v / ENTRIES)) && Writable(PdeAt(M(), d, v / ENTRIES))
    {
      hide Sound, SameMaps, FreeOk, PteAt, Pdes, Grown;
      SoundShape(M());
      SameMapsSelf(M(), d);
      TableThere(M(), d, v / ENTRIES, |freelist|);
      var pde := tables[d][v / ENTRIES];
      if pde.present {
        TableOf(M(), d, v / ENTRIES);
        return Some(pde.ppn);
      }
      if !alloc {
        return None;
      }
      ghost var m0 := M();
      r := Kalloc();
      if r == None {
        return;
      }
      SoundShape(M());
      var blank := seq(ENTRIES, i => EMPTY);
      TableAdded(M(), d, v / ENTRIES, r.value, blank, WU);
      SamePdes(m0, M(), d);
      TableAddedPdes(M(), d, v / ENTRIES, r.value, blank, WU);
      TableMade(Pdes(m0, d), |old(freelist)|, v / ENTRIES);
      AfterKalloc(m0, M(), WithTable(M(), d, v / ENTRIES, r.value, blank, WU), d);
      tables := tables[d := tables[d][v / ENTRIES := Pte(r.value, true, WU)]][r.value := blank];
      StillInUse(freelist, owner, all, r.value, Table(d, v / ENTRIES));
      owner := owner[r.value := Table(d, v / ENTRIES)];
    }

    /** One round of mappages. */
    method MapOne(d: nat, a: nat, ppn: nat, flags: nat) returns (r: MapEnd)
      requires Valid() && d in dirs && a < PAGES
      requires a < USER ==> Spare(M(), ppn) && ppn in pages && |pages[ppn]| == PGSIZE
      modifies this`freelist, this`tables, this`owner
      ensures Valid()
      ensures r == Remap <==> PteAt(old(M()), d, a).present
      ensures r == NoMemory ==> |old(freelist)| < |{a / ENTRIES} - Pdes(old(M()), d)|
      ensures r == Mapped ==> Grown(Pdes(old(M()), d), |old(freelist)|, Pdes(M(), d), |freelist|, {a / ENTRIES})
      ensures r != Mapped ==> tables == old(tables) && owner == old(owner) && freelist == old(freelist)
      ensures r == Mapped ==>
                && SameMaps(old(M()), M(), d, a, a + 1) && PteAt(M(), d, a) == Pte(ppn, true, flags)
                && GrewTables(if a < USER then old(owner)[ppn := Page(d, a)] else old(owner), owner, d)
    {
      hide Sound, SameMaps, FreeOk, PteAt, PdeAt, Pdes, Grown;
      SoundShape(M());
      var t := Walkpgdir(d, a, true);
      SoundShape(M());
      if t == None {
        NoTable(old(M()), d, a, a);
        return NoMemory;
      }
      EntryHere(M(), d, a);
      SamePte(old(M()), M(), d, a);
      if tables[t.value][a % ENTRIES].present {
        PresentHasTable(old(M()), d, a);
        return Remap;
      }
      ghost var m := M();
      StorePte(d, a, t.value, ppn, flags);
      SameMapsTrans(old(M()), m, M(), d, 0, 0, a, a + 1);
      r := Mapped;
    }

    /** The entry of a page that was not mapped, stored in the table that walkpgdir has found. */
    method StorePte(d: nat, a: nat, t: nat, ppn: nat, flags: nat)
      requires Valid() && d in dirs && a < PAGES
      requires a < USER ==> Spare(M(), ppn) && ppn in pages && |pages[ppn]| == PGSIZE
      requires PdeAt(M(), d, a / ENTRIES).present && PdeAt(M(), d, a / ENTRIES).ppn == t && !PteAt(M(), d, a).present
      modifies this`tables, this`owner
      ensures Valid() && SameMaps(old(M()), M(), d, a, a + 1) && PteAt(M(), d, a) == Pte(ppn, true, flags)
      ensures owner == (if a < USER then old(owner)[ppn := Page(d, a)] else old(owner))
      ensures Pdes(M(), d) == Pdes(old(M()), d)
    {
      hide Sound, SameMaps, FreeOk, PteAt, PdeAt, Pdes;
      SoundShape(M());
      EntryHere(M(), d, a);
      PageFrame2(M(), d, a);
      ghost var owner' := if a < USER then owner[ppn := Page(d, a)] else owner;
      EntrySet(M(), d, a, Pte(ppn, true, flags), owner');
      EntrySetPdes(M(), d, a, Pte(ppn, true, flags), owner');
      if a < USER {
        StillInUse(freelist, owner, all, ppn, Page(d, a));
      }
      tables := tables[t := tables[t][a % ENTRIES := Pte(ppn, true, flags)]];
      owner := owner';
    }

    /** mappages, of n pages from v on to the frames from ppn on.  A user page takes its frame over from the caller. */
    method Mappages(d: nat, v: nat, n: nat, ppn: nat, flags: nat) returns (r: MapEnd)
      requires Valid() && d in dirs && n > 0 && v + n <= PAGES
      requires v < USER ==> n == 1 && Spare(M(), ppn) && ppn in pages && |pages[ppn]| == PGSIZE
      modifies this`freelist, this`tables, this`owner
      ensures Valid() && SameMaps(old(M()), M(), d, v, v + n)
      ensures r == Mapped ==> MapsRange(M(), d, v, n, ppn, flags) && Unmapped(old(M()), d, v, v + n)
      ensures r == Mapped ==> Grown(Pdes(old(M()), d), |old(freelist)|, Pdes(M(), d), |freelist|, TablesOf(v, v + n))
      ensures r == NoMemory ==> |old(freelist)| < |TablesOf(v, v + n) - Pdes(old(M()), d)|
      ensures r == Remap ==> !Unmapped(old(M()), d, v, v + n)
      ensures n == 1 && r == NoMemory ==> Unmapped(old(M()), d, v, v + 1)
      ensures GrewTables(if v < USER && r == Mapped then old(owner)[ppn := Page(d, v)] else old(owner), owner, d)
      ensures n == 1 && r != Mapped ==> tables == old(tables) && owner == old(owner) && freelist == old(freelist)
    {
      hide Sound, SameMaps, FreeOk, PteAt, PdeAt, GrewTables, Spare, Pdes, Grown, TablesOf, Unmapped, MapsRange,
        MapDone;
      SoundShape(M());
      MapStart(M(), |freelist|, d, v, ppn, flags);
      var a, last, pa := v, v + n - 1, ppn;
      while true
        invariant v <= a <= last && pa == ppn + (a - v) && Valid()
        invariant MapDone(old(M()), |old(freelist)|, M(), |freelist|, d, v, a, ppn, flags)
        invariant a == v ==> tables == old(tables) && owner == old(owner) && freelist == old(freelist)
        invariant v < USER ==> a == v
        decreases last - a
      {
        ghost var m, n1 := M(), |freelist|;
        SoundShape(m);
        r := MapOne(d, a, pa, flags);
        SoundShape(M());
        if r != Mapped {
          MapStops(old(M()), |old(freelist)|, m, n1, d, v, a, ppn, flags, v + n);
          return;
        }
        MapMore(old(M()), |old(freelist)|, m, n1, M(), |freelist|, d, v, a, ppn, flags);
        if a == last {
          break;
        }
        a := a + 1;
        pa := pa + 1;
      }
      MapEnds(old(M()), |old(freelist)|, M(), |freelist|, d, v, v + n, ppn, flags);
      r := Mapped;
    }

    /** deallocuvm.  None would be kfree's panic on frame 0. */
    method Deallocuvm(d: nat, oldsz: nat, newsz: nat) returns (r: Option<nat>)
      requires Valid() && d in dirs && oldsz <= KERNBASE
      modifies this`freelist, this`tables, this`owner
      ensures Valid() && r == Some(if newsz >= oldsz then oldsz else newsz)
      ensures newsz >= oldsz ==> tables == old(tables) && owner == old(owner) && freelist == old(freelist)
      ensures newsz < oldsz ==> Cleared(old(M()), M(), d, PgUp(newsz), PgUp(oldsz))
    {
      hide Sound, FreeOk, PteAt, PdeAt, Cleared;
      if newsz >= oldsz {
        return Some(oldsz);
      }
      var a := PgUp(newsz);
      PgUpBounds(oldsz, newsz);
      ghost var hi := PgUp(oldsz);
      ClearStart(M(), d, a);
      while a * PGSIZE < oldsz
        invariant PgUp(newsz) <= a && Valid() && d in dirs && hi <= USER
        invariant Cleared(old(M()), M(), d, PgUp(newsz), if a < hi then a else hi)
        decreases hi - a
      {
        PgUpIs(oldsz, a);
        SoundShape(M());
        var t := Walkpgdir(d, a, false);
        if t == None {
          ghost var b := (a / ENTRIES + 1) * ENTRIES;
          SkipTable(M(), d, a, if b < hi then b else hi);
          ClearSkip(old(M()), M(), d, PgUp(newsz), a, if b < hi then b else hi);
          a := (a / ENTRIES + 1) * ENTRIES - 1;
        } else {
          EntryHere(M(), d, a);
          var pte := tables[t.value][a % ENTRIES];
          PageFrame(M(), d, a);
          if pte.present {
            InAll(freelist, owner, all, pte.ppn);
            if pte.ppn == 0 {
              return None;
            }
            ClearOne(old(M()), M(), d, PgUp(newsz), a);
            var _ := Kfree(pte.ppn);
            tables := tables[t.value := tables[t.value][a % ENTRIES := EMPTY]];
          } else {
            ClearSkip(old(M()), M(), d, PgUp(newsz), a, a + 1);
          }
        }
        a := a + 1;
      }
      PgUpIs(oldsz, a);
      r := Some(newsz);
    }

    /** A new user page with the given bytes, mapped if there is a frame for its page table; if not, its own frame is
        still the caller's. */
    method NewUserPage(d: nat, a: nat, bytes: seq<Byte>, flags: nat) returns (mem: Option<nat>, e: MapEnd)
      requires Valid() && d in dirs && a < USER && |bytes| == PGSIZE
      modifies this`freelist, this`tables, this`owner, this`pages
      ensures Valid() && (mem == None <==> old(freelist) == [])
      ensures mem == None ==> M() == old(M()) && freelist == old(freelist) && pages == old(pages) && e == NoMemory
      ensures mem.Some? ==> mem.value !in old(owner) && pages == old(pages)[mem.value := bytes]
      ensures mem.Some? ==> (e == Remap <==> PteAt(old(M()), d, a).present)
      ensures mem.Some? && e != Mapped ==>
                M() == Mem(old(M()).dirs, old(M()).tables, old(M()).owner[mem.value := Elsewhere])
      ensures mem.Some? && e == NoMemory ==> |old(freelist)| - 1 < |TablesOf(a, a + 1) - Pdes(old(M()), d)|
      ensures mem.Some? && e == Mapped ==>
                && SameMaps(old(M()), M(), d, a, a + 1) && PteAt(M(), d, a) == Pte(mem.value, true, flags)
                && GrewTables(old(owner)[mem.value := Page(d, a)], owner, d)
                && Grown(Pdes(old(M()), d), |old(freelist)| - 1, Pdes(M(), d), |freelist|, TablesOf(a, a + 1))
    {
      hide Sound, FreeOk, PteAt, PdeAt, SameMaps, GrewTables, Pdes, Grown, TablesOf, Unmapped;
      SoundShape(M());
      e := NoMemory;
      mem := Kalloc();
      if mem == None {
        return;
      }
      ghost var m1 := M();
      SamePdes(old(M()), m1, d);
      SameEntries(old(M()), m1);
      OneUnmapped(m1, d, a);
      pages := pages[mem.value := bytes];
      e := Mappages(d, a, 1, mem.value, flags);
      if e == Mapped {
        AfterKalloc1(old(M()), m1, M(), d, a);
        assert old(owner)[mem.value := Elsewhere][mem.value := Page(d, a)] == old(owner)[mem.value := Page(d, a)];
      }
    }

    /** allocuvm.  None is the panic on the first page that is mapped already, if memory lasts that long.  When memory
        runs out, the new pages are unmapped and freed again; page tables made for them stay. */
    method Allocuvm(d: nat, oldsz: nat, newsz: nat) returns (r: Option<nat>)
      requires Valid() && d in dirs
      modifies this`freelist, this`tables, this`owner, this`pages
      ensures newsz >= KERNBASE ==> r == Some(0)
      ensures newsz < KERNBASE && newsz < oldsz ==> r == Some(oldsz)
      ensures newsz >= KERNBASE || newsz < oldsz ==>
                Valid() && tables == old(tables) && owner == old(owner) && freelist == old(freelist)
                    && pages == old(pages)
      ensures r == None <==>
                && oldsz <= newsz < KERNBASE
                && exists v: nat :: v < PgUp(newsz) && InTheWay(old(M()), |old(freelist)|, d, PgUp(oldsz), v)
      ensures oldsz <= newsz < KERNBASE && newsz > 0 ==>
                (r == Some(newsz) <==> Unmapped(old(M()), d, PgUp(oldsz), PgUp(newsz))
                                       && |old(freelist)| >= Need(old(M()), d, PgUp(oldsz), PgUp(newsz)))
      ensures oldsz <= newsz < KERNBASE && r.Some? ==> Valid() && PagesKept(old(owner), old(pages), pages)
      ensures oldsz <= newsz < KERNBASE && r.Some? ==> r == Some(newsz) || r == Some(0)
      ensures oldsz <= newsz < KERNBASE && r == Some(newsz) && newsz > 0 ==>
                NewPages(old(M()), M(), pages, d, PgUp(oldsz), PgUp(newsz), {})
      ensures oldsz <= newsz < KERNBASE && r == Some(0) && newsz > 0
              && Unmapped(old(M()), d, PgUp(oldsz), PgUp(newsz)) ==>
                SameMaps(old(M()), M(), d, 0, 0) && GrewTables(old(owner), owner, d)
    {
      hide Sound, FreeOk, PteAt, PdeAt, Cleared, SameMaps, NewPages, GrewTables, PagesKept, Unmapped, MapsRange, Pdes,
        TablesOf, Grown, Need, Spent, InTheWay;
      if newsz >= KERNBASE {
        return Some(0);
      }
      if newsz < oldsz {
        return Some(oldsz);
      }
      var a := PgUp(oldsz);
      ghost var lo, hi := PgUp(oldsz), PgUp(newsz);
      PgUpOrder(oldsz, newsz);
      NewStart(M(), pages, d, lo);
      SpentNothing(M(), |freelist|, d, lo);
      while a * PGSIZE < newsz
        invariant lo <= a <= hi && Valid() && d in dirs && dirs == old(dirs)
        invariant NewPages(old(M()), M(), pages, d, lo, a, {}) && PagesKept(old(owner), old(pages), pages)
        invariant Spent(old(M()), |old(freelist)|, M(), |freelist|, d, lo, a)
        decreases hi - a
      {
        PgUpIs(newsz, a);
        ghost var m, n1, pages1 := M(), |freelist|, pages;
        NextPage(old(M()), |old(freelist)|, m, n1, pages, d, lo, a, hi);
        var mem, e := NewUserPage(d, a, Zeroes(PGSIZE), WU);
        if mem == None {
          var _ := Deallocuvm(d, newsz, oldsz);
          UndoNew(old(M()), m, M(), pages, d, lo, a, hi, {});
          assert owner - {} == owner;
          return Some(0);
        }
        if e == Remap {
          return None;
        }
        NewZeroes(old(M()), m, M(), pages1, d, lo, a, mem.value, old(pages));
        if e == NoMemory {
          ghost var m1 := M();
          var _ := Deallocuvm(d, newsz, oldsz);
          UndoNew(old(M()), m1, M(), pages, d, lo, a, hi, {mem.value});
          StillSpare(m1, M(), d, lo, hi, mem.value);
          FreedSpare(M(), mem.value);
          ghost var m2 := M();
          var _ := Kfree(mem.value);
          AfterKfree(old(M()), m2, M(), d);
          return Some(0);
        }
        NewMapped(old(M()), m, M(), pages1, d, lo, a, mem.value);
        SpentOnPage(old(M()), |old(freelist)|, m, n1, M(), |freelist|, d, lo, a);
        a := a + 1;
      }
      PgUpIs(newsz, a);
      AllSpent(old(M()), |old(freelist)|, M(), |freelist|, d, lo, hi);
      r := Some(newsz);
    }

    /** freevm: every page, every page table and the directory go back to the allocator, each once. */
    method Freevm(d: nat)
      requires Valid() && d in dirs
      modifies this`freelist, this`tables, this`owner, this`dirs
      ensures Valid() && dirs == old(dirs) - {d}
      ensures owner == Removed(old(owner), d, ENTRIES, 0, USER) - {d}
      ensures SameMaps(old(M()), M(), d, 0, PAGES)
    {
      hide Sound, FreeOk, PteAt, PdeAt, SameMaps, Cleared, Removed;
      var _ := Deallocuvm(d, KERNBASE, 0);
      ghost var m := M();
      AllCleared(old(M()), m, d);
      SoundShape(m);
      NoneRemoved(owner, d);
      var i := 0;
      while i < ENTRIES
        invariant 0 <= i <= ENTRIES && FreeOk(freelist, owner, all) && tables == m.tables && dirs == old(dirs)
        invariant owner == Removed(m.owner, d, i, 0, 0)
      {
        TableLeft(m, d, i);
        if tables[d][i].present {
          var _ := Kfree(tables[d][i].ppn);
        }
        i := i + 1;
      }
      DirLeft(m, d);
      var _ := Kfree(d);
      dirs := dirs - {d};
      DirDropped(m, d);
      BothSame(old(M()), m, M(), d);
    }

    /** setupkvm, with the kernel's ranges of kmap.  Without memory for the directory and all their page tables,
        everything is given back. */
    method Setupkvm(kmap: seq<Range>) returns (r: Option<nat>)
      requires Valid() && KmapOk(kmap)
      modifies this`freelist, this`tables, this`owner, this`dirs
      ensures Valid() && SameMaps(old(M()), M(), 0, 0, 0)
      ensures r == None <==> |old(freelist)| < 1 + |KernelTables(kmap, |kmap|)|
      ensures r == None ==> dirs == old(dirs) && owner == old(owner)
      ensures r.Some? ==>
                r.value !in old(owner) && KernelSpace(old(M()), |old(freelist)|, M(), |freelist|, r.value, kmap, |kmap|)
    {
      hide Sound, FreeOk, PteAt, PdeAt, SameMaps, KmapOk, GrewTables, Pdes, TablesOf, KernelSpace, MapsRange, Unmapped,
        Grown;
      r := Kalloc();
      SoundShape(old(M()));
      KernelNeeds(kmap);
      if r == None {
        SameMapsSelf(M(), 0);
        return;
      }
      var d := r.value;
      var blank := seq(ENTRIES, i => EMPTY);
      DirAdded(M(), d, blank);
      DirAddedPdes(M(), d, blank);
      FirstDir(old(M()), |old(freelist)|, M(), WithDir(M(), d, blank), |freelist|, d, kmap);
      StillInUse(freelist, owner, all, d, Directory);
      tables := tables[d := blank];
      dirs, owner := dirs + {d}, owner[d := Directory];
      var k := 0;
      while k < |kmap|
        invariant 0 <= k <= |kmap| && Valid() && KernelSpace(old(M()), |old(freelist)|, M(), |freelist|, d, kmap, k)
      {
        ghost var m, n := M(), |freelist|;
        NextRange(old(M()), |old(freelist)|, m, n, d, kmap, k);
        var e := Mappages(d, kmap[k].v, kmap[k].n, kmap[k].ppn, kmap[k].perm);
        assert e != Remap;
        if e == NoMemory {
          ghost var m2 := M();
          NoRange(old(M()), |old(freelist)|, m, n, m2, d, kmap, k);
          Freevm(d);
          Restored(old(M()), m2, owner, d);
          OtherDirs2(old(M()), m2, M(), d);
          return None;
        }
        RangeAdded(old(M()), |old(freelist)|, m, n, M(), |freelist|, d, kmap, k);
        k := k + 1;
      }
      KernelFrames(old(M()), |old(freelist)|, M(), |freelist|, d, kmap);
    }

    /** One page of copyuvm, to frame f. */
    method CopyPage(d2: nat, i: nat, pte: Pte) returns (ok: bool, f: nat)
      requires Valid() && d2 in dirs && i < USER && !PteAt(M(), d2, i).present
      requires pte.ppn in pages && |pages[pte.ppn]| == PGSIZE
      modifies this`freelist, this`tables, this`owner, this`pages
      ensures Valid()
      ensures !ok ==> tables == old(tables) && owner == old(owner) && PagesKept(owner, old(pages), pages)
      ensures !ok ==> |old(freelist)| < 1 + |TablesOf(i, i + 1) - Pdes(old(M()), d2)|
      ensures ok ==>
                && old(freelist) != [] && f !in old(owner) && pages == old(pages)[f := old(pages)[pte.ppn]]
                && SameMaps(old(M()), M(), d2, i, i + 1) && PteAt(M(), d2, i) == Pte(f, true, pte.flags)
                && GrewTables(old(owner)[f := Page(d2, i)], owner, d2)
                && Grown(Pdes(old(M()), d2), |old(freelist)| - 1, Pdes(M(), d2), |freelist|, TablesOf(i, i + 1))
    {
      hide Sound, FreeOk, PteAt, PdeAt, SameMaps, GrewTables, Pdes, Grown, TablesOf;
      ok, f := false, 0;
      var mem, e := NewUserPage(d2, i, pages[pte.ppn], pte.flags);
      if mem == None {
        return;
      }
      f := mem.value;
      assert e != Remap;
      if e == NoMemory {
        FreedSpare(M(), f);
        Unspared(old(M()), f);
        var _ := Kfree(f);
        return;
      }
      ok := true;
    }

    /** copyuvm: a new directory with copies of the first pages of d.  It panics on the first page that is missing, if
        memory lasts that long; if memory runs out everything is given back. */
    method Copyuvm(d: nat, sz: nat, kmap: seq<Range>) returns (r: CopyEnd)
      requires Valid() && d in dirs && sz <= KERNBASE && KmapOk(kmap)
      modifies this`freelist, this`tables, this`owner, this`dirs, this`pages
      ensures r.Copy? <==> AllMapped(old(M()), d, PgUp(sz)) && |old(freelist)| >= CopyNeed(kmap, PgUp(sz))
      ensures r == MissingPage <==> exists v: nat :: v < PgUp(sz) && MissesAt(old(M()), |old(freelist)|, d, kmap, v)
      ensures r != MissingPage ==>
                Valid() && SameMaps(old(M()), M(), 0, 0, 0) && PagesKept(old(owner), old(pages), pages)
      ensures r == NoCopy ==> dirs == old(dirs) && owner == old(owner)
      ensures r.Copy? ==>
                && dirs == old(dirs) + {r.dir} && r.dir !in old(owner) && OfDir(old(owner), owner, r.dir)
                && Copied(old(M()), M(), old(pages), pages, d, r.dir, PgUp(sz)) && KernelMaps(M(), r.dir, kmap, |kmap|)
    {
      hide Sound, FreeOk, PteAt, PdeAt, SameMaps, KmapOk, GrewTables, Copied, PagesKept, Pdes, TablesOf, Grown,
        KernelSpace, CopySpace, AllMapped, MissesAt, CopyNeed, KernelTables, OfDir, KernelMaps;
      ghost var hi := PgUp(sz);
      PgUpBounds0(sz);
      SoundShape(M());
      NothingWritten(old(owner), pages);
      ghost var m0, n0 := M(), |freelist|;
      var dir := Setupkvm(kmap);
      if dir == None {
        NoKernelSpace(m0, n0, d, kmap, hi);
        return NoCopy;
      }
      var d2 := dir.value;
      CopyStart(m0, n0, M(), |freelist|, pages, d, d2, kmap);
      var i := 0;
      while i * PGSIZE < sz
        invariant 0 <= i <= hi && Valid() && CopySpace(m0, n0, M(), |freelist|, old(pages), pages, d, d2, kmap, i)
        decreases hi - i
      {
        PgUpIs(sz, i);
        ghost var m, n := M(), |freelist|;
        SoundShape(m);
        CopyDirs(m0, n0, m, n, old(pages), pages, d, d2, kmap, i);
        var t := Walkpgdir(d, i, false);
        if t == None {
          NoTable(m, d, i, i);
          PageMissing(m0, n0, m, n, old(pages), pages, d, d2, kmap, i, hi);
          return MissingPage;
        }
        EntryHere(m, d, i);
        var pte := tables[t.value][i % ENTRIES];
        if !pte.present {
          PageMissing(m0, n0, m, n, old(pages), pages, d, d2, kmap, i, hi);
          return MissingPage;
        }
        PageFrame(m, d, i);
        CopySource(m0, n0, m, n, old(pages), pages, d, d2, kmap, i);
        ghost var pages1 := pages;
        var ok, f := CopyPage(d2, i, pte);
        if !ok {
          NoCopySpace(m0, n0, m, n, old(pages), pages1, pages, d, d2, kmap, i, hi);
          Freevm(d2);
          Restored(m0, m, owner, d2);
          OtherDirs2(m0, m, M(), d2);
          return NoCopy;
        }
        CopyMore(m0, n0, m, n, M(), |freelist|, old(pages), pages1, d, d2, kmap, i, f, pte);
        i := i + 1;
      }
      PgUpIs(sz, i);
      CopyComplete(m0, n0, M(), |freelist|, old(pages), pages, d, d2, kmap, hi);
      r := Copy(d2);
    }

    /** copyout, by way of uva2ka: bytes into the memory of the process of directory d, page by page, until a page is
        not the user's.  NullPte is the use of the null pointer that uva2ka gets where there is not even a page table;
        what it reads there is not modelled. */
    method Copyout(d: nat, va: nat, p: seq<Byte>) returns (r: CopyoutEnd, ghost k: nat)
      requires Valid() && d in dirs && va + |p| <= PAGES * PGSIZE
      requires forall v: nat | USER <= v < PAGES :: !UserPte(PteAt(M(), d, v))
      modifies this`pages, this`freelist, this`tables, this`owner
      ensures Valid() && tables == old(tables) && owner == old(owner) && freelist == old(freelist)
      ensures r == AllCopied <==> AllUser(M(), d, va, |p|)
      ensures r == Refused <==> exists j: nat :: j < |p| && EndsAt(M(), d, va, j) && TableAt(M(), d, va + j)
      ensures r == NullPte <==> exists j: nat :: j < |p| && EndsAt(M(), d, va, j) && !TableAt(M(), d, va + j)
      ensures k <= |p| && Wrote(M(), old(pages), pages, d, va, p, k)
      ensures if r == AllCopied then k == |p| else EndsAt(M(), d, va, k)
    {
      hide Sound, FreeOk, PteAt, PdeAt, Wrote, UserPte, AllUser, TableAt, EndsAt;
      SoundShape(M());
      WroteNothing(M(), pages, d, va, p);
      var done := 0;
      k := 0;
      while done < |p|
        invariant 0 <= done <= |p| && k == done && Valid()
        invariant tables == old(tables) && owner == old(owner) && freelist == old(freelist)
        invariant Wrote(M(), old(pages), pages, d, va, p, done) && AllUser(M(), d, va, done)
      {
        var pos := va + done;
        var v := pos / PGSIZE;
        var t := Walkpgdir(d, v, false);
        if t == None {
          NoTable(M(), d, v, v);
          EmptyNotUser();
          NotUser(M(), d, va, |p|, done);
          OneEnd(M(), d, va, done);
          return NullPte, k;
        }
        EntryHere(M(), d, v);
        var pte := tables[t.value][v % ENTRIES];
        if !UserPte(pte) {
          NotUser(M(), d, va, |p|, done);
          OneEnd(M(), d, va, done);
          return Refused, k;
        }
        UserIsPresent(pte);
        PageFrame(M(), d, v);
        var n := if PGSIZE - pos % PGSIZE < |p| - done then PGSIZE - pos % PGSIZE else |p| - done;
        WroteMore(M(), old(pages), pages, d, va, p, done, n);
        MoreUser(M(), d, va, done, n);
        pages := pages[pte.ppn := Overlaid(pages[pte.ppn], pos % PGSIZE, p[done..done + n])];
        done := done + n;
        k := done;
      }
      NoEnd(M(), d, va, |p|);
      r := AllCopied;
    }

    /** What allocuvm has added is the user's: a copyout into it goes through, and the process then reads the bytes
        copied, and zeroes everywhere else. */
    method GrowThenCopyout(d: nat, oldsz: nat, newsz: nat, va: nat, p: seq<Byte>)
      returns (r: Option<nat>, e: CopyoutEnd)
      requires Valid() && d in dirs && oldsz <= newsz < KERNBASE && newsz > 0
      requires PgUp(oldsz) * PGSIZE <= va && va + |p| <= newsz
      requires forall v: nat | USER <= v < PAGES :: !UserPte(PteAt(M(), d, v))
      modifies this`pages, this`freelist, this`tables, this`owner
      ensures r == Some(newsz) ==> e == AllCopied && Valid() && d in dirs
      ensures r == Some(newsz) ==>
                forall a: nat | PgUp(oldsz) * PGSIZE <= a < newsz ::
                  Reads(M(), pages, d, a, Over0(va, p, a))
    {
      hide Sound, FreeOk, PteAt, PdeAt, SameMaps, NewPages, GrewTables, PagesKept, Unmapped, Need, InTheWay, UserPte,
        AllUser, TableAt, EndsAt, Reads, Wrote, PgUp;
      SoundShape(M());
      ghost var m0 := M();
      r := Allocuvm(d, oldsz, newsz);
      e := AllCopied;
      if r == Some(newsz) {
        SoundShape(M());
        ghost var m, pages1 := M(), pages;
        NewIsUser(m0, m, pages, d, oldsz, newsz, va, |p|);
        ghost var k;
        e, k := Copyout(d, va, p);
        forall a: nat | PgUp(oldsz) * PGSIZE <= a < newsz
          ensures Reads(M(), pages, d, a, Over0(va, p, a))
        {
          NewReadsZero(m0, m, pages1, d, oldsz, newsz, a);
          BytesSeen(m, pages1, pages, d, va, p, k, d, a);
        }
      }
    }

    /** Parent and child have their memories apart: what is written to the parent after copyuvm, the child does not
        see; it reads what the parent read before. */
    method CopyThenWrite(d: nat, sz: nat, kmap: seq<Range>, va: nat, p: seq<Byte>) returns (r: CopyEnd, e: CopyoutEnd)
      requires Valid() && d in dirs && sz <= KERNBASE && KmapOk(kmap) && va + |p| <= PAGES * PGSIZE
      requires forall v: nat | USER <= v < PAGES :: !UserPte(PteAt(M(), d, v))
      modifies this`freelist, this`tables, this`owner, this`dirs, this`pages
      ensures r.Copy? ==> Valid() && r.dir != d
      ensures r.Copy? ==>
                forall a: nat, b: Byte | a < PgUp(sz) * PGSIZE && Reads(old(M()), old(pages), d, a, b) ::
                  Reads(M(), pages, r.dir, a, b)
    {
      hide Sound, FreeOk, PteAt, PdeAt, SameMaps, KmapOk, Copied, PagesKept, OfDir, KernelMaps, Wrote, UserPte, PgUp,
        AllUser, TableAt, EndsAt, Reads, AllMapped, CopyNeed, MissesAt;
      SoundShape(M());
      ghost var m0, pages0 := M(), pages;
      r := Copyuvm(d, sz, kmap);
      e := AllCopied;
      if r.Copy? {
        SoundShape(M());
        StillNotUser(m0, M(), d);
        ghost var m, pages1 := M(), pages;
        ghost var k;
        e, k := Copyout(d, va, p);
        forall a: nat, b: Byte | a < PgUp(sz) * PGSIZE && Reads(m0, pages0, d, a, b)
          ensures Reads(M(), pages, r.dir, a, b)
        {
          CopyReads(m0, m, pages0, pages1, d, r.dir, sz, a, b);
          ReadsMapped(m, pages1, r.dir, a, b, sz);
          BytesSeen(m, pages1, pages, d, va, p, k, r.dir, a);
        }
      }
    }
  }

  lemma ReadsMapped(m: Mem, pages: map<nat, seq<Byte>>, d: nat, a: nat, b: Byte, sz: nat)
    requires Reads(m, pages, d, a, b) && a < PgUp(sz) * PGSIZE && sz <= KERNBASE
    ensures PteAt(m, d, a / PGSIZE).present && a < USER * PGSIZE
  {
    hide PteAt, Shape;
    PgUpBounds0(sz);
  }

  lemma StillNotUser(m: Mem, m': Mem, d: nat)
    requires SameMaps(m, m', 0, 0, 0) && d in m.dirs && d in m'.dirs
    requires forall v: nat | USER <= v < PAGES :: !UserPte(PteAt(m, d, v))
    ensures forall v: nat | USER <= v < PAGES :: !UserPte(PteAt(m', d, v))
  {
    hide PteAt, UserPte;
  }

  /** The byte at address a of p lying at va among zeroes. */
  function Over0(va: nat, p: seq<Byte>, a: nat): Byte {
    if va <= a < va + |p| then p[a - va] else 0
  }

  /** The process of directory d reads byte b at address a. */
  ghost predicate Reads(m: Mem, pages: map<nat, seq<Byte>>, d: nat, a: nat, b: Byte) {
    && Shape(m) && d in m.dirs && a < PAGES * PGSIZE
    && var pte := PteAt(m, d, a / PGSIZE);
       pte.present && pte.ppn in pages && |pages[pte.ppn]| == PGSIZE && pages[pte.ppn][a % PGSIZE] == b
  }

  /** After k bytes of p have been written for the process of directory d, it reads them from va on, and every other
      address of every process reads as before. */
  lemma BytesSeen(m: Mem, pages0: map<nat, seq<Byte>>, pages: map<nat, seq<Byte>>, d: nat, va: nat, p: seq<Byte>,
                  k: nat, d': nat, a: nat)
    requires Sound(m) && Wrote(m, pages0, pages, d, va, p, k)
    requires d' in m.dirs && a < USER * PGSIZE && PteAt(m, d', a / PGSIZE).present
    ensures d' == d && va <= a < va + k ==> Reads(m, pages, d', a, p[a - va])
    ensures !(d' == d && va <= a < va + k) ==> forall b | Reads(m, pages0, d', a, b) :: Reads(m, pages, d', a, b)
  {
    hide PteAt;
    SoundShape(m);
    PageFrame(m, d', a / PGSIZE);
  }

  /** The child reads what the parent reads, up to the size copied. */
  lemma CopyReads(m0: Mem, m: Mem, pages0: map<nat, seq<Byte>>, pages: map<nat, seq<Byte>>, d: nat, d2: nat, sz: nat,
                  a: nat, b: Byte)
    requires Shape(m0) && Shape(m) && d in m0.dirs && d2 in m.dirs && sz <= KERNBASE && a < PgUp(sz) * PGSIZE
    requires Copied(m0, m, pages0, pages, d, d2, PgUp(sz)) && Reads(m0, pages0, d, a, b)
    ensures Reads(m, pages, d2, a, b)
  {
    hide PteAt, Shape;
    assert a / PGSIZE < PgUp(sz) <= USER;
    assert CopiedPage(m0, PteAt(m0, d, a / PGSIZE), PteAt(m, d2, a / PGSIZE), pages0, pages);
  }

  lemma NewIsUser(m0: Mem, m: Mem, pages: map<nat, seq<Byte>>, d: nat, oldsz: nat, newsz: nat, va: nat, n: nat)
    requires d in m0.dirs && Shape(m0) && forall v: nat | USER <= v < PAGES :: !UserPte(PteAt(m0, d, v))
    requires NewPages(m0, m, pages, d, PgUp(oldsz), PgUp(newsz), {}) && Shape(m)
    requires PgUp(oldsz) * PGSIZE <= va && va + n <= newsz < KERNBASE
    ensures d in m.dirs && forall v: nat | USER <= v < PAGES :: !UserPte(PteAt(m, d, v))
    ensures AllUser(m, d, va, n)
  {
    hide PteAt, Shape;
    forall a: nat | va <= a < va + n ensures a / PGSIZE < PAGES && UserByte(m, d, a) {
      assert PgUp(oldsz) <= a / PGSIZE < PgUp(newsz);
      assert NewPage(m0, PteAt(m, d, a / PGSIZE), pages);
    }
  }

  lemma NewReadsZero(m0: Mem, m: Mem, pages: map<nat, seq<Byte>>, d: nat, oldsz: nat, newsz: nat, a: nat)
    requires NewPages(m0, m, pages, d, PgUp(oldsz), PgUp(newsz), {}) && Shape(m)
    requires PgUp(oldsz) * PGSIZE <= a < newsz < KERNBASE
    ensures Reads(m, pages, d, a, 0) && PteAt(m, d, a / PGSIZE).present && a < USER * PGSIZE
  {
    hide PteAt, Shape;
    assert PgUp(oldsz) <= a / PGSIZE < PgUp(newsz);
    assert NewPage(m0, PteAt(m, d, a / PGSIZE), pages);
  }

  /** A process that maps nothing: the first byte already finds no page table. */
  method CopyToNowhere() returns (kernel: Kernel, r: CopyoutEnd)
    ensures fresh(kernel) && kernel.Valid() && r == NullPte
  {
    hide Sound, SameMaps;
    kernel := new Kernel([1], 1, 2);
    var d := kernel.Setupkvm([]);
    SoundShape(kernel.M());
    NothingMapped(kernel.M(), d.value);
    ghost var k;
    r, k := kernel.Copyout(d.value, 0, [0]);
  }

  datatype CopyoutEnd = AllCopied | Refused | NullPte

  /** PTE_P and PTE_U. */
  predicate UserPte(pte: Pte) {
    pte.present && pte.flags / 4 % 2 == 1
  }

  /** PTE_W. */
  predicate Writable(pte: Pte) {
    pte.flags / 2 % 2 == 1
  }

  function Overlaid(page: seq<Byte>, at: nat, bytes: seq<Byte>): seq<Byte>
    requires at + |bytes| <= |page|
  {
    page[..at] + bytes + page[at + |bytes|..]
  }

  /** Every page that n bytes from va on touch is the user's. */
  ghost predicate AllUser(m: Mem, d: nat, va: nat, n: nat) {
    && Shape(m) && d in m.dirs && va + n <= PAGES * PGSIZE
    && forall a: nat | va <= a < va + n :: UserByte(m, d, a)
  }

  /** The bytes from va on are the user's up to the j-th, which is not. */
  ghost predicate EndsAt(m: Mem, d: nat, va: nat, j: nat) {
    AllUser(m, d, va, j) && va + j < PAGES * PGSIZE && !UserByte(m, d, va + j)
  }

  /** There is a page table for the address. */
  ghost predicate TableAt(m: Mem, d: nat, a: nat) {
    Shape(m) && d in m.dirs && a < PAGES * PGSIZE && PdeAt(m, d, a / PGSIZE / ENTRIES).present
  }

  ghost predicate UserByte(m: Mem, d: nat, a: nat)
    requires Shape(m) && d in m.dirs && a < PAGES * PGSIZE
  {
    UserPte(PteAt(m, d, a / PGSIZE))
  }

  /** Page v of a process once the first k bytes of p are written from va on. */
  ghost function PageWith(page: seq<Byte>, v: nat, va: nat, p: seq<Byte>, k: nat): (r: seq<Byte>)
    requires |page| == PGSIZE && k <= |p|
    ensures |r| == PGSIZE
  {
    seq(PGSIZE, o requires 0 <= o < PGSIZE => if va <= v * PGSIZE + o < va + k then p[v * PGSIZE + o - va] else page[o])
  }

  /** The process of directory d sees k bytes of p written, and nobody sees anything else change. */
  ghost predicate Wrote(m: Mem, pages0: map<nat, seq<Byte>>, pages: map<nat, seq<Byte>>, d: nat, va: nat, p: seq<Byte>,
                        k: nat) {
    && Shape(m) && d in m.dirs && k <= |p|
    && (forall f | f in m.owner && m.owner[f].Page? ::
          f in pages0 && f in pages && |pages0[f]| == PGSIZE
          && pages[f] == if m.owner[f].dir == d then PageWith(pages0[f], m.owner[f].vpn, va, p, k) else pages0[f])
  }

  lemma WroteNothing(m: Mem, pages: map<nat, seq<Byte>>, d: nat, va: nat, p: seq<Byte>)
    requires Shape(m) && d in m.dirs
    requires forall f | f in m.owner && m.owner[f].Page? :: f in pages && |pages[f]| == PGSIZE
    requires va + |p| <= PAGES * PGSIZE
    ensures Wrote(m, pages, pages, d, va, p, 0) && AllUser(m, d, va, 0)
  {
    forall f | f in m.owner && m.owner[f].Page? ensures PageWith(pages[f], m.owner[f].vpn, va, p, 0) == pages[f] {
    }
  }

  lemma OtherPage(page: seq<Byte>, v: nat, va: nat, p: seq<Byte>, k: nat, n: nat)
    requires |page| == PGSIZE && k + n <= |p| && (va + k) % PGSIZE + n <= PGSIZE && v != (va + k) / PGSIZE
    ensures PageWith(page, v, va, p, k + n) == PageWith(page, v, va, p, k)
  {
  }

  lemma ThisPage(page: seq<Byte>, va: nat, p: seq<Byte>, k: nat, n: nat)
    requires |page| == PGSIZE && k + n <= |p| && (va + k) % PGSIZE + n <= PGSIZE
    ensures PageWith(page, (va + k) / PGSIZE, va, p, k + n)
         == Overlaid(PageWith(page, (va + k) / PGSIZE, va, p, k), (va + k) % PGSIZE, p[k..k + n])
  {
  }

  lemma WroteMore(m: Mem, pages0: map<nat, seq<Byte>>, pages: map<nat, seq<Byte>>, d: nat, va: nat, p: seq<Byte>,
                  k: nat, n: nat)
    requires Sound(m) && Wrote(m, pages0, pages, d, va, p, k) && k + n <= |p| && (va + k) % PGSIZE + n <= PGSIZE
    requires va + k < USER * PGSIZE && PteAt(m, d, (va + k) / PGSIZE).present
    ensures var f := PteAt(m, d, (va + k) / PGSIZE).ppn;
            && f in pages && |pages[f]| == PGSIZE
            && Wrote(m, pages0, pages[f := Overlaid(pages[f], (va + k) % PGSIZE, p[k..k + n])], d, va, p, k + n)
  {
    hide PteAt, Overlaid, PageWith;
    var v := (va + k) / PGSIZE;
    PageFrame(m, d, v);
    var f := PteAt(m, d, v).ppn;
    ThisPage(pages0[f], va, p, k, n);
    forall g | g in m.owner && m.owner[g].Page? && m.owner[g].dir == d && g != f
      ensures g in pages0 && |pages0[g]| == PGSIZE
              && PageWith(pages0[g], m.owner[g].vpn, va, p, k + n) == PageWith(pages0[g], m.owner[g].vpn, va, p, k)
    {
      assert FrameOk(m, g);
      OtherPage(pages0[g], m.owner[g].vpn, va, p, k, n);
    }
  }

  lemma NotUser(m: Mem, d: nat, va: nat, n: nat, k: nat)
    requires AllUser(m, d, va, k) && va + n <= PAGES * PGSIZE && k < n && !UserPte(PteAt(m, d, (va + k) / PGSIZE))
    ensures !AllUser(m, d, va, n) && EndsAt(m, d, va, k)
    ensures TableAt(m, d, va + k) <==> PdeAt(m, d, (va + k) / PGSIZE / ENTRIES).present
  {
    assert !UserByte(m, d, va + k);
  }

  /** There is one place where the user's bytes end. */
  lemma OneEnd(m: Mem, d: nat, va: nat, k: nat)
    requires EndsAt(m, d, va, k)
    ensures forall j: nat | EndsAt(m, d, va, j) :: j == k
  {
    hide UserByte;
  }

  lemma NoEnd(m: Mem, d: nat, va: nat, n: nat)
    requires AllUser(m, d, va, n)
    ensures forall j: nat | j < n :: !EndsAt(m, d, va, j)
  {
    hide UserByte;
    forall j: nat | j < n ensures !EndsAt(m, d, va, j) {
      assert UserByte(m, d, va + j);
    }
  }

  lemma NothingMapped(m: Mem, d: nat)
    requires Shape(m) && d in m.dirs && OnlyBelow(m, d, [], 0) && Pdes(m, d) == {}
    ensures forall v: nat | v < PAGES :: !UserPte(PteAt(m, d, v))
    ensures EndsAt(m, d, 0, 0) && !TableAt(m, d, 0)
  {
    assert !UserByte(m, d, 0);
    assert 0 !in Pdes(m, d);
  }

  lemma EmptyNotUser()
    ensures !UserPte(EMPTY)
  {
  }

  lemma UserIsPresent(pte: Pte)
    requires UserPte(pte)
    ensures pte.present
  {
  }

  lemma MoreUser(m: Mem, d: nat, va: nat, k: nat, n: nat)
    requires AllUser(m, d, va, k) && va + k + n <= PAGES * PGSIZE && (va + k) % PGSIZE + n <= PGSIZE
    requires va + k < PAGES * PGSIZE
    requires UserPte(PteAt(m, d, (va + k) / PGSIZE))
    ensures AllUser(m, d, va, k + n)
  {
    hide PteAt, UserPte;
    forall a: nat | va <= a < va + (k + n) ensures UserByte(m, d, a) {
      if a >= va + k {
        assert a / PGSIZE == (va + k) / PGSIZE;
      }
    }
  }

  datatype CopyEnd = Copy(dir: nat) | NoCopy | MissingPage

  /** The first a pages of d2 have the contents and flags of those of d, on other frames, and the rest of its user pages
      are not mapped. */
  ghost predicate Copied(m0: Mem, m: Mem, pages0: map<nat, seq<Byte>>, pages: map<nat, seq<Byte>>, d: nat, d2: nat,
                         a: nat) {
    && Shape(m0) && Shape(m) && d in m0.dirs && d2 in m.dirs && a <= USER
    && (forall v: nat | v < a :: CopiedPage(m0, PteAt(m0, d, v), PteAt(m, d2, v), pages0, pages))
    && (forall v: nat | a <= v < USER :: PteAt(m, d2, v) == EMPTY)
  }

  ghost predicate CopiedPage(m0: Mem, pte: Pte, pte2: Pte, pages0: map<nat, seq<Byte>>, pages: map<nat, seq<Byte>>) {
    && pte.present && pte2.present && pte2.flags == pte.flags && pte2.ppn !in m0.owner
    && pte.ppn in pages0 && pte2.ppn in pages && pages[pte2.ppn] == pages0[pte.ppn]
  }

  lemma PgUpBounds0(sz: nat)
    requires sz <= KERNBASE
    ensures PgUp(sz) <= USER
  {
  }

  lemma NothingWritten(owner: map<nat, Place>, pages: map<nat, seq<Byte>>)
    ensures PagesKept(owner, pages, pages)
  {
  }

  ghost predicate AllMapped(m: Mem, d: nat, a: nat) {
    Shape(m) && d in m.dirs && forall v: nat | v < a && v < PAGES :: PteAt(m, d, v).present
  }

  /** The frames that a copy of a pages takes: the directory, the pages, and the tables for them and for the kernel. */
  ghost function CopyNeed(kmap: seq<Range>, a: nat): nat {
    1 + a + |KernelTables(kmap, |kmap|) + TablesOf(0, a)|
  }

  /** Page v is the first that is missing, and n frames last until it is found. */
  ghost predicate MissesAt(m: Mem, n: nat, d: nat, kmap: seq<Range>, v: nat) {
    v < PAGES && AllMapped(m, d, v) && !PteAt(m, d, v).present && n >= CopyNeed(kmap, v)
  }

  /** Directory d2 is new, maps what the kernel maps, and has copies of the first a pages of d; of n0 frames n are
      left. */
  ghost predicate CopySpace(m0: Mem, n0: nat, m: Mem, n: nat, pages0: map<nat, seq<Byte>>, pages: map<nat, seq<Byte>>,
                            d: nat, d2: nat, kmap: seq<Range>, a: nat) {
    && m.dirs == m0.dirs + {d2} && d2 !in m0.dirs && d2 !in m0.owner && OfDir(m0.owner, m.owner, d2)
    && KernelMaps(m, d2, kmap, |kmap|) && SameMaps(m0, m, 0, 0, 0)
    && Copied(m0, m, pages0, pages, d, d2, a) && PagesKept(m0.owner, pages0, pages)
    && n0 > 0 && Grown({}, n0 - 1, Pdes(m, d2), n + a, KernelTables(kmap, |kmap|) + TablesOf(0, a))
  }

  lemma CopyStart(m0: Mem, n0: nat, m: Mem, n: nat, pages: map<nat, seq<Byte>>, d: nat, d2: nat, kmap: seq<Range>)
    requires Shape(m0) && d in m0.dirs && d2 !in m0.owner && KernelSpace(m0, n0, m, n, d2, kmap, |kmap|)
    ensures CopySpace(m0, n0, m, n, pages, pages, d, d2, kmap, 0)
  {
    hide PteAt, Pdes, KernelTables, Grown;
    assert KernelTables(kmap, |kmap|) + TablesOf(0, 0) == KernelTables(kmap, |kmap|);
  }

  lemma CopyDirs(m0: Mem, n0: nat, m: Mem, n: nat, pages0: map<nat, seq<Byte>>, pages: map<nat, seq<Byte>>,
                 d: nat, d2: nat, kmap: seq<Range>, a: nat)
    requires CopySpace(m0, n0, m, n, pages0, pages, d, d2, kmap, a) && a < USER
    ensures d in m.dirs && d in m0.dirs && d2 in m.dirs && PteAt(m, d, a) == PteAt(m0, d, a)
    ensures forall g | g in m0.owner :: g in m.owner
  {
    hide Pdes, TablesOf, KernelTables, PteAt;
  }

  /** The page to be copied is as it was, and there is no copy of it yet. */
  lemma CopySource(m0: Mem, n0: nat, m: Mem, n: nat, pages0: map<nat, seq<Byte>>, pages: map<nat, seq<Byte>>,
                   d: nat, d2: nat, kmap: seq<Range>, a: nat)
    requires CopySpace(m0, n0, m, n, pages0, pages, d, d2, kmap, a) && a < USER && Sound(m0) && d in m.dirs
    requires PteAt(m, d, a).present
    requires forall f | f in m0.owner && m0.owner[f].Page? :: f in pages0 && |pages0[f]| == PGSIZE
    ensures !PteAt(m, d2, a).present
    ensures var f := PteAt(m, d, a).ppn; f in pages0 && f in pages && pages[f] == pages0[f] && |pages[f]| == PGSIZE
  {
    hide Pdes, TablesOf, KernelTables, PteAt, Sound;
    assert PteAt(m, d, a) == PteAt(m0, d, a);
    PageFrame(m0, d, a);
  }

  lemma NoKernelSpace(m: Mem, n: nat, d: nat, kmap: seq<Range>, hi: nat)
    requires n < 1 + |KernelTables(kmap, |kmap|)|
    ensures n < CopyNeed(kmap, hi) && forall v: nat | v < hi :: !MissesAt(m, n, d, kmap, v)
  {
    hide TablesOf, KernelTables, AllMapped, PteAt;
    forall v: nat | v <= hi ensures n < CopyNeed(kmap, v) {
      FewerTables({}, KernelTables(kmap, |kmap|), KernelTables(kmap, |kmap|) + TablesOf(0, v));
      Minus(KernelTables(kmap, |kmap|));
      Minus(KernelTables(kmap, |kmap|) + TablesOf(0, v));
    }
  }

  lemma Minus(s: set<nat>)
    ensures s - {} == s
  {
  }

  lemma CopyNeedGrows(kmap: seq<Range>, a: nat, b: nat)
    requires a <= b
    ensures CopyNeed(kmap, a) <= CopyNeed(kmap, b)
  {
    hide TablesOf, KernelTables;
    var k := KernelTables(kmap, |kmap|);
    TablesGrow(0, a, b);
    FewerTables({}, k + TablesOf(0, a), k + TablesOf(0, b));
    Minus(k + TablesOf(0, a));
    Minus(k + TablesOf(0, b));
  }

  lemma CopySpent(m0: Mem, n0: nat, m: Mem, n: nat, pages0: map<nat, seq<Byte>>, pages: map<nat, seq<Byte>>,
                  d: nat, d2: nat, kmap: seq<Range>, a: nat)
    requires CopySpace(m0, n0, m, n, pages0, pages, d, d2, kmap, a)
    ensures n0 == n + CopyNeed(kmap, a) && AllMapped(m0, d, a)
  {
    hide Pdes, TablesOf, KernelTables, PteAt;
    Minus(KernelTables(kmap, |kmap|) + TablesOf(0, a));
    forall v: nat | v < a ensures PteAt(m0, d, v).present {
      assert CopiedPage(m0, PteAt(m0, d, v), PteAt(m, d2, v), pages0, pages);
    }
  }

  lemma PageMissing(m0: Mem, n0: nat, m: Mem, n: nat, pages0: map<nat, seq<Byte>>, pages: map<nat, seq<Byte>>,
                    d: nat, d2: nat, kmap: seq<Range>, a: nat, hi: nat)
    requires CopySpace(m0, n0, m, n, pages0, pages, d, d2, kmap, a) && d in m.dirs && a < hi <= USER
    requires !PteAt(m, d, a).present
    ensures MissesAt(m0, n0, d, kmap, a) && !AllMapped(m0, d, hi)
  {
    hide Pdes, TablesOf, KernelTables, PteAt;
    CopySpent(m0, n0, m, n, pages0, pages, d, d2, kmap, a);
    assert PteAt(m, d, a) == PteAt(m0, d, a);
  }

  /** The next page is there but not the frames for its copy. */
  lemma NoCopySpace(m0: Mem, n0: nat, m: Mem, n: nat, pages0: map<nat, seq<Byte>>, pages: map<nat, seq<Byte>>,
                    pages2: map<nat, seq<Byte>>, d: nat, d2: nat, kmap: seq<Range>, a: nat, hi: nat)
    requires CopySpace(m0, n0, m, n, pages0, pages, d, d2, kmap, a) && d in m.dirs && a < hi <= USER
    requires PteAt(m, d, a).present
    requires n < 1 + |TablesOf(a, a + 1) - Pdes(m, d2)| && PagesKept(m.owner, pages, pages2)
    ensures n0 < CopyNeed(kmap, hi) && forall v: nat | v < hi :: !MissesAt(m0, n0, d, kmap, v)
    ensures OfDir(m0.owner, m.owner, d2) && SameMaps(m0, m, 0, 0, 0) && m.dirs == m0.dirs + {d2} && d2 !in m0.dirs
    ensures d2 !in m0.owner
    ensures PagesKept(m0.owner, pages0, pages2)
  {
    hide Pdes, TablesOf, PteAt, KernelTables, Copied, MissesAt;
    CopySpent(m0, n0, m, n, pages0, pages, d, d2, kmap, a);
    assert PteAt(m, d, a) == PteAt(m0, d, a);
    ShortOfOne(n0, Pdes(m, d2), n, kmap, a);
    CopyNeedGrows(kmap, a + 1, hi);
    forall v: nat | v < hi ensures !MissesAt(m0, n0, d, kmap, v) {
      NotMissing(m0, n0, d, kmap, a, v);
    }
  }

  lemma ShortOfOne(n0: nat, p: set<nat>, n: nat, kmap: seq<Range>, a: nat)
    requires n0 > 0 && Grown({}, n0 - 1, p, n + a, KernelTables(kmap, |kmap|) + TablesOf(0, a))
    requires n < 1 + |TablesOf(a, a + 1) - p|
    ensures n0 < CopyNeed(kmap, a + 1)
  {
    hide TablesOf, KernelTables;
    var k := KernelTables(kmap, |kmap|);
    NextTable(0, a);
    GrownShort({}, n0 - 1, p, n + a, k + TablesOf(0, a), TablesOf(a, a + 1));
    Minus(k + TablesOf(0, a));
    Minus(k + TablesOf(0, a + 1));
    assert k + TablesOf(0, a) + TablesOf(a, a + 1) == k + TablesOf(0, a + 1);
  }

  lemma NotMissing(m: Mem, n: nat, d: nat, kmap: seq<Range>, a: nat, v: nat)
    requires AllMapped(m, d, a) && a < PAGES && PteAt(m, d, a).present && n < CopyNeed(kmap, a + 1)
    ensures !MissesAt(m, n, d, kmap, v)
  {
    hide PteAt, CopyNeed;
    if v > a {
      CopyNeedGrows(kmap, a + 1, v);
    }
  }

  lemma CopyComplete(m0: Mem, n0: nat, m: Mem, n: nat, pages0: map<nat, seq<Byte>>, pages: map<nat, seq<Byte>>,
                     d: nat, d2: nat, kmap: seq<Range>, hi: nat)
    requires CopySpace(m0, n0, m, n, pages0, pages, d, d2, kmap, hi)
    ensures AllMapped(m0, d, hi) && n0 >= CopyNeed(kmap, hi) && forall v: nat | v < hi :: !MissesAt(m0, n0, d, kmap, v)
    ensures m.dirs == m0.dirs + {d2} && d2 !in m0.owner && OfDir(m0.owner, m.owner, d2) && SameMaps(m0, m, 0, 0, 0)
    ensures Copied(m0, m, pages0, pages, d, d2, hi) && KernelMaps(m, d2, kmap, |kmap|)
    ensures PagesKept(m0.owner, pages0, pages)
  {
    hide Pdes, TablesOf, PteAt, KernelTables, Copied, CopyNeed;
    CopySpent(m0, n0, m, n, pages0, pages, d, d2, kmap, hi);
  }

  /** One more page has been copied. */
  lemma CopyMore(m0: Mem, n0: nat, m: Mem, n: nat, m2: Mem, n2: nat, pages0: map<nat, seq<Byte>>,
                 pages: map<nat, seq<Byte>>, d: nat, d2: nat, kmap: seq<Range>, a: nat, f: nat, pte: Pte)
    requires Shape(m0) && Sound(m) && CopySpace(m0, n0, m, n, pages0, pages, d, d2, kmap, a) && a < USER && KmapOk(kmap)
    requires d in m0.dirs && PteAt(m0, d, a) == pte && pte.present && pte.ppn in pages0 && pte.ppn in pages
    requires pages[pte.ppn] == pages0[pte.ppn]
    requires f !in m.owner && m2.dirs == m.dirs && SameMaps(m, m2, d2, a, a + 1) && d2 in m.dirs
    requires PteAt(m2, d2, a) == Pte(f, true, pte.flags) && GrewTables(m.owner[f := Page(d2, a)], m2.owner, d2)
    requires n > 0 && Grown(Pdes(m, d2), n - 1, Pdes(m2, d2), n2, TablesOf(a, a + 1))
    ensures CopySpace(m0, n0, m2, n2, pages0, pages[f := pages[pte.ppn]], d, d2, kmap, a + 1)
  {
    hide Pdes, TablesOf, PteAt, Sound, Copied, OfDir, SameMaps, KernelMaps, PagesKept, GrewTables, KmapOk, KernelTables;
    SoundShape(m);
    NewFrame(m0.owner, m.owner, d2);
    CopyWritten(m0, m, pages0, pages, d, d2, a, f, pages[pte.ppn]);
    MappedOfDir(m0.owner, m.owner, m2.owner, f, d2, a);
    CopyMapped(m0, m, m2, pages0, pages[f := pages[pte.ppn]], d, d2, a, f, pte);
    KernelKept(m, m2, d2, a, kmap);
    NextTable(0, a);
    assert Grown(Pdes(m, d2), n + a, Pdes(m2, d2), n2 + (a + 1), TablesOf(a, a + 1));
    GrownTrans({}, n0 - 1, Pdes(m, d2), n + a, Pdes(m2, d2), n2 + (a + 1), KernelTables(kmap, |kmap|) + TablesOf(0, a),
               TablesOf(a, a + 1));
    assert KernelTables(kmap, |kmap|) + TablesOf(0, a) + TablesOf(a, a + 1)
        == KernelTables(kmap, |kmap|) + TablesOf(0, a + 1);
  }

  /** Writing a frame that was free disturbs no copy made before. */
  lemma CopyWritten(m0: Mem, m: Mem, pages0: map<nat, seq<Byte>>, pages: map<nat, seq<Byte>>, d: nat, d2: nat, a: nat,
                    f: nat, bytes: seq<Byte>)
    requires Sound(m) && Copied(m0, m, pages0, pages, d, d2, a) && f !in m.owner
    requires forall g | g in m0.owner :: g in m.owner
    requires PagesKept(m0.owner, pages0, pages)
    ensures Copied(m0, m, pages0, pages[f := bytes], d, d2, a) && PagesKept(m0.owner, pages0, pages[f := bytes])
  {
    hide PteAt;
    forall v: nat | v < a ensures CopiedPage(m0, PteAt(m0, d, v), PteAt(m, d2, v), pages0, pages[f := bytes]) {
      assert CopiedPage(m0, PteAt(m0, d, v), PteAt(m, d2, v), pages0, pages);
      PageFrame(m, d2, v);
    }
  }

  lemma NewFrame(o: map<nat, Place>, o1: map<nat, Place>, d2: nat)
    requires OfDir(o, o1, d2)
    ensures forall g | g in o :: g in o1
  {
  }

  lemma AfterKalloc1(m0: Mem, m1: Mem, m2: Mem, d: nat, a: nat)
    requires Shape(m0) && m1.dirs == m0.dirs && m1.tables == m0.tables && SameMaps(m1, m2, d, a, a + 1)
    ensures SameMaps(m0, m2, d, a, a + 1)
  {
    SameEntries(m0, m1);
    hide PteAt, PdeAt;
  }

  lemma Unspared(m: Mem, f: nat)
    requires f !in m.owner
    ensures m.owner[f := Elsewhere] - {f} == m.owner
  {
  }

  lemma MappedOfDir(o: map<nat, Place>, o1: map<nat, Place>, o2: map<nat, Place>, f: nat, d2: nat, a: nat)
    requires OfDir(o, o1, d2) && f !in o1 && GrewTables(o1[f := Page(d2, a)], o2, d2)
    ensures OfDir(o, o2, d2)
  {
  }

  lemma CopyMapped(m0: Mem, m: Mem, m2: Mem, pages0: map<nat, seq<Byte>>, pages: map<nat, seq<Byte>>, d: nat, d2: nat,
                   a: nat, f: nat, pte: Pte)
    requires Shape(m0) && Copied(m0, m, pages0, pages, d, d2, a) && SameMaps(m0, m, 0, 0, 0) && a < USER && d != d2
    requires m.dirs == m2.dirs && m0.dirs <= m.dirs && d2 !in m0.dirs
    requires PteAt(m0, d, a) == pte && pte.present && pte.ppn in pages0
    requires f !in m0.owner && f in pages && pages[f] == pages0[pte.ppn]
    requires SameMaps(m, m2, d2, a, a + 1) && PteAt(m2, d2, a) == Pte(f, true, pte.flags)
    ensures Copied(m0, m2, pages0, pages, d, d2, a + 1) && SameMaps(m0, m2, 0, 0, 0)
  {
    hide PteAt;
  }

  lemma KernelKept(m: Mem, m2: Mem, d2: nat, a: nat, kmap: seq<Range>)
    requires Shape(m) && m.dirs == m2.dirs && d2 in m.dirs && a < USER && KmapOk(kmap)
    requires SameMaps(m, m2, d2, a, a + 1) && KernelMaps(m, d2, kmap, |kmap|)
    ensures KernelMaps(m2, d2, kmap, |kmap|)
  {
    hide PteAt;
    forall j | 0 <= j < |kmap| ensures MapsRange(m2, d2, kmap[j].v, kmap[j].n, kmap[j].ppn, kmap[j].perm) {
      assert MapsRange(m, d2, kmap[j].v, kmap[j].n, kmap[j].ppn, kmap[j].perm);
    }
  }

  /** A range of kernel addresses and what it maps to (struct kmap). */
  datatype Range = Range(v: nat, n: nat, ppn: nat, perm: nat)

  ghost predicate KmapOk(kmap: seq<Range>) {
    && (forall k | 0 <= k < |kmap| :: USER <= kmap[k].v && kmap[k].n > 0 && kmap[k].v + kmap[k].n <= PAGES)
    && (forall j, k | 0 <= j < k < |kmap| :: kmap[j].v + kmap[j].n <= kmap[k].v || kmap[k].v + kmap[k].n <= kmap[j].v)
  }

  /** Directory d maps the first k ranges of kmap. */
  ghost predicate KernelMaps(m: Mem, d: nat, kmap: seq<Range>, k: nat) {
    k <= |kmap| && forall j | 0 <= j < k :: MapsRange(m, d, kmap[j].v, kmap[j].n, kmap[j].ppn, kmap[j].perm)
  }

  ghost predicate OnlyBelow(m: Mem, d: nat, kmap: seq<Range>, k: nat) {
    && Shape(m) && d in m.dirs && k <= |kmap|
    && forall v: nat | v < PAGES && PteAt(m, d, v).present :: InRanges(v, kmap, k)
  }

  ghost predicate InRanges(v: nat, kmap: seq<Range>, k: nat)
    requires k <= |kmap|
  {
    exists j :: 0 <= j < k && kmap[j].v <= v < kmap[j].v + kmap[j].n
  }

  /** No user page from a on is mapped. */
  ghost predicate EmptyFrom(m: Mem, d: nat, a: nat) {
    Shape(m) && d in m.dirs && forall v: nat | a <= v < USER :: PteAt(m, d, v) == EMPTY
  }

  /** The new frames in use are directory d, its tables and its pages. */
  ghost predicate OfDir(o: map<nat, Place>, o': map<nat, Place>, d: nat) {
    && (forall f | f in o :: f in o' && o'[f] == o[f])
    && (forall f | f in o' && f !in o :: f == d || (o'[f].Table? && o'[f].dir == d) || (o'[f].Page? && o'[f].dir == d))
  }

  lemma AllCleared(m0: Mem, m: Mem, d: nat)
    requires Cleared(m0, m, d, 0, USER)
    ensures m.dirs == m0.dirs && SameMaps(m0, m, d, 0, USER) && m.owner == Removed(m0.owner, d, 0, 0, USER)
    ensures forall v: nat | v < USER :: PteAt(m, d, v) == EMPTY
  {
  }

  lemma NoneRemoved(o: map<nat, Place>, d: nat)
    ensures Removed(o, d, 0, 0, 0) == o
  {
  }

  lemma TableLeft(m: Mem, d: nat, i: nat)
    requires Sound(m) && d in m.dirs && i < ENTRIES
    ensures var pde := PdeAt(m, d, i);
            && (pde.present ==> pde.ppn in Removed(m.owner, d, i, 0, 0)
                                && Removed(m.owner, d, i + 1, 0, 0) == Removed(m.owner, d, i, 0, 0) - {pde.ppn})
            && (!pde.present ==> Removed(m.owner, d, i + 1, 0, 0) == Removed(m.owner, d, i, 0, 0))
    ensures PdeAt(m, d, i) == m.tables[d][i]
  {
    TableOf(m, d, i);
    hide Sound;
  }

  lemma DirLeft(m: Mem, d: nat)
    requires Sound(m) && d in m.dirs
    ensures d in Removed(m.owner, d, ENTRIES, 0, 0)
  {
  }

  lemma BothSame(m0: Mem, m1: Mem, m2: Mem, d: nat)
    requires SameMaps(m0, m1, d, 0, USER) && SameMaps(m1, m2, d, 0, PAGES) && m1.dirs == m0.dirs
    requires m1.owner == Removed(m0.owner, d, 0, 0, USER)
    ensures SameMaps(m0, m2, d, 0, PAGES)
    ensures Removed(m1.owner, d, ENTRIES, 0, 0) - {d} == Removed(m0.owner, d, ENTRIES, 0, USER) - {d}
    ensures forall f | f in Removed(m0.owner, d, ENTRIES, 0, USER) - {d} ::
              f in m0.owner && (Removed(m0.owner, d, ENTRIES, 0, USER) - {d})[f] == m0.owner[f]
  {
    hide PteAt, Shape;
  }

  /** The page tables of the first k ranges of kmap. */
  function KernelTables(kmap: seq<Range>, k: nat): set<nat>
    requires k <= |kmap|
  {
    if k == 0 then {} else KernelTables(kmap, k - 1) + TablesOf(kmap[k - 1].v, kmap[k - 1].v + kmap[k - 1].n)
  }

  /** Directory d is new and maps the first k ranges of kmap and nothing else; of n0 frames n are left. */
  ghost predicate KernelSpace(m0: Mem, n0: nat, m: Mem, n: nat, d: nat, kmap: seq<Range>, k: nat) {
    && k <= |kmap| && m.dirs == m0.dirs + {d} && d !in m0.dirs && OfDir(m0.owner, m.owner, d)
    && EmptyFrom(m, d, 0) && KernelMaps(m, d, kmap, k) && OnlyBelow(m, d, kmap, k) && SameMaps(m0, m, 0, 0, 0)
    && n0 > 0 && Grown({}, n0 - 1, Pdes(m, d), n, KernelTables(kmap, k))
  }

  lemma {:induction false} KernelTablesGrow(kmap: seq<Range>, j: nat, k: nat)
    requires j <= k <= |kmap|
    ensures KernelTables(kmap, j) <= KernelTables(kmap, k)
  {
    if j < k {
      KernelTablesGrow(kmap, j, k - 1);
    }
  }

  lemma KernelNeeds(kmap: seq<Range>)
    ensures KernelTables(kmap, 0) == {}
  {
  }

  lemma FirstDir(m0: Mem, n0: nat, m1: Mem, m2: Mem, n: nat, d: nat, kmap: seq<Range>)
    requires Shape(m0) && m1 == Mem(m0.dirs, m0.tables, m0.owner[d := Elsewhere]) && d !in m0.owner && d !in m0.dirs
    requires m2.dirs == m1.dirs + {d} && m2.owner == m1.owner[d := Directory] && n0 == n + 1 && Pdes(m2, d) == {}
    requires SameMaps(m1, m2, d, 0, PAGES) && forall v: nat | v < PAGES :: PteAt(m2, d, v) == EMPTY
    ensures KernelSpace(m0, n0, m2, n, d, kmap, 0)
  {
    SameEntries(m0, m1);
    hide PteAt, Pdes;
  }

  lemma NextRange(m0: Mem, n0: nat, m: Mem, n: nat, d: nat, kmap: seq<Range>, k: nat)
    requires KernelSpace(m0, n0, m, n, d, kmap, k) && KmapOk(kmap) && k < |kmap|
    ensures d in m.dirs && USER <= kmap[k].v && kmap[k].n > 0 && kmap[k].v + kmap[k].n <= PAGES
    ensures Unmapped(m, d, kmap[k].v, kmap[k].v + kmap[k].n)
  {
    hide PteAt, Pdes, TablesOf;
  }

  /** A range without the frames for its tables: the frames did not suffice for all of them. */
  lemma NoRange(m0: Mem, n0: nat, m: Mem, n: nat, m2: Mem, d: nat, kmap: seq<Range>, k: nat)
    requires KernelSpace(m0, n0, m, n, d, kmap, k) && k < |kmap| && m2.dirs == m.dirs
    requires GrewTables(m.owner, m2.owner, d)
    requires n < |TablesOf(kmap[k].v, kmap[k].v + kmap[k].n) - Pdes(m, d)|
    requires SameMaps(m, m2, d, kmap[k].v, kmap[k].v + kmap[k].n)
    ensures n0 < 1 + |KernelTables(kmap, |kmap|)| && d in m2.dirs && d !in m0.dirs
    ensures OfDir(m0.owner, m2.owner, d) && SameMaps(m0, m2, 0, 0, 0) && m2.dirs == m0.dirs + {d}
  {
    hide PteAt, Pdes, TablesOf, Shape;
    var t, u := KernelTables(kmap, k), TablesOf(kmap[k].v, kmap[k].v + kmap[k].n);
    GrownShort({}, n0 - 1, Pdes(m, d), n, t, u);
    KernelTablesGrow(kmap, k + 1, |kmap|);
    FewerTables({}, t + u, KernelTables(kmap, |kmap|));
    assert KernelTables(kmap, |kmap|) - {} == KernelTables(kmap, |kmap|);
  }

  lemma KernelFrames(m0: Mem, n0: nat, m: Mem, n: nat, d: nat, kmap: seq<Range>)
    requires KernelSpace(m0, n0, m, n, d, kmap, |kmap|)
    ensures n0 >= 1 + |KernelTables(kmap, |kmap|)| && SameMaps(m0, m, 0, 0, 0)
  {
    assert KernelTables(kmap, |kmap|) - {} == KernelTables(kmap, |kmap|);
  }

  lemma OtherDirs2(m0: Mem, m1: Mem, m2: Mem, d: nat)
    requires SameMaps(m0, m1, 0, 0, 0) && SameMaps(m1, m2, d, 0, PAGES) && m0.dirs <= m1.dirs && d !in m0.dirs
    ensures SameMaps(m0, m2, 0, 0, 0)
  {
    hide PteAt, Shape;
  }

  /** Giving back a new directory and all that came with it leaves what was in use before. */
  lemma Restored(m0: Mem, m: Mem, owner: map<nat, Place>, d: nat)
    requires Sound(m0) && d !in m0.dirs && d !in m0.owner && OfDir(m0.owner, m.owner, d) && Sound(m)
    requires owner == Removed(m.owner, d, ENTRIES, 0, USER) - {d}
    ensures owner == m0.owner
  {
    hide PteAt, PdeAt, PteOk, PdeOk;
    forall f | f in m0.owner
      ensures !(m0.owner[f].Table? && m0.owner[f].dir == d) && !(m0.owner[f].Page? && m0.owner[f].dir == d)
    {
      assert FrameOk(m0, f);
    }
    forall f | f in m.owner && f !in m0.owner ensures f !in owner {
      assert FrameOk(m, f);
    }
  }

  lemma RangeAdded(m0: Mem, n0: nat, m: Mem, n: nat, m': Mem, n': nat, d: nat, kmap: seq<Range>, k: nat)
    requires KernelSpace(m0, n0, m, n, d, kmap, k) && KmapOk(kmap) && k < |kmap| && m'.dirs == m.dirs
    requires SameMaps(m, m', d, kmap[k].v, kmap[k].v + kmap[k].n) && GrewTables(m.owner, m'.owner, d)
    requires MapsRange(m', d, kmap[k].v, kmap[k].n, kmap[k].ppn, kmap[k].perm)
    requires Grown(Pdes(m, d), n, Pdes(m', d), n', TablesOf(kmap[k].v, kmap[k].v + kmap[k].n))
    ensures KernelSpace(m0, n0, m', n', d, kmap, k + 1)
  {
    hide PteAt, Pdes, TablesOf, Grown, Shape;
    RangeMapped(m, m', d, kmap, k);
    GrownTrans({}, n0 - 1, Pdes(m, d), n, Pdes(m', d), n', KernelTables(kmap, k),
               TablesOf(kmap[k].v, kmap[k].v + kmap[k].n));
  }

  lemma RangeMapped(m: Mem, m': Mem, d: nat, kmap: seq<Range>, k: nat)
    requires KmapOk(kmap) && k < |kmap| && m'.dirs == m.dirs && d in m.dirs
    requires KernelMaps(m, d, kmap, k) && OnlyBelow(m, d, kmap, k) && EmptyFrom(m, d, 0)
    requires SameMaps(m, m', d, kmap[k].v, kmap[k].v + kmap[k].n)
    requires MapsRange(m', d, kmap[k].v, kmap[k].n, kmap[k].ppn, kmap[k].perm)
    ensures KernelMaps(m', d, kmap, k + 1) && OnlyBelow(m', d, kmap, k + 1) && EmptyFrom(m', d, 0)
  {
    hide PteAt, Shape;
    forall j | 0 <= j < k ensures MapsRange(m', d, kmap[j].v, kmap[j].n, kmap[j].ppn, kmap[j].perm) {
      assert MapsRange(m, d, kmap[j].v, kmap[j].n, kmap[j].ppn, kmap[j].perm);
    }
    forall v: nat | v < PAGES && PteAt(m', d, v).present ensures InRanges(v, kmap, k + 1) {
      if !(kmap[k].v <= v < kmap[k].v + kmap[k].n) {
        assert InRanges(v, kmap, k);
      }
    }
  }

  /** Pages lo to a of directory d are new: zeroed, writable by the user, each on a frame of its own that was not in
      use.  The only other new frames are page tables of d and those in spare. */
  ghost predicate NewPages(m0: Mem, m: Mem, pages: map<nat, seq<Byte>>, d: nat, lo: nat, a: nat, spare: set<nat>) {
    && m.dirs == m0.dirs && d in m.dirs && a <= USER && SameMaps(m0, m, d, lo, a)
    && (forall v: nat | lo <= v < a :: NewPage(m0, PteAt(m, d, v), pages))
    && (forall f | f in m0.owner :: f in m.owner && m.owner[f] == m0.owner[f])
    && (forall f | f in m.owner && f !in m0.owner && f !in spare :: NewUse(m.owner[f], d, lo, a))
  }

  ghost predicate NewPage(m0: Mem, pte: Pte, pages: map<nat, seq<Byte>>) {
    && UserPte(pte) && Writable(pte) && pte.flags == WU
    && pte.ppn !in m0.owner && pte.ppn in pages && pages[pte.ppn] == Zeroes(PGSIZE)
  }

  ghost predicate NewUse(use: Place, d: nat, lo: nat, a: nat) {
    (use.Table? && use.dir == d) || (use.Page? && use.dir == d && lo <= use.vpn < a)
  }

  ghost predicate PagesKept(owner: map<nat, Place>, pages: map<nat, seq<Byte>>, pages': map<nat, seq<Byte>>) {
    forall f | f in owner && f in pages :: f in pages' && pages'[f] == pages[f]
  }

  ghost predicate Unmapped(m: Mem, d: nat, lo: nat, hi: nat) {
    Shape(m) && d in m.dirs && forall v: nat | lo <= v < hi && v < PAGES :: !PteAt(m, d, v).present
  }

  /** The frames that new pages lo to hi of a directory take, with the page tables that are missing for them. */
  ghost function Need(m: Mem, d: nat, lo: nat, hi: nat): nat {
    (if lo < hi then hi - lo else 0) + |TablesOf(lo, hi) - Pdes(m, d)|
  }

  /** Page v is the first from lo on that is mapped already, and n frames last until it is found. */
  ghost predicate InTheWay(m: Mem, n: nat, d: nat, lo: nat, v: nat) {
    Unmapped(m, d, lo, v) && lo <= v < PAGES && PteAt(m, d, v).present && n > Need(m, d, lo, v)
  }

  /** Of n0 frames n are left once pages lo to a have been made. */
  ghost predicate Spent(m0: Mem, n0: nat, m: Mem, n: nat, d: nat, lo: nat, a: nat) {
    lo <= a && Unmapped(m0, d, lo, a) && Grown(Pdes(m0, d), n0, Pdes(m, d), n + (a - lo), TablesOf(lo, a))
  }

  lemma SpentNothing(m: Mem, n: nat, d: nat, lo: nat)
    requires Sound(m) && d in m.dirs
    ensures Spent(m, n, m, n, d, lo, lo)
  {
    hide PteAt, Pdes;
    NoTables(Pdes(m, d), n, lo);
  }

  lemma SpentOnPage(m0: Mem, n0: nat, m1: Mem, n1: nat, m2: Mem, n2: nat, d: nat, lo: nat, a: nat)
    requires Spent(m0, n0, m1, n1, d, lo, a) && Unmapped(m0, d, lo, a + 1) && n1 > 0
    requires Grown(Pdes(m1, d), n1 - 1, Pdes(m2, d), n2, TablesOf(a, a + 1))
    ensures Spent(m0, n0, m2, n2, d, lo, a + 1)
  {
    hide PteAt, Pdes, TablesOf, Shape;
    NextTable(lo, a);
    assert Grown(Pdes(m1, d), n1 + (a - lo), Pdes(m2, d), n2 + (a + 1 - lo), TablesOf(a, a + 1));
    MorePages(Pdes(m0, d), n0, Pdes(m1, d), n1 + (a - lo), Pdes(m2, d), n2 + (a + 1 - lo), lo, a);
  }

  lemma NeedGrows(m: Mem, d: nat, lo: nat, a: nat, b: nat)
    requires lo <= a <= b
    ensures Need(m, d, lo, a) + (b - a) <= Need(m, d, lo, b)
  {
    hide TablesOf, Pdes;
    TablesGrow(lo, a, b);
    FewerTables(Pdes(m, d), TablesOf(lo, a), TablesOf(lo, b));
  }

  /** Frames that run out at page b, with none mapped before it, are too few for the whole range. */
  lemma TooFew(m: Mem, n: nat, d: nat, lo: nat, b: nat, hi: nat)
    requires Unmapped(m, d, lo, b) && lo <= b <= hi && n <= Need(m, d, lo, b) && (b == hi ==> n < Need(m, d, lo, b))
    ensures n < Need(m, d, lo, hi) && forall v: nat | v < hi :: !InTheWay(m, n, d, lo, v)
  {
    hide Need;
    NeedGrows(m, d, lo, b, hi);
    forall v: nat | v < hi ensures !InTheWay(m, n, d, lo, v) {
      if InTheWay(m, n, d, lo, v) {
        if v < b {
          NotYet(m, d, lo, v, b);
        } else {
          NeedGrows(m, d, lo, b, v);
        }
      }
    }
  }

  /** What the outcome of the next page says about the whole call. */
  lemma NextPage(m0: Mem, n0: nat, m: Mem, n: nat, pages: map<nat, seq<Byte>>, d: nat, lo: nat, a: nat, hi: nat)
    requires Spent(m0, n0, m, n, d, lo, a) && NewPages(m0, m, pages, d, lo, a, {}) && a < hi <= USER
    ensures d in m.dirs && Shape(m)
    ensures PteAt(m, d, a).present ==> !Unmapped(m0, d, lo, hi)
    ensures PteAt(m, d, a).present && n > 0 ==> InTheWay(m0, n0, d, lo, a)
    ensures !PteAt(m, d, a).present ==> Unmapped(m0, d, lo, a + 1)
    ensures n == 0 || (!PteAt(m, d, a).present && n - 1 < |TablesOf(a, a + 1) - Pdes(m, d)|) ==>
              n0 < Need(m0, d, lo, hi) && forall v: nat | v < hi :: !InTheWay(m0, n0, d, lo, v)
  {
    hide PteAt, Pdes, TablesOf, Grown, Unmapped, InTheWay;
    NextUnmapped(m0, m, d, lo, a, hi);
    GrownFrames(Pdes(m0, d), n0, Pdes(m, d), n + (a - lo), TablesOf(lo, a));
    if n == 0 {
      TooFew(m0, n0, d, lo, a, hi);
    } else if PteAt(m, d, a).present {
      BlockedAt(m0, n0, m, d, lo, a);
    } else if n - 1 < |TablesOf(a, a + 1) - Pdes(m, d)| {
      NextTable(lo, a);
      GrownShort(Pdes(m0, d), n0, Pdes(m, d), n + (a - lo), TablesOf(lo, a), TablesOf(a, a + 1));
      TooFew(m0, n0, d, lo, a + 1, hi);
    }
  }

  lemma BlockedAt(m0: Mem, n0: nat, m: Mem, d: nat, lo: nat, a: nat)
    requires SameMaps(m0, m, d, lo, a) && d in m.dirs && a < PAGES && PteAt(m, d, a).present
    requires Unmapped(m0, d, lo, a) && lo <= a && n0 > Need(m0, d, lo, a)
    ensures InTheWay(m0, n0, d, lo, a)
  {
    hide PteAt, Need;
  }

  lemma NotYet(m: Mem, d: nat, lo: nat, v: nat, a: nat)
    requires Unmapped(m, d, lo, a) && lo <= v < a && v < PAGES
    ensures !PteAt(m, d, v).present
  {
  }

  lemma AllSpent(m0: Mem, n0: nat, m: Mem, n: nat, d: nat, lo: nat, hi: nat)
    requires Spent(m0, n0, m, n, d, lo, hi) && hi <= PAGES
    ensures Unmapped(m0, d, lo, hi) && n0 >= Need(m0, d, lo, hi)
    ensures forall v: nat | v < hi :: !InTheWay(m0, n0, d, lo, v)
  {
    hide PteAt, Pdes, TablesOf;
    forall v: nat | v < hi ensures !InTheWay(m0, n0, d, lo, v) {
      if lo <= v {
        NotYet(m0, d, lo, v, hi);
      }
    }
  }

  /** Whether the next page was mapped is seen when its turn comes. */
  lemma NextUnmapped(m0: Mem, m: Mem, d: nat, lo: nat, a: nat, hi: nat)
    requires SameMaps(m0, m, d, lo, a) && Unmapped(m0, d, lo, a) && d in m.dirs && lo <= a < hi <= PAGES
    ensures Unmapped(m0, d, lo, a + 1) <==> !PteAt(m, d, a).present
    ensures PteAt(m, d, a).present ==> !Unmapped(m0, d, lo, hi)
  {
    hide PteAt;
    assert PteAt(m, d, a) == PteAt(m0, d, a);
  }

  /** A new frame is written that is not mapped yet. */
  lemma NewZeroes(m0: Mem, m: Mem, m1: Mem, pages: map<nat, seq<Byte>>, d: nat, lo: nat, a: nat, f: nat,
                  pages0: map<nat, seq<Byte>>)
    requires NewPages(m0, m, pages, d, lo, a, {}) && PagesKept(m0.owner, pages0, pages) && f !in m.owner
    ensures PagesKept(m0.owner, pages0, pages[f := Zeroes(PGSIZE)]) && f !in m0.owner
    ensures m1 == Mem(m.dirs, m.tables, m.owner[f := Elsewhere]) ==>
              NewPages(m0, m1, pages[f := Zeroes(PGSIZE)], d, lo, a, {f})
  {
    SameEntries(m, Mem(m.dirs, m.tables, m.owner[f := Elsewhere]));
    hide PteAt;
  }

  lemma NewMapped(m0: Mem, m1: Mem, m2: Mem, pages: map<nat, seq<Byte>>, d: nat, lo: nat, a: nat, f: nat)
    requires NewPages(m0, m1, pages, d, lo, a, {}) && f !in m1.owner && f !in m0.owner && lo <= a < USER
    requires m2.dirs == m1.dirs && SameMaps(m1, m2, d, a, a + 1) && PteAt(m2, d, a) == Pte(f, true, WU)
    requires GrewTables(m1.owner[f := Page(d, a)], m2.owner, d)
    ensures NewPages(m0, m2, pages[f := Zeroes(PGSIZE)], d, lo, a + 1, {})
  {
    hide PteAt, Shape;
    SameMapsTrans(m0, m1, m2, d, lo, a, a, a + 1);
  }

  lemma OneUnmapped(m: Mem, d: nat, a: nat)
    requires Shape(m) && d in m.dirs && a < PAGES
    ensures Unmapped(m, d, a, a + 1) <==> !PteAt(m, d, a).present
  {
  }

  /** What deallocuvm undoes after allocuvm has run out of memory. */
  lemma UndoNew(m0: Mem, m1: Mem, m2: Mem, pages: map<nat, seq<Byte>>, d: nat, lo: nat, a: nat, hi: nat,
                spare: set<nat>)
    requires Sound(m0) && NewPages(m0, m1, pages, d, lo, a, spare) && a <= hi <= USER && Cleared(m1, m2, d, lo, hi)
    requires forall f | f in spare :: f !in m0.owner
    ensures Unmapped(m0, d, lo, hi) ==> SameMaps(m0, m2, d, 0, 0)
    ensures Unmapped(m0, d, lo, hi) ==> GrewTables(m0.owner, m2.owner - spare, d)
  {
    hide PdeAt, PteAt, PteOk, PdeOk, FrameOk;
    if Unmapped(m0, d, lo, hi) {
      UpTo(m0, m1, d, lo, a, hi);
      SameMapsTrans(m0, m1, m2, d, lo, hi, lo, hi);
      forall v: nat | lo <= v < hi ensures PteAt(m2, d, v) == PteAt(m0, d, v) {
        PageFrame(m0, d, v);
      }
      forall f | f in m0.owner && m0.owner[f].Page? && m0.owner[f].dir == d ensures !(lo <= m0.owner[f].vpn < hi) {
        var v := m0.owner[f].vpn;
        if lo <= v < hi { PageFrame(m0, d, v); }
      }
    }
  }

  lemma StillSpare(m: Mem, m': Mem, d: nat, lo: nat, hi: nat, f: nat)
    requires Spare(m, f) && Cleared(m, m', d, lo, hi)
    ensures Spare(m', f)
  {
  }

  lemma FreedSpare(m: Mem, f: nat)
    requires Sound(m) && Spare(m, f)
    ensures Sound(Mem(m.dirs, m.tables, m.owner - {f}))
  {
    Released(m, f);
  }

  lemma PgUpOrder(oldsz: nat, newsz: nat)
    requires oldsz <= newsz < KERNBASE
    ensures PgUp(oldsz) <= PgUp(newsz) <= USER
  {
  }

  lemma NewStart(m: Mem, pages: map<nat, seq<Byte>>, d: nat, lo: nat)
    requires Sound(m) && d in m.dirs && lo <= USER
    ensures NewPages(m, m, pages, d, lo, lo, {}) && PagesKept(m.owner, pages, pages)
  {
    hide PteAt;
  }

  /** Pages lo to a of directory d are gone with their frames, and nothing else has changed. */
  ghost predicate Cleared(m0: Mem, m: Mem, d: nat, lo: nat, a: nat) {
    && m.dirs == m0.dirs && d in m.dirs && a <= USER && SameMaps(m0, m, d, lo, a)
    && (forall v: nat | lo <= v < a :: PteAt(m, d, v) == EMPTY)
    && m.owner == Removed(m0.owner, d, 0, lo, a)
  }

  lemma PgUpBounds(oldsz: nat, newsz: nat)
    requires newsz < oldsz <= KERNBASE
    ensures PgUp(newsz) <= PgUp(oldsz) <= USER
  {
  }

  lemma PgUpIs(sz: nat, a: nat)
    ensures a * PGSIZE < sz <==> a < PgUp(sz)
  {
  }

  lemma InAll(freelist: seq<nat>, owner: map<nat, Place>, all: set<nat>, f: nat)
    requires FreeOk(freelist, owner, all) && f in owner
    ensures f in all
  {
  }

  lemma ClearStart(m: Mem, d: nat, lo: nat)
    requires Sound(m) && d in m.dirs && lo <= USER
    ensures Cleared(m, m, d, lo, lo)
  {
    hide PteAt;
    assert Removed(m.owner, d, 0, lo, lo) == m.owner;
  }

  lemma SkipTable(m: Mem, d: nat, a: nat, b: nat)
    requires Sound(m) && d in m.dirs && a < PAGES && !PdeAt(m, d, a / ENTRIES).present
    requires b <= PAGES && b <= (a / ENTRIES + 1) * ENTRIES
    ensures forall w: nat | a <= w < b :: PteAt(m, d, w) == EMPTY
  {
    hide PteAt, PdeAt;
    forall w: nat | a <= w < b ensures PteAt(m, d, w) == EMPTY {
      NoTable(m, d, a, w);
    }
  }

  /** Pages that are not mapped may be passed over. */
  lemma ClearSkip(m0: Mem, m: Mem, d: nat, lo: nat, a: nat, b: nat)
    requires Sound(m) && Cleared(m0, m, d, lo, a) && lo <= a <= b <= USER
    requires forall w: nat | a <= w < b :: !PteAt(m, d, w).present
    ensures Cleared(m0, m, d, lo, b)
  {
    hide PteAt, PdeAt, PteOk, PdeOk;
    forall w: nat | a <= w < b ensures PteAt(m, d, w) == EMPTY {
      assert PteOk(m, d, w) by { PageFrame(m, d, w); }
      PageFrame(m, d, w);
    }
    forall f | f in m.owner && m.owner[f].Page? && m.owner[f].dir == d ensures !(a <= m.owner[f].vpn < b) {
      assert FrameOk(m, f);
    }
    assert Removed(m0.owner, d, 0, lo, b) == m.owner;
  }

  /** A mapped page goes with its frame. */
  lemma ClearOne(m0: Mem, m: Mem, d: nat, lo: nat, a: nat)
    requires Sound(m) && Cleared(m0, m, d, lo, a) && lo <= a < USER && PteAt(m, d, a).present
    requires PdeAt(m, d, a / ENTRIES).present && PdeAt(m, d, a / ENTRIES).ppn in m.tables
    ensures var m' := WithPte(m, d, a, EMPTY, m.owner - {PteAt(m, d, a).ppn});
            Sound(m') && Cleared(m0, m', d, lo, a + 1)
  {
    hide PteAt, PdeAt, PteOk, PdeOk, FrameOk;
    PageFrame(m, d, a);
    var owner' := m.owner - {PteAt(m, d, a).ppn};
    EntrySet(m, d, a, EMPTY, owner');
    assert Removed(m0.owner, d, 0, lo, a + 1) == owner';
  }

  /** Pages v to v+n-1 map to the frames from ppn on. */
  ghost predicate MapsRange(m: Mem, d: nat, v: nat, n: nat, ppn: nat, flags: nat) {
    && Shape(m) && d in m.dirs && v + n <= PAGES
    && forall w: nat | v <= w < v + n :: PteAt(m, d, w) == Pte(ppn + (w - v), true, flags)
  }

  /** mappages has mapped pages v to a, none of which was mapped, at one frame for each page table that was missing. */
  ghost predicate MapDone(m0: Mem, n0: nat, m: Mem, n: nat, d: nat, v: nat, a: nat, ppn: nat, flags: nat) {
    && v <= a <= PAGES && m.dirs == m0.dirs && SameMaps(m0, m, d, v, a)
    && MapsRange(m, d, v, a - v, ppn, flags) && Unmapped(m0, d, v, a)
    && Grown(Pdes(m0, d), n0, Pdes(m, d), n, TablesOf(v, a))
    && GrewTables(if v < USER && v < a then m0.owner[ppn := Page(d, v)] else m0.owner, m.owner, d)
  }

  lemma MapStart(m: Mem, n: nat, d: nat, v: nat, ppn: nat, flags: nat)
    requires Shape(m) && d in m.dirs && v <= PAGES
    ensures MapDone(m, n, m, n, d, v, v, ppn, flags)
  {
    NoTables(Pdes(m, d), n, v);
  }

  lemma MapMore(m0: Mem, n0: nat, m1: Mem, n1: nat, m2: Mem, n2: nat, d: nat, v: nat, a: nat, ppn: nat, flags: nat)
    requires MapDone(m0, n0, m1, n1, d, v, a, ppn, flags) && a < PAGES && (v < USER ==> a == v)
    requires m2.dirs == m1.dirs && d in m1.dirs && SameMaps(m1, m2, d, a, a + 1)
    requires !PteAt(m1, d, a).present && PteAt(m2, d, a) == Pte(ppn + (a - v), true, flags)
    requires Grown(Pdes(m1, d), n1, Pdes(m2, d), n2, {a / ENTRIES})
    requires GrewTables(if a < USER then m1.owner[ppn + (a - v) := Page(d, a)] else m1.owner, m2.owner, d)
    ensures MapDone(m0, n0, m2, n2, d, v, a + 1, ppn, flags)
  {
    hide PteAt, Shape, Pdes, Grown, TablesOf;
    MorePages(Pdes(m0, d), n0, Pdes(m1, d), n1, Pdes(m2, d), n2, v, a);
    NextUnmapped(m0, m1, d, v, a, a + 1);
  }

  lemma MapStops(m0: Mem, n0: nat, m: Mem, n: nat, d: nat, v: nat, a: nat, ppn: nat, flags: nat, hi: nat)
    requires MapDone(m0, n0, m, n, d, v, a, ppn, flags) && a < hi <= PAGES
    ensures SameMaps(m0, m, d, v, hi) && Shape(m)
    ensures PteAt(m, d, a).present ==> !Unmapped(m0, d, v, hi)
    ensures !PteAt(m, d, a).present ==> Unmapped(m0, d, v, a + 1)
    ensures n < |{a / ENTRIES} - Pdes(m, d)| ==> n0 < |TablesOf(v, hi) - Pdes(m0, d)|
    ensures GrewTables(if v < USER && v < a then m0.owner[ppn := Page(d, v)] else m0.owner, m.owner, d)
  {
    hide PteAt, Shape, Pdes, Grown, TablesOf;
    NextUnmapped(m0, m, d, v, a, hi);
    UpTo(m0, m, d, v, a, hi);
    if n < |{a / ENTRIES} - Pdes(m, d)| {
      PagesShort(Pdes(m0, d), n0, Pdes(m, d), n, v, a, hi);
    }
  }

  lemma MapEnds(m0: Mem, n0: nat, m: Mem, n: nat, d: nat, v: nat, a: nat, ppn: nat, flags: nat)
    requires MapDone(m0, n0, m, n, d, v, a, ppn, flags) && v < a
    ensures SameMaps(m0, m, d, v, a) && MapsRange(m, d, v, a - v, ppn, flags) && Unmapped(m0, d, v, a)
    ensures Grown(Pdes(m0, d), n0, Pdes(m, d), n, TablesOf(v, a))
    ensures GrewTables(if v < USER then m0.owner[ppn := Page(d, v)] else m0.owner, m.owner, d)
  {
  }

  lemma UpTo(m: Mem, m': Mem, d: nat, lo: nat, mid: nat, hi: nat)
    requires SameMaps(m, m', d, lo, mid) && mid <= hi
    ensures SameMaps(m, m', d, lo, hi)
  {
    hide PteAt, Shape;
  }

  /** Apart from new page tables of directory d, the same frames are in use for the same purposes. */
  ghost predicate GrewTables(o: map<nat, Place>, o': map<nat, Place>, d: nat) {
    && (forall f | f in o :: f in o' && o'[f] == o[f])
    && (forall f | f in o' && f !in o :: o'[f].Table? && o'[f].dir == d)
  }

  lemma SamePte(m: Mem, m': Mem, d: nat, v: nat)
    requires SameMaps(m, m', d, 0, 0) && d in m.dirs && d in m'.dirs && v < PAGES
    ensures PteAt(m', d, v) == PteAt(m, d, v)
  {
  }

  lemma EntryHere(m: Mem, d: nat, v: nat)
    requires Sound(m) && d in m.dirs && v < PAGES && PdeAt(m, d, v / ENTRIES).present
    ensures var t := PdeAt(m, d, v / ENTRIES).ppn;
            t in m.tables && t in m.owner && m.owner[t] == Table(d, v / ENTRIES)
                && PteAt(m, d, v) == m.tables[t][v % ENTRIES]
  {
    TableOf(m, d, v / ENTRIES);
  }

  lemma PageFrame2(m: Mem, d: nat, v: nat)
    requires Sound(m) && d in m.dirs && v < PAGES && !PteAt(m, d, v).present
    ensures forall f: nat | f in m.owner :: m.owner[f] != Page(d, v)
  {
    forall f: nat | f in m.owner ensures m.owner[f] != Page(d, v) {
      assert FrameOk(m, f);
    }
  }

  lemma AfterKfree(m0: Mem, m1: Mem, m2: Mem, d: nat)
    requires m2.dirs == m1.dirs && m2.tables == m1.tables
    ensures SameMaps(m0, m1, d, 0, 0) ==> SameMaps(m0, m2, d, 0, 0)
  {
    if SameMaps(m0, m1, d, 0, 0) {
      SameEntries(m1, m2);
    }
    hide PteAt, PdeAt;
  }

  lemma AfterKalloc(m0: Mem, m1: Mem, m2: Mem, d: nat)
    requires Shape(m0) && m1.dirs == m0.dirs && m1.tables == m0.tables && SameMaps(m1, m2, d, 0, 0)
    ensures SameMaps(m0, m2, d, 0, 0)
  {
    SameEntries(m0, m1);
    hide PteAt, PdeAt;
  }

  /** A frame in use for another purpose is as little free as before. */
  lemma StillInUse(freelist: seq<nat>, owner: map<nat, Place>, all: set<nat>, f: nat, use: Place)
    requires FreeOk(freelist, owner, all) && f in owner
    ensures FreeOk(freelist, owner[f := use], all)
  {
  }

  lemma Taken(m: Mem, f: nat)
    requires Sound(m) && f !in m.owner
    ensures Sound(Mem(m.dirs, m.tables, m.owner[f := Elsewhere]))
    ensures SameMaps(m, Mem(m.dirs, m.tables, m.owner[f := Elsewhere]), 0, 0, 0)
  {
    hide PteAt, PdeAt;
    var m' := Mem(m.dirs, m.tables, m.owner[f := Elsewhere]);
    SameEntries(m, m');
    forall d: nat, i: nat | d in m.dirs && i < ENTRIES ensures PdeOk(m', d, i) { assert PdeOk(m, d, i); }
    forall d: nat, v: nat | d in m.dirs && v < PAGES ensures PteOk(m', d, v) { assert PteOk(m, d, v); }
    forall g: nat | g in m'.owner ensures FrameOk(m', g) { assert g != f ==> FrameOk(m, g); }
  }

  lemma Released(m: Mem, f: nat)
    requires Sound(m) && Spare(m, f)
    ensures Sound(Mem(m.dirs, m.tables, m.owner - {f}))
    ensures SameMaps(m, Mem(m.dirs, m.tables, m.owner - {f}), 0, 0, 0)
  {
    hide PteAt, PdeAt;
    var m' := Mem(m.dirs, m.tables, m.owner - {f});
    SameEntries(m, m');
    forall d: nat, i: nat | d in m.dirs && i < ENTRIES ensures PdeOk(m', d, i) { assert PdeOk(m, d, i); }
    forall d: nat, v: nat | d in m.dirs && v < PAGES ensures PteOk(m', d, v) { assert PteOk(m, d, v); }
    forall g: nat | g in m'.owner ensures FrameOk(m', g) { assert FrameOk(m, g); }
  }

  lemma SameEntries(m: Mem, m': Mem)
    requires Shape(m) && m'.dirs == m.dirs && m'.tables == m.tables
    ensures Shape(m')
    ensures forall d: nat, i: nat | d in m.dirs && i < ENTRIES :: PdeAt(m', d, i) == PdeAt(m, d, i)
    ensures forall d: nat, v: nat | d in m.dirs && v < PAGES :: PteAt(m', d, v) == PteAt(m, d, v)
  {
  }
}
