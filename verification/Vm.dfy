/**
The page allocator and the page tables in use: kalloc, kfree, walkpgdir, mappages, setupkvm,
allocuvm, deallocuvm, freevm, copyuvm.  Addresses are bytes where the source rounds them and page
numbers elsewhere; 0 stands for the null pointer, which is no page.
*/
module Vm {
  import opened Prelude
  import opened Blocks
  import opened Paging

  const PGSIZE := 4096
  const KERNBASE := 0x8000_0000
  const PTE_W := 2
  const PTE_U := 4

  ghost function LooseSet(m: Mem): (r: set<nat>) {
    set p | p in m.role && m.role[p] == Loose
  }

  /** The entries of a directory that have no table. */
  ghost function Gaps(row: seq<nat>): (r: set<nat>) {
    set i: nat | i < |row| && row[i] == 0
  }

  /** One of the pages [a, b) goes through entry i of its directory. */
  predicate Through(a: nat, b: nat, i: nat) {
    a < b && a / NPDENTRIES <= i <= (b - 1) / NPDENTRIES
  }

  /** The entries of a directory that the pages [a, b) go through. */
  function TablesOf(a: nat, b: nat): (r: set<nat>) {
    set i: nat | i < NPDENTRIES && Through(a, b, i)
  }

  lemma NoTables(a: nat)
    ensures TablesOf(a, a) == {}
  {
  }

  lemma OneTable(a: nat)
    requires a < ALLPAGES
    ensures TablesOf(a, a + 1) == {a / NPDENTRIES}
  {
    NoTables(a);
    TablesNext(a, a);
  }

  lemma TablesNext(a: nat, b: nat)
    requires a <= b < ALLPAGES
    ensures TablesOf(a, b + 1) == TablesOf(a, b) + {b / NPDENTRIES}
  {
    if a < b {
      assert b / NPDENTRIES == (b - 1) / NPDENTRIES || b / NPDENTRIES == (b - 1) / NPDENTRIES + 1;
    }
  }

  lemma TablesJoin(a: nat, b: nat, c: nat)
    requires a <= b <= c
    ensures TablesOf(a, c) == TablesOf(a, b) + TablesOf(b, c)
  {
    if a < b < c {
      assert b / NPDENTRIES == (b - 1) / NPDENTRIES || b / NPDENTRIES == (b - 1) / NPDENTRIES + 1;
    }
  }

  /** How many tables for these entries are missing. */
  ghost function Missing(m: Mem, d: nat, tables: set<nat>): (n: nat)
    requires d in m.dirs
  {
    |tables * Gaps(m.dirs[d])|
  }

  /** The entries have their tables now, and exactly the missing tables and `n` more pages were taken for it. */
  ghost predicate Charged(m: Mem, r: Mem, d: nat, tables: set<nat>, n: nat) {
    && d in m.dirs && d in r.dirs
    && Gaps(r.dirs[d]) == Gaps(m.dirs[d]) - tables
    && |r.free| + Missing(m, d, tables) + n == |m.free|
  }

  lemma ChargedNothing(m: Mem, d: nat)
    requires d in m.dirs
    ensures Charged(m, m, d, {}, 0)
  {
    hide Gaps;
    assert {} * Gaps(m.dirs[d]) == {};
  }

  lemma CostSplit(gaps: set<nat>, a: set<nat>, b: set<nat>)
    ensures |(a + b) * gaps| == |a * gaps| + |b * (gaps - a)|
  {
    assert (a + b) * gaps == a * gaps + b * (gaps - a);
  }

  lemma ChargedTrans(m: Mem, n: Mem, r: Mem, d: nat, a: set<nat>, f: nat, b: set<nat>, g: nat)
    requires Charged(m, n, d, a, f) && Charged(n, r, d, b, g)
    ensures Charged(m, r, d, a + b, f + g)
  {
    hide Gaps;
    CostSplit(Gaps(m.dirs[d]), a, b);
  }

  /** When the next tables and g pages cannot be had, neither can be what comes before together with them. */
  lemma CannotPay(m: Mem, n: Mem, d: nat, a: set<nat>, f: nat, b: set<nat>, g: nat, all: set<nat>, total: nat)
    requires Charged(m, n, d, a, f) && |n.free| < g + Missing(n, d, b) && a + b <= all && f + g <= total
    ensures |m.free| < total + Missing(m, d, all)
  {
    hide Gaps;
    var gaps := Gaps(m.dirs[d]);
    CostSplit(gaps, a, b);
    SubsetSize((a + b) * gaps, all * gaps);
  }

  lemma ChargedEnough(m: Mem, r: Mem, d: nat, tables: set<nat>, n: nat)
    requires Charged(m, r, d, tables, n)
    ensures |m.free| >= n + Missing(m, d, tables)
  {
  }

  lemma ChargedSame(m: Mem, n: Mem, r: Mem, d: nat, tables: set<nat>, f: nat)
    requires Charged(m, n, d, tables, f) && r.dirs == n.dirs && r.free == n.free
    ensures Charged(m, r, d, tables, f)
  {
  }

  /** One table: taken if it is missing. */
  lemma OneMissing(m: Mem, d: nat, i: nat)
    requires d in m.dirs && i < |m.dirs[d]|
    ensures Missing(m, d, {i}) == if m.dirs[d][i] == 0 then 1 else 0
  {
    assert {i} * Gaps(m.dirs[d]) == if m.dirs[d][i] == 0 then {i} else {};
  }

  lemma TablePresent(m: Mem, d: nat, i: nat)
    requires d in m.dirs && i < |m.dirs[d]| && m.dirs[d][i] != 0
    ensures Charged(m, m, d, {i}, 0)
  {
    OneMissing(m, d, i);
  }

  lemma TableAdded(m: Mem, r: Mem, d: nat, i: nat, t: nat)
    requires d in m.dirs && i < |m.dirs[d]| && m.dirs[d][i] == 0 && t != 0 && d in r.dirs
    requires r.dirs[d] == m.dirs[d][i := t]
    requires |r.free| + 1 == |m.free|
    ensures Charged(m, r, d, {i}, 0)
  {
    OneMissing(m, d, i);
  }

  lemma SameMissing(m: Mem, r: Mem, d: nat, tables: set<nat>)
    requires d in m.dirs && r.dirs == m.dirs
    ensures Missing(r, d, tables) == Missing(m, d, tables)
  {
  }

  /** Taking a page into hand. */
  lemma PageTaken(m: Mem, r: Mem, d: nat)
    requires d in m.dirs && r.dirs == m.dirs && |r.free| + 1 == |m.free|
    ensures Charged(m, r, d, {}, 1)
  {
    hide Gaps;
    assert {} * Gaps(m.dirs[d]) == {};
  }

  /** Page v of address space d is now p; all others of d are as before. */
  ghost predicate Remapped(m: Mem, r: Mem, d: nat, v: nat, p: Pte) {
    && Shape(m) && Shape(r) && d in m.dirs && d in r.dirs
    && forall w: nat :: w < ALLPAGES ==> At(r, d, w) == if w == v then p else At(m, d, w)
  }

  /** Pages [a, b) of d are gone; all others of d are as before. */
  ghost predicate Cleared(m: Mem, r: Mem, d: nat, a: nat, b: nat) {
    && Shape(m) && Shape(r) && d in m.dirs && d in r.dirs
    && forall w: nat :: w < ALLPAGES ==> At(r, d, w) == if a <= w < b then Absent else At(m, d, w)
  }

  /** No frame has lost its contents. */
  ghost predicate DataKept(m: Mem, r: Mem) {
    forall f :: f in m.frames ==> f in r.frames && r.frames[f] == m.frames[f]
  }

  function PageUp(n: nat): (r: nat)
    ensures r * PGSIZE >= n > (r - 1) * PGSIZE
  {
    (n + PGSIZE - 1) / PGSIZE
  }

  /** Page p lies between the two addresses. */
  predicate WholePage(start: nat, p: nat, end: nat) {
    start <= p * PGSIZE && (p + 1) * PGSIZE <= end
  }

  class Vm {
    ghost const pages: set<nat>
    var free: seq<nat>
    var dirs: map<nat, seq<nat>>
    var tables: map<nat, seq<Pte>>
    var frames: map<nat, seq<byte>>
    ghost var role: map<nat, Role>

    ghost function M(): (m: Mem)
      reads this
    {
      Mem(free, dirs, tables, frames, role)
    }

    ghost predicate Ok()
      reads this
    {
      Inv(M(), pages)
    }

    /** Before kinit: no page is on the free list yet. */
    constructor (ghost pages: set<nat>)
      requires 0 !in pages
      ensures Ok() && this.pages == pages && free == [] && dirs == map[] && LooseSet(M()) == pages
    {
      this.pages := pages;
      free, dirs, tables, frames := [], map[], map[], map[];
      role := map p | p in pages :: Loose;
    }

    /** freerange: the whole pages between two addresses are freed, one after the other. */
    method Freerange(start: nat, end: nat)
      requires Ok() && forall p: nat :: WholePage(start, p, end) ==> Has(M(), p, Loose)
      modifies this`free, this`role
      ensures Ok() && forall p: nat :: p in free <==> p in old(free) || WholePage(start, p, end)
    {
      hide Inv, SameView, OnlyDir;
      var p := PageUp(start);
      while (p + 1) * PGSIZE <= end
        invariant p >= PageUp(start) && Ok()
        invariant forall q: nat :: WholePage(start, q, end) ==> Has(M(), q, if q < p then Free else Loose)
        invariant forall q: nat :: q in free <==> q in old(free) || (WholePage(start, q, end) && q < p)
        decreases end - p * PGSIZE
      {
        assert WholePage(start, p, end);
        Kfree(p);
        p := p + 1;
      }
    }

    /** kalloc: the first page of the free list, or 0. */
    method Kalloc() returns (p: nat)
      requires Ok()
      modifies this`free, this`role
      ensures p == 0 <==> old(free) == []
      ensures p == 0 ==> M() == old(M())
      ensures p != 0 ==> Ok() && p == old(free)[0] && M() == Pop(old(M())) && SameView(old(M()), M())
      ensures p != 0 ==>
                && LooseSet(M()) == LooseSet(old(M())) + {p} && p !in LooseSet(old(M()))
                && forall d :: OnlyDir(old(M()), M(), d)
    {
      hide Inv, SameView, OnlyDir;
      if free == [] {
        return 0;
      }
      p := free[0];
      PopInv(M(), pages);
      forall d: nat
        ensures OnlyDir(M(), Pop(M()), d)
      {
        PopOnlyInv(M(), d, pages);
      }
      PageNotNull(M(), p, pages);
      role := role[p := Loose];
      free := free[1..];
    }

    /** kfree of a page that nobody uses any more. */
    method Kfree(p: nat)
      requires Ok() && Has(M(), p, Loose)
      modifies this`free, this`role
      ensures Ok() && M() == Push(old(M()), p) && SameView(old(M()), M()) && LooseSet(M()) == LooseSet(old(M())) - {p}
      ensures forall d :: OnlyDir(old(M()), M(), d)
    {
      hide Inv, SameView, OnlyDir;
      PushInv(M(), p, pages);
      forall d: nat
        ensures OnlyDir(M(), Push(M(), p), d)
      {
        PushOnly(M(), p, d);
      }
      free := [p] + free;
      role := role[p := Free];
    }

    /** walkpgdir: the table for a page, made if asked for and if there is a free page. */
    method Walkpgdir(d: nat, v: nat, alloc: bool) returns (t: nat)
      requires Ok() && Page(M(), d, v)
      modifies this`free, this`dirs, this`tables, this`role
      ensures Ok() && SameView(old(M()), M()) && OnlyDir(old(M()), M(), d) && LooseSet(M()) == LooseSet(old(M()))
      ensures dirs.Keys == old(dirs).Keys && frames == old(frames)
      ensures t != 0 ==>
                HasTable(M(), d, v) && dirs[d][v / NPDENTRIES] == t && Charged(old(M()), M(), d, {v / NPDENTRIES}, 0)
      ensures t == 0 || !alloc ==> M() == old(M())
      ensures t == 0 ==> Entry(M(), d, v / NPDENTRIES) && dirs[d][v / NPDENTRIES] == 0 && (alloc ==> free == [])
    {
      hide Tabled, Framed, Roles, SameView, OnlyDir, Gaps, Charged;
      ghost var m := M();
      var i := v / NPDENTRIES;
      assert Entry(M(), d, i);
      SameViewRefl(m);
      OnlyDirRefl(m, d);
      if dirs[d][i] != 0 {
        TablePresent(m, d, i);
        return dirs[d][i];
      }
      if !alloc {
        return 0;
      }
      t := Kalloc();
      if t == 0 {
        return 0;
      }
      ghost var n := M();
      AddTableInv(n, d, i, t, pages);
      AddTableOnly(n, d, i, t, pages);
      SameViewTrans(m, n, AddTable(n, d, i, t));
      OnlyDirTrans(m, n, AddTable(n, d, i, t), d);
      tables := tables[t := EmptyTable()];
      var row: seq<nat> := dirs[d][i := t];
      dirs := dirs[d := row];
      role := role[t := Table(d, i)];
      assert M() == AddTable(n, d, i, t);
      TableAdded(m, M(), d, i, t);
    }
  
    /**
    One pass of the loop of mappages.  A user page gets the page in hand as its frame, with its
    contents.  The panic "remap" is reached exactly if the page is mapped already.
    */
    method MapOne(d: nat, v: nat, pg: nat, perm: nat, data: seq<byte>) returns (r: Outcome<()>)
      requires Ok() && Page(M(), d, v) && (v < USERPAGES ==> Has(M(), pg, Loose))
      modifies this`free, this`dirs, this`tables, this`frames, this`role
      ensures r.Panicked? <==> old(At(M(), d, v)).Present?
      ensures r.Refused? <==> |old(free)| < Missing(old(M()), d, {v / NPDENTRIES})
      ensures r.Refused? ==> M() == old(M())
      ensures !r.Panicked? ==> Ok() && OnlyDir(old(M()), M(), d) && dirs.Keys == old(dirs).Keys
      ensures r.Done? ==> Remapped(old(M()), M(), d, v, Present(pg, perm))
      ensures r.Done? ==> Charged(old(M()), M(), d, {v / NPDENTRIES}, 0)
      ensures r.Done? ==> frames == if v < USERPAGES then old(frames)[pg := data] else old(frames)
      ensures r.Done? ==> LooseSet(M()) == if v < USERPAGES then LooseSet(old(M())) - {pg} else LooseSet(old(M()))
    {
      hide Tabled, Framed, Roles, SameView, OnlyDir, OneChanged, At, Charged, Missing;
      ghost var m := M();
      OnlyDirRefl(m, d);
      var t := Walkpgdir(d, v, true);
      if t == 0 {
        OneMissing(m, d, v / NPDENTRIES);
        NoTable(M(), d, v);
        return Refused;
      }
      ChargedEnough(m, M(), d, {v / NPDENTRIES}, 0);
      ghost var n := M();
      ViewAt(m, n, d, v);
      TableAt(n, d, v);
      if tables[t][v % NPDENTRIES].Present? {
        return Panicked;
      }
      LooseKept(m, n, pg);
      if v < USERPAGES {
        MapFrameInv(n, d, v, pg, perm, data, pages);
        MapFrameOnly(n, d, v, pg, perm, data, pages);
        ViewThenChange(m, n, MapFrame(n, d, v, pg, perm, data), d, v, Present(pg, perm));
        OnlyDirTrans(m, n, MapFrame(n, d, v, pg, perm, data), d);
        frames := frames[pg := data];
        role := role[pg := Frame(d, v)];
      } else {
        SetKernelInv(n, d, v, Present(pg, perm), pages);
        SetKernelOnly(n, d, v, Present(pg, perm), pages);
        ViewThenChange(m, n, SetPte(n, d, v, Present(pg, perm)), d, v, Present(pg, perm));
        OnlyDirTrans(m, n, SetPte(n, d, v, Present(pg, perm)), d);
      }
      tables := tables[t := tables[t][v % NPDENTRIES := Present(pg, perm)]];
      ChargedSame(m, n, M(), d, {v / NPDENTRIES}, 0);
      return Done(());
    }
  
    /**
    mappages.  In the user half it is only called for single pages, with the frame in hand.  When
    the pages for the tables run out, a first part of the range is mapped and nothing is lost.
    */
    method Mappages(d: nat, va: nat, size: nat, pa: nat, perm: nat, data: seq<byte>)
      returns (r: Outcome<()>, ghost k: nat)
      requires Ok() && d in dirs && 0 < size && va + size <= 0x1_0000_0000
      requires va < KERNBASE ==> va % PGSIZE == 0 && size == PGSIZE && Has(M(), pa / PGSIZE, Loose)
      modifies this`free, this`dirs, this`tables, this`frames, this`role
      ensures r.Panicked? ==> exists w :: va / PGSIZE <= w <= (va + size - 1) / PGSIZE && old(At(M(), d, w)).Present?
      ensures !r.Panicked? ==> Ok() && OnlyDir(old(M()), M(), d) && dirs.Keys == old(dirs).Keys
      ensures !r.Panicked? ==>
                && va / PGSIZE <= k <= (va + size - 1) / PGSIZE + 1
                && Ranged(old(M()), M(), d, va / PGSIZE, k, pa / PGSIZE, perm)
      ensures r.Refused? ==>
                |old(free)| < Missing(old(M()), d, TablesOf(va / PGSIZE, (va + size - 1) / PGSIZE + 1))
      ensures r.Done? <==>
                && (forall w: nat :: va / PGSIZE <= w <= (va + size - 1) / PGSIZE ==> !old(At(M(), d, w)).Present?)
                && |old(free)| >= Missing(old(M()), d, TablesOf(va / PGSIZE, (va + size - 1) / PGSIZE + 1))
      ensures r.Done? ==> Charged(old(M()), M(), d, TablesOf(va / PGSIZE, (va + size - 1) / PGSIZE + 1), 0)
      ensures r.Done? ==> k == (va + size - 1) / PGSIZE + 1
      ensures r.Refused? ==> k <= (va + size - 1) / PGSIZE
      ensures va < KERNBASE && r.Done? ==>
                frames == old(frames)[pa / PGSIZE := data] && LooseSet(M()) == LooseSet(old(M())) - {pa / PGSIZE}
      ensures va < KERNBASE && r.Refused? ==> M() == old(M())
      ensures va >= KERNBASE && !r.Panicked? ==> frames == old(frames) && LooseSet(M()) == LooseSet(old(M()))
    {
      hide Tabled, Framed, Roles, OnlyDir, Remapped, Ranged, At, Charged, Missing, TablesOf;
      ghost var m := M();
      var a, pg := va / PGSIZE, pa / PGSIZE;
      var last := (va + size - 1) / PGSIZE;
      RangedNone(m, d, a, pg, perm);
      OnlyDirRefl(m, d);
      NoTables(a);
      ChargedNothing(m, d);
      k := a;
      while true
        invariant va / PGSIZE <= a <= last && k == a && pg == pa / PGSIZE + (a - va / PGSIZE)
        invariant Ok() && d in dirs && dirs.Keys == m.dirs.Keys && OnlyDir(m, M(), d)
        invariant Ranged(m, M(), d, va / PGSIZE, a, pa / PGSIZE, perm)
        invariant va < KERNBASE ==> M() == m && a == last
        invariant Charged(m, M(), d, TablesOf(va / PGSIZE, a), 0)
        invariant forall w: nat :: va / PGSIZE <= w < a ==> !At(m, d, w).Present?
        invariant va >= KERNBASE ==> frames == m.frames && LooseSet(M()) == LooseSet(m)
        decreases last - a
      {
        ghost var n := M();
        RangedAt(m, n, d, va / PGSIZE, a, pa / PGSIZE, perm);
        r := MapOne(d, a, pg, perm, data);
        if r.Panicked? {
          assert At(m, d, a).Present?;
          return;
        }
        TablesNext(va / PGSIZE, a);
        if r.Refused? {
          TablesJoin(va / PGSIZE, a + 1, last + 1);
          CannotPay(m, n, d, TablesOf(va / PGSIZE, a), 0, {a / NPDENTRIES}, 0, TablesOf(va / PGSIZE, last + 1), 0);
          return;
        }
        ChargedTrans(m, n, M(), d, TablesOf(va / PGSIZE, a), 0, {a / NPDENTRIES}, 0);
        RangedNext(m, n, M(), d, va / PGSIZE, a, pa / PGSIZE, perm);
        OnlyDirTrans(m, n, M(), d);
        k := a + 1;
        if a == last {
          break;
        }
        a, pg := a + 1, pg + 1;
      }
      ChargedEnough(m, M(), d, TablesOf(va / PGSIZE, last + 1), 0);
      r := Done(());
    }

    /** What deallocuvm does with a page whose table exists.  The null check never fires. */
    method ClearOne(d: nat, v: nat, t: nat) returns (ok: bool)
      requires Ok() && HasTable(M(), d, v) && v < USERPAGES && dirs[d][v / NPDENTRIES] == t
      modifies this`free, this`tables, this`frames, this`role
      ensures ok && Ok() && OnlyDir(old(M()), M(), d) && LooseSet(M()) == LooseSet(old(M()))
      ensures Remapped(old(M()), M(), d, v, Absent) && DataKept(M(), old(M()))
    {
      hide Tabled, Framed, Roles, SameView, OnlyDir, OneChanged, At;
      ghost var m := M();
      OnlyDirRefl(m, d);
      TableAt(m, d, v);
      if !tables[t][v % NPDENTRIES].Present? {
        RemappedSame(m, d, v);
        return true;
      }
      var f := tables[t][v % NPDENTRIES].page;
      UnmapFrameInv(m, d, v, f, pages);
      if f == 0 {
        return false;
      }
      ghost var n := UnmapFrame(m, d, v, f);
      UnmapFrameOnly(m, d, v, f, pages);
      LooseUnmapped(m, n, f, d, v);
      tables := tables[t := tables[t][v % NPDENTRIES := Absent]];
      frames := frames - {f};
      role := role[f := Loose];
      assert M() == n;
      Kfree(f);
      OnlyDirTrans(m, n, M(), d);
      ChangeThenView(m, n, M(), d, v, Absent);
      ok := true;
    }

    /** deallocuvm: the user pages between the new and the old size go back to the free list. */
    method Deallocuvm(d: nat, oldsz: nat, newsz: nat) returns (r: nat)
      requires Ok() && d in dirs && oldsz <= KERNBASE
      modifies this`free, this`tables, this`frames, this`role
      ensures Ok() && OnlyDir(old(M()), M(), d) && LooseSet(M()) == LooseSet(old(M())) && DataKept(M(), old(M()))
      ensures r == if newsz >= oldsz then oldsz else newsz
      ensures Cleared(old(M()), M(), d, PageUp(newsz), PageUp(oldsz))
      ensures Exact(old(M()), d, oldsz) ==> Exact(M(), d, r)
    {
      hide Tabled, Framed, Roles, SameView, OnlyDir, Remapped, Cleared, At, Exact;
      ghost var m := M();
      OnlyDirRefl(m, d);
      if newsz >= oldsz {
        PageUpMonotone(oldsz, newsz);
        ClearedNone(m, d, PageUp(newsz), PageUp(oldsz));
        return oldsz;
      }
      var v := PageUp(newsz);
      PageUpMonotone(newsz, oldsz);
      ClearedNone(m, d, v, v);
      while v * PGSIZE < oldsz
        invariant PageUp(newsz) <= v
        invariant Ok() && dirs == m.dirs && OnlyDir(m, M(), d) && LooseSet(M()) == LooseSet(m) && DataKept(M(), m)
        invariant Cleared(m, M(), d, PageUp(newsz), if v < PageUp(oldsz) then v else PageUp(oldsz))
        decreases PageUp(oldsz) - v
      {
        ghost var n := M();
        var t := WalkOnly(d, v);
        if t == 0 {
          var next := (v / NPDENTRIES + 1) * NPDENTRIES;
          ClearedSkip(m, n, d, PageUp(newsz), v, if next < PageUp(oldsz) then next else PageUp(oldsz));
          v := next;
        } else {
          var ok := ClearOne(d, v, t);
          OnlyDirTrans(m, n, M(), d);
          ClearedNext(m, n, M(), d, PageUp(newsz), v);
          v := v + 1;
        }
      }
      ClearedExact(m, M(), d, oldsz, newsz);
      r := newsz;
    }

    /** walkpgdir without allocation. */
    method WalkOnly(d: nat, v: nat) returns (t: nat)
      requires Ok() && Page(M(), d, v)
      ensures Entry(M(), d, v / NPDENTRIES) && t == dirs[d][v / NPDENTRIES] && (t != 0 ==> HasTable(M(), d, v))
    {
      assert Entry(M(), d, v / NPDENTRIES);
      t := dirs[d][v / NPDENTRIES];
    }
  
    /**
    allocuvm.  The address space grows to exactly the new size, with zeroed pages, or all mappings
    are as before and no frame is lost.  The panic "remap" is never reached.
    */
    method Allocuvm(d: nat, oldsz: nat, newsz: nat) returns (r: Outcome<nat>)
      requires Ok() && Exact(M(), d, oldsz)
      modifies this`free, this`dirs, this`tables, this`frames, this`role
      ensures !r.Panicked? && Ok() && OnlyDir(old(M()), M(), d) && LooseSet(M()) == LooseSet(old(M())) && d in dirs
      ensures r.Refused? ==> Unmoved(old(M()), M(), d) && frames == old(frames)
      ensures r.Refused? <==>
                || newsz >= KERNBASE
                || (oldsz <= newsz && |old(free)| < GrowCost(old(M()), d, PageUp(oldsz), PageUp(newsz)))
      ensures r.Done? ==> r.value == (if newsz < oldsz then oldsz else newsz) && Exact(M(), d, r.value)
      ensures r.Done? ==> Filled(old(M()), M(), d, PageUp(oldsz), PageUp(newsz)) && DataKept(old(M()), M())
    {
      hide Tabled, Framed, Roles, SameView, OnlyDir, Ranged, Cleared, Exact, Unmoved, Filled, At, Charged, Missing,
           TablesOf;
      ghost var m := M();
      ExactShape(m, d, oldsz);
      OnlyDirRefl(m, d);
      UnmovedRefl(m, d);
      if newsz >= KERNBASE {
        return Refused;
      }
      if newsz < oldsz {
        PageUpMonotone(newsz, oldsz);
        FilledNone(m, d, PageUp(oldsz), PageUp(newsz));
        return Done(oldsz);
      }
      PageUpMonotone(oldsz, newsz);
      var a := PageUp(oldsz);
      FilledNone(m, d, a, a);
      NoTables(a);
      ChargedNothing(m, d);
      ghost var end := PageUp(newsz);
      while a * PGSIZE < newsz
        invariant PageUp(oldsz) <= a <= PageUp(newsz)
        invariant Ok() && d in dirs && OnlyDir(m, M(), d) && LooseSet(M()) == LooseSet(m) && DataKept(m, M())
        invariant Filled(m, M(), d, PageUp(oldsz), a)
        invariant Charged(m, M(), d, TablesOf(PageUp(oldsz), a), a - PageUp(oldsz))
      {
        ghost var start, before := PageUp(oldsz), M();
        var got := GrowOne(d, a, m, PageUp(oldsz));
        if got.Panicked? {
          NeverRemaps(m, d, oldsz, a);
          return Panicked;
        }
        TablesNext(start, a);
        if got.Refused? {
          TablesJoin(start, a + 1, end);
          CannotPay(m, before, d, TablesOf(start, a), a - start, {a / NPDENTRIES}, 1, TablesOf(start, end),
                    end - start);
          ghost var n := M();
          var x := Deallocuvm(d, newsz, oldsz);
          OnlyDirTrans(m, n, M(), d);
          BackAgain(m, n, M(), d, oldsz, newsz, a, pages);
          return Refused;
        }
        ChargedTrans(m, before, M(), d, TablesOf(start, a), a - start, {a / NPDENTRIES}, 1);
        a := a + 1;
      }
      ChargedEnough(m, M(), d, TablesOf(PageUp(oldsz), end), end - PageUp(oldsz));
      FilledExact(m, M(), d, oldsz, newsz);
      return Done(newsz);
    }

    /** One pass of allocuvm's loop; the page in hand goes back when it cannot be mapped. */
    method GrowOne(d: nat, a: nat, ghost m: Mem, ghost start: nat) returns (r: Outcome<()>)
      requires Ok() && d in dirs && start <= a && (a + 1) * PGSIZE <= KERNBASE
      requires OnlyDir(m, M(), d) && LooseSet(M()) == LooseSet(m) && DataKept(m, M()) && Filled(m, M(), d, start, a)
      modifies this`free, this`dirs, this`tables, this`frames, this`role
      ensures r.Panicked? ==> Shape(m) && d in m.dirs && At(m, d, a).Present?
      ensures !r.Panicked? ==>
                Ok() && d in dirs && OnlyDir(m, M(), d) && LooseSet(M()) == LooseSet(m) && DataKept(m, M())
      ensures !r.Panicked? ==> Filled(m, M(), d, start, if r.Done? then a + 1 else a)
      ensures r.Done? ==> Charged(old(M()), M(), d, {a / NPDENTRIES}, 1)
      ensures r.Refused? ==> |old(free)| < 1 + Missing(old(M()), d, {a / NPDENTRIES})
    {
      hide Tabled, Framed, Roles, SameView, OnlyDir, Ranged, Filled, At, Charged, Missing, TablesOf;
      OneTable(a);
      ghost var n := M();
      FilledAt(m, n, d, start, a);
      var mem := Kalloc();
      if mem == 0 {
        return Refused;
      }
      ghost var n1 := M();
      OnlyDirTrans(m, n, n1, d);
      ViewAt(n, n1, d, a);
      assert mem in LooseSet(n1);
      assert mem * PGSIZE / PGSIZE == mem;
      ghost var k;
      r, k := Mappages(d, a * PGSIZE, PGSIZE, mem * PGSIZE, PTE_W + PTE_U, ZeroPage());
      assert a * PGSIZE / PGSIZE == a && (a * PGSIZE + PGSIZE - 1) / PGSIZE == a;
      if r.Panicked? {
        return;
      }
      if r.Refused? {
        SameMissing(n, n1, d, {a / NPDENTRIES});
        Kfree(mem);
        OnlyDirTrans(m, n1, M(), d);
        FilledView(m, n, n1, d, start, a);
        FilledView(m, n1, M(), d, start, a);
        return;
      }
      OnlyDirTrans(m, n1, M(), d);
      FreshFrame(n1, mem, pages);
      FilledView(m, n, n1, d, start, a);
      FilledNext(m, n1, M(), d, start, a, mem);
      PageTaken(n, n1, d);
      ChargedTrans(n, n1, M(), d, {}, 1, {a / NPDENTRIES}, 0);
      assert {} + {a / NPDENTRIES} == {a / NPDENTRIES};
    }

    /** freevm: everything of the address space goes back to the free list. */
    method Freevm(d: nat)
      requires Ok() && d in dirs
      modifies this`free, this`dirs, this`tables, this`frames, this`role
      ensures Ok() && OnlyDir(old(M()), M(), d) && NothingOf(M(), d) && LooseSet(M()) == LooseSet(old(M()))
    {
      hide Inv, SameView, OnlyDir, NothingOf, Cleared, At, LooseSet, RowSet;
      ghost var m := M();
      var x := Deallocuvm(d, KERNBASE, 0);
      ghost var n := M();
      ClearedUser(m, n, d);
      var row := dirs[d];
      TakeOut(d);
      OnlyDirTrans(m, n, M(), d);
      ghost var w := M();
      ghost var base := LooseSet(n) + {d};
      RowDistinct(n, d, pages);
      FreeTables(row, d, base);
      OnlyDirTrans(m, w, M(), d);
      w := M();
      LooseMeans(w, d);
      Kfree(d);
      OnlyDirTrans(m, w, M(), d);
      PushNothing(w, d, d);
      assert base - {d} == LooseSet(m);
    }

    /** The directory and its tables are out of use. */
    method TakeOut(d: nat)
      requires Ok() && d in dirs && forall v: nat :: v < USERPAGES ==> At(M(), d, v) == Absent
      modifies this`dirs, this`tables, this`role
      ensures Ok() && OnlyDir(old(M()), M(), d) && NothingOf(M(), d)
      ensures LooseSet(M()) == LooseSet(old(M())) + {d} + RowSet(old(dirs)[d], 0)
    {
      hide Inv, OnlyDir, NothingOf, At, LooseSet, RowSet;
      ghost var n := M();
      DropDirInv(n, d, pages);
      DropDirLoose(n, d, pages);
      RowTables(n, d, pages);
      var row := dirs[d];
      dirs := dirs - {d};
      tables := tables - (set t | t in row && t != 0);
      role := Unrole(n, d);
      assert M() == DropDir(n, d);
    }

    /** The tables that were listed in a directory, one after the other. */
    method FreeTables(row: seq<nat>, ghost d: nat, ghost base: set<nat>)
      requires Ok() && NothingOf(M(), d) && LooseSet(M()) == base + RowSet(row, 0) && Distinct(row, base)
      requires |row| == NPDENTRIES
      modifies this`free, this`role
      ensures Ok() && NothingOf(M(), d) && OnlyDir(old(M()), M(), d) && LooseSet(M()) == base
    {
      hide Inv, OnlyDir, NothingOf, SameView, LooseSet, RowSet, Distinct;
      ghost var m := M();
      OnlyDirRefl(m, d);
      var i := 0;
      while i < NPDENTRIES
        invariant 0 <= i <= NPDENTRIES
        invariant Ok() && OnlyDir(m, M(), d) && NothingOf(M(), d)
        invariant LooseSet(M()) == base + RowSet(row, i)
      {
        ghost var w := M();
        RowStep(row, i, base);
        if row[i] != 0 {
          LooseMeans(w, row[i]);
          Kfree(row[i]);
          OnlyDirTrans(m, w, M(), d);
          PushNothing(w, row[i], d);
        }
        i := i + 1;
      }
      RowEnd(row, base);
    }
  
    /**
    setupkvm: a new directory with the kernel's mappings and nothing else, or everything as before.
    `data` is the first page of the kernel's data.  The panic "remap" is never reached.
    */
    method Setupkvm(data: nat) returns (r: Outcome<nat>)
      requires Ok() && KERNLINK < data * PGSIZE < KERNBASE + PHYSTOP
      modifies this`free, this`dirs, this`tables, this`frames, this`role
      ensures !r.Panicked? && Ok() && LooseSet(M()) == LooseSet(old(M())) && frames == old(frames)
      ensures r.Refused? <==> |old(free)| < KERNELCOST
      ensures r.Refused? ==> Restored(old(M()), M())
      ensures r.Done? ==> Exact(M(), r.value, 0) && |free| == |old(free)| - KERNELCOST
      ensures r.Done? ==> r.value in dirs && forall i: nat :: i < USERPAGES / NPDENTRIES ==> i in Gaps(dirs[r.value])
      ensures r.Done? ==>
                && r.value !in old(dirs) && r.value in dirs && OnlyDir(old(M()), M(), r.value)
                && KernelPart(M(), r.value, data, ALLPAGES)
    {
      hide Inv, SameView, OnlyDir, NothingOf, KernelPart, Ranged, LooseSet, At, Gaps, Exact, Charged, Missing,
           KernelTables, TablesOf, Kmaps, KernelPte, Limit;
      ghost var m := M();
      KernelTablesSize(data);
      LastLimit(data);
      var d := Kalloc();
      if d == 0 {
        return Refused;
      }
      ghost var n := M();
      LooseMeans(n, d);
      NewDirInv(n, d, pages);
      NewDirOnly(n, d);
      OnlyDirTrans(m, n, NewDir(n, d), d);
      NewDirLoose(n, d);
      InvShape(NewDir(n, d), pages);
      KernelNone(n, d, data);
      dirs := dirs[d := EmptyDir()];
      role := role[d := Dir];
      FreshNothing(m, d, pages);
      ghost var n1 := M();
      AllMissing(n1, d, KernelTables(data, 4));
      KernelTablesNone(data);
      ChargedNothing(n1, d);
      var k := 0;
      while k < 4
        invariant 0 <= k <= 4 && Ok() && d in dirs && OnlyDir(m, M(), d) && LooseSet(M()) == LooseSet(m)
        invariant frames == m.frames
        invariant KernelPart(M(), d, data, Limit(data, k)) && Charged(n1, M(), d, KernelTables(data, k), 0)
      {
        ghost var w := M();
        var e := Kmaps(data)[k];
        KmapFits(data, k);
        var got, last := Mappages(d, e.virt, (e.end + 0x1_0000_0000 - e.phys) % 0x1_0000_0000, e.phys, e.perm, []);
        if got.Panicked? {
          KernelFresh(w, d, data, k);
          return Panicked;
        }
        OnlyDirTrans(m, w, M(), d);
        KernelTablesNext(data, k);
        ghost var more := TablesOf(e.virt / PGSIZE, Limit(data, k + 1));
        if got.Refused? {
          KernelTablesGrow(data, k + 1);
          CannotPay(n1, w, d, KernelTables(data, k), 0, more, 0, KernelTables(data, 4), 0);
          w := M();
          Freevm(d);
          OnlyDirTrans(m, w, M(), d);
          AllBack(m, M(), d, pages);
          return Refused;
        }
        ChargedTrans(n1, w, M(), d, KernelTables(data, k), 0, more, 0);
        KernelNext(w, M(), d, data, k);
        k := k + 1;
      }
      UserGaps(n1, M(), d, data);
      KernelExact(M(), d, data);
      return Done(d);
    }
  
    /**
    copyuvm: a new address space with the same user pages, flags and contents, or everything as
    before.  None of its panics is reached when the parent has exactly the pages below sz.
    */
    method Copyuvm(d: nat, sz: nat, data: nat) returns (r: Outcome<nat>)
      requires Ok() && Exact(M(), d, sz) && sz <= KERNBASE && KERNLINK < data * PGSIZE < KERNBASE + PHYSTOP
      modifies this`free, this`dirs, this`tables, this`frames, this`role
      ensures !r.Panicked? && Ok() && LooseSet(M()) == LooseSet(old(M()))
      ensures r.Refused? <==> |old(free)| < CopyCost(PageUp(sz))
      ensures r.Refused? ==> Restored(old(M()), M())
      ensures r.Done? ==>
                && r.value !in old(dirs) && OnlyDir(old(M()), M(), r.value)
                && Copied(old(M()), M(), d, r.value, PageUp(sz), data) && Exact(M(), r.value, sz)
    {
      hide Inv, SameView, OnlyDir, NothingOf, KernelPart, Copied, LooseSet, At, Exact, Charged, Missing, TablesOf, Gaps;
      ghost var m := M();
      ExactShape(m, d, sz);
      r := Setupkvm(data);
      if !r.Done? {
        return;
      }
      var e := r.value;
      FreshNothing(m, e, pages);
      CopiedNone(m, M(), d, e, data);
      ghost var m1 := M();
      PagesBound(sz);
      UserMissing(m1, e, PageUp(sz));
      NoTables(0);
      ChargedNothing(m1, e);
      var v := 0;
      while v * PGSIZE < sz
        invariant v <= PageUp(sz)
        invariant Ok() && e in dirs && OnlyDir(m, M(), e) && LooseSet(M()) == LooseSet(m)
        invariant Copied(m, M(), d, e, v, data) && Charged(m1, M(), e, TablesOf(0, v), v)
      {
        ghost var before := M();
        var got := CopyOne(d, e, v, m, sz, data);
        if got.Panicked? {
          return Panicked;
        }
        TablesNext(0, v);
        if got.Refused? {
          TablesJoin(0, v + 1, PageUp(sz));
          CannotPay(m1, before, e, TablesOf(0, v), v, {v / NPDENTRIES}, 1, TablesOf(0, PageUp(sz)), PageUp(sz));
          ghost var w := M();
          Freevm(e);
          OnlyDirTrans(m, w, M(), e);
          AllBack(m, M(), e, pages);
          return Refused;
        }
        ChargedTrans(m1, before, M(), e, TablesOf(0, v), v, {v / NPDENTRIES}, 1);
        v := v + 1;
      }
      ChargedEnough(m1, M(), e, TablesOf(0, PageUp(sz)), PageUp(sz));
      CopiedExact(m, M(), d, e, sz, data);
    }

    /** One pass of copyuvm's loop. */
    method CopyOne(d: nat, e: nat, v: nat, ghost m: Mem, ghost sz: nat, ghost data: nat) returns (r: Outcome<()>)
      requires Ok() && Inv(m, pages) && Exact(m, d, sz) && v * PGSIZE < sz <= KERNBASE && e in dirs && e !in m.dirs
      requires OnlyDir(m, M(), e) && LooseSet(M()) == LooseSet(m) && Copied(m, M(), d, e, v, data)
      modifies this`free, this`dirs, this`tables, this`frames, this`role
      ensures !r.Panicked? && Ok() && e in dirs && OnlyDir(m, M(), e) && LooseSet(M()) == LooseSet(m)
      ensures Copied(m, M(), d, e, if r.Done? then v + 1 else v, data)
      ensures r.Done? ==> Charged(old(M()), M(), e, {v / NPDENTRIES}, 1)
      ensures r.Refused? ==> |old(free)| < 1 + Missing(old(M()), e, {v / NPDENTRIES})
    {
      hide Inv, SameView, OnlyDir, Ranged, Copied, LooseSet, At, Exact, Shape, Gaps, Charged, Missing, TablesOf;
      OneTable(v);
      ghost var n := M();
      ParentPage(m, n, d, e, v, sz, pages);
      InvShape(n, pages);
      CopiedAt(m, n, d, e, v, data);
      var t := WalkOnly(d, v);
      if t == 0 {
        NoTable(n, d, v);
        return Panicked;
      }
      TableAt(n, d, v);
      var pte := tables[t][v % NPDENTRIES];
      if !pte.Present? {
        return Panicked;
      }
      var bytes := frames[pte.page];
      var mem := Kalloc();
      if mem == 0 {
        return Refused;
      }
      ghost var n1 := M();
      OnlyDirTrans(m, n, n1, e);
      CopiedView(m, n, n1, d, e, v, data);
      ViewAt(n, n1, e, v);
      LooseMeans(n1, mem);
      assert mem * PGSIZE / PGSIZE == mem;
      assert v * PGSIZE / PGSIZE == v && (v * PGSIZE + PGSIZE - 1) / PGSIZE == v;
      ghost var k;
      r, k := Mappages(e, v * PGSIZE, PGSIZE, mem * PGSIZE, pte.perm, bytes);
      if r.Panicked? {
        return;
      }
      if r.Refused? {
        SameMissing(n, n1, e, {v / NPDENTRIES});
        Kfree(mem);
        OnlyDirTrans(m, n1, M(), e);
        CopiedView(m, n1, M(), d, e, v, data);
        return;
      }
      OnlyDirTrans(m, n1, M(), e);
      FreshFrame(n1, mem, pages);
      CopiedNext(m, n1, M(), d, e, v, data, mem);
      PageTaken(n, n1, e);
      ChargedTrans(n, n1, M(), e, {}, 1, {v / NPDENTRIES}, 0);
      assert {} + {v / NPDENTRIES} == {v / NPDENTRIES};
    }
  }

  /** What a copy of n pages takes: the kernel's part, a frame for each page, and a table for each 1024 of them. */
  function CopyCost(n: nat): (r: nat) {
    KERNELCOST + n + (n + NPDENTRIES - 1) / NPDENTRIES
  }

  lemma PagesBound(sz: nat)
    requires sz <= KERNBASE
    ensures PageUp(sz) <= USERPAGES
  {
  }

  lemma UserMissing(m: Mem, d: nat, n: nat)
    requires d in m.dirs && n <= USERPAGES && forall i: nat :: i < USERPAGES / NPDENTRIES ==> i in Gaps(m.dirs[d])
    ensures Missing(m, d, TablesOf(0, n)) == (n + NPDENTRIES - 1) / NPDENTRIES
  {
    hide Gaps;
    TablesSize(0, n);
    assert TablesOf(0, n) * Gaps(m.dirs[d]) == TablesOf(0, n);
  }

  /** Two pages with the same flags and the same contents. */
  ghost predicate SamePage(m: Mem, p: Pte, r: Mem, q: Pte) {
    && p.Present? && q.Present? && q.perm == p.perm
    && p.page in m.frames && q.page in r.frames && r.frames[q.page] == m.frames[p.page]
  }

  /** e has copies of the first v pages that d had, no other user pages, and the kernel's mappings. */
  ghost predicate Copied(m: Mem, r: Mem, d: nat, e: nat, v: nat, data: nat) {
    && Shape(m) && Shape(r) && d in m.dirs && e in r.dirs
    && forall w: nat :: w < ALLPAGES ==>
         if w < v then SamePage(m, At(m, d, w), r, At(r, e, w))
         else At(r, e, w) == if w < USERPAGES then Absent else KernelPte(data, w)
  }

  lemma CopiedNone(m: Mem, r: Mem, d: nat, e: nat, data: nat)
    requires Shape(m) && d in m.dirs && KernelPart(r, e, data, ALLPAGES)
    ensures Copied(m, r, d, e, 0, data)
  {
    hide At, Shape;
  }

  lemma CopiedAt(m: Mem, r: Mem, d: nat, e: nat, v: nat, data: nat)
    requires Copied(m, r, d, e, v, data) && v < USERPAGES
    ensures Shape(r) && Page(r, e, v) && At(r, e, v) == Absent
  {
  }

  lemma CopiedView(m: Mem, n: Mem, r: Mem, d: nat, e: nat, v: nat, data: nat)
    requires Copied(m, n, d, e, v, data) && SameView(n, r) && r.frames == n.frames
    ensures Copied(m, r, d, e, v, data)
  {
    hide At, Shape;
    forall w: nat | w < ALLPAGES
      ensures At(r, e, w) == At(n, e, w)
    {
      assert Page(n, e, w);
    }
  }

  lemma CopiedNext(m: Mem, n: Mem, r: Mem, d: nat, e: nat, v: nat, data: nat, f: nat)
    requires Copied(m, n, d, e, v, data) && v < USERPAGES && f !in n.frames
    requires At(m, d, v).Present? && At(m, d, v).page in m.frames
    requires Ranged(n, r, e, v, v + 1, f, At(m, d, v).perm) && r.frames == n.frames[f := m.frames[At(m, d, v).page]]
    ensures Copied(m, r, d, e, v + 1, data)
  {
    hide At, Shape, KernelPte;
  }

  lemma CopiedExact(m: Mem, r: Mem, d: nat, e: nat, sz: nat, data: nat)
    requires Copied(m, r, d, e, PageUp(sz), data) && sz <= KERNBASE
    ensures Exact(r, e, sz)
  {
    hide At, Shape;
    forall w: nat | w < USERPAGES
      ensures At(r, e, w).Present? <==> w * PGSIZE < sz
    {
      PageBelow(w, sz);
    }
  }

  /** The parent still has its page, with its contents. */
  lemma ParentPage(m: Mem, r: Mem, d: nat, e: nat, v: nat, sz: nat, pages: set<nat>)
    requires Inv(m, pages) && Inv(r, pages) && OnlyDir(m, r, e) && e !in m.dirs && Exact(m, d, sz)
    requires v * PGSIZE < sz <= KERNBASE
    ensures Page(r, d, v) && Page(m, d, v) && v < USERPAGES
    ensures At(r, d, v) == At(m, d, v) && At(m, d, v).Present?
    ensures At(m, d, v).page in m.frames && At(m, d, v).page in r.frames
    ensures r.frames[At(m, d, v).page] == m.frames[At(m, d, v).page]
  {
    hide At, Shape, Tabled, Framed, Roles, OnlyDir;
    OnlyDirView(m, r, e, d, v, pages);
    ForeignFrame(m, r, d, e, v, pages);
  }

  lemma ForeignFrame(m: Mem, r: Mem, d: nat, e: nat, v: nat, pages: set<nat>)
    requires Shape(m) && Framed(m) && Roles(m, pages) && OnlyDir(m, r, e) && d != e && Page(m, d, v) && v < USERPAGES
    requires At(m, d, v).Present?
    ensures At(m, d, v).page in m.frames && At(m, d, v).page in r.frames
    ensures r.frames[At(m, d, v).page] == m.frames[At(m, d, v).page]
  {
    hide At, Shape;
    var f := At(m, d, v).page;
    assert Has(m, f, Frame(d, v));
    assert Foreign(m, f, e);
    assert Kept(m, r, f);
  }

  const EXTMEM := 0x10_0000
  const KERNLINK := KERNBASE + EXTMEM
  const PHYSTOP := 0xE00_0000
  const DEVSPACE := 0xFE00_0000

  datatype Kmap = Kmap(virt: nat, phys: nat, end: nat, perm: nat)

  /** The kernel's mappings; the end of the last one has wrapped to 0. */
  function Kmaps(data: nat): (r: seq<Kmap>)
    requires KERNLINK < data * PGSIZE < KERNBASE + PHYSTOP
    ensures |r| == 4
  {
    [Kmap(KERNBASE, 0, EXTMEM, PTE_W),
     Kmap(KERNLINK, EXTMEM, data * PGSIZE - KERNBASE, 0),
     Kmap(data * PGSIZE, data * PGSIZE - KERNBASE, PHYSTOP, PTE_W),
     Kmap(DEVSPACE, DEVSPACE, 0, PTE_W)]
  }

  /** How the kernel half of every address space is meant to look. */
  function KernelPte(data: nat, w: nat): (p: Pte) {
    if 0x8_0000 <= w < 0x8_E000 then Present(w - 0x8_0000, if 0x8_0100 <= w < data then 0 else PTE_W)
    else if w >= 0xF_E000 then Present(w, PTE_W)
    else Absent
  }

  function Limit(data: nat, k: nat): (r: nat)
    requires k <= 4
  {
    [0x8_0000, 0x8_0100, data, 0x8_E000, ALLPAGES][k]
  }

  /** Up to the limit, d maps what the kernel needs; behind it nothing. */
  ghost predicate KernelPart(m: Mem, d: nat, data: nat, limit: nat) {
    && Shape(m) && d in m.dirs
    && forall w: nat :: w < ALLPAGES ==> At(m, d, w) == if w < limit then KernelPte(data, w) else Absent
  }

  /** The same pages in the same use; only the order of the free list may differ. */
  ghost predicate Restored(m: Mem, r: Mem) {
    r.role == m.role && r.dirs == m.dirs && r.tables == m.tables && r.frames == m.frames
  }

  /** A directory and the tables for the kernel's mappings. */
  const KERNELCOST := 65

  /** The entries that the first k of the kernel's mappings go through. */
  function KernelTables(data: nat, k: nat): (r: set<nat>)
    requires k <= 4
  {
    if k == 4 then TablesOf(0x8_0000, 0x8_E000) + TablesOf(0xF_E000, ALLPAGES) else TablesOf(0x8_0000, Limit(data, k))
  }

  lemma KernelTablesNone(data: nat)
    ensures KernelTables(data, 0) == {}
  {
  }

  lemma KernelTablesNext(data: nat, k: nat)
    requires KERNLINK < data * PGSIZE < KERNBASE + PHYSTOP && k < 4
    ensures KernelTables(data, k + 1) ==
            KernelTables(data, k) + TablesOf(Kmaps(data)[k].virt / PGSIZE, Limit(data, k + 1))
  {
    hide TablesOf;
    assert data * PGSIZE / PGSIZE == data;
    if k < 3 {
      TablesJoin(0x8_0000, Limit(data, k), Limit(data, k + 1));
    }
  }

  lemma KernelTablesGrow(data: nat, k: nat)
    requires KERNLINK < data * PGSIZE < KERNBASE + PHYSTOP && k <= 4
    ensures KernelTables(data, k) <= KernelTables(data, 4)
  {
    hide TablesOf;
    if k < 4 {
      TablesJoin(0x8_0000, Limit(data, k), 0x8_E000);
    }
  }

  predicate Between(a: nat, i: nat, b: nat) {
    a <= i < b
  }

  function Interval(a: nat, b: nat): (r: set<nat>) {
    set i: nat | i < b && Between(a, i, b)
  }

  lemma {:induction false} IntervalSize(a: nat, b: nat)
    requires a <= b
    ensures |Interval(a, b)| == b - a
    decreases b
  {
    if a == b {
      assert Interval(a, a) == {};
    } else {
      IntervalSize(a, b - 1);
      assert Interval(a, b) == Interval(a, b - 1) + {b - 1};
    }
  }

  lemma TablesSize(a: nat, b: nat)
    requires a <= b <= ALLPAGES
    ensures |TablesOf(a, b)| == if a == b then 0 else (b - 1) / NPDENTRIES - a / NPDENTRIES + 1
  {
    if a < b {
      IntervalSize(a / NPDENTRIES, (b - 1) / NPDENTRIES + 1);
      assert TablesOf(a, b) == Interval(a / NPDENTRIES, (b - 1) / NPDENTRIES + 1);
    } else {
      NoTables(a);
    }
  }

  lemma KernelTablesSize(data: nat)
    ensures |KernelTables(data, 4)| == KERNELCOST - 1
    ensures forall i :: i in KernelTables(data, 4) ==> USERPAGES / NPDENTRIES <= i < NPDENTRIES
  {
    TablesSize(0x8_0000, 0x8_E000);
    TablesSize(0xF_E000, ALLPAGES);
    assert TablesOf(0x8_0000, 0x8_E000) !! TablesOf(0xF_E000, ALLPAGES);
  }

  /** In a new directory every table is missing. */
  lemma AllMissing(m: Mem, d: nat, tables: set<nat>)
    requires d in m.dirs && m.dirs[d] == EmptyDir() && forall i :: i in tables ==> 0 <= i < NPDENTRIES
    ensures Missing(m, d, tables) == |tables|
  {
    assert tables * Gaps(m.dirs[d]) == tables;
  }

  /** The kernel's mappings leave the user half of a new directory without tables. */
  lemma UserGaps(m: Mem, r: Mem, d: nat, data: nat)
    requires d in m.dirs && m.dirs[d] == EmptyDir() && Charged(m, r, d, KernelTables(data, 4), 0)
    ensures |r.free| == |m.free| - (KERNELCOST - 1)
    ensures forall i: nat :: i < USERPAGES / NPDENTRIES ==> i in Gaps(r.dirs[d])
  {
    hide KernelTables, TablesOf;
    KernelTablesSize(data);
    AllMissing(m, d, KernelTables(data, 4));
  }

  lemma KmapFits(data: nat, k: nat)
    requires KERNLINK < data * PGSIZE < KERNBASE + PHYSTOP && k < 4
    ensures var e := Kmaps(data)[k]; var size := (e.end + 0x1_0000_0000 - e.phys) % 0x1_0000_0000;
            && KERNBASE <= e.virt && 0 < size && e.virt + size <= 0x1_0000_0000
            && Limit(data, k) <= e.virt / PGSIZE && (e.virt + size - 1) / PGSIZE + 1 == Limit(data, k + 1)
            && forall w: nat :: Limit(data, k) <= w < Limit(data, k + 1) ==>
                 KernelPte(data, w) ==
                 if w < e.virt / PGSIZE then Absent else Present(e.phys / PGSIZE + (w - e.virt / PGSIZE), e.perm)
  {
    assert data * PGSIZE / PGSIZE == data && (data * PGSIZE - KERNBASE) / PGSIZE == data - 0x8_0000;
  }

  lemma KernelFresh(m: Mem, d: nat, data: nat, k: nat)
    requires KERNLINK < data * PGSIZE < KERNBASE + PHYSTOP && k < 4 && KernelPart(m, d, data, Limit(data, k))
    ensures forall w: nat :: Kmaps(data)[k].virt / PGSIZE <= w < ALLPAGES ==> At(m, d, w) == Absent
  {
    KmapFits(data, k);
  }

  lemma KernelNext(m: Mem, r: Mem, d: nat, data: nat, k: nat)
    requires KERNLINK < data * PGSIZE < KERNBASE + PHYSTOP && k < 4 && KernelPart(m, d, data, Limit(data, k))
    requires var e := Kmaps(data)[k]; Ranged(m, r, d, e.virt / PGSIZE, Limit(data, k + 1), e.phys / PGSIZE, e.perm)
    ensures KernelPart(r, d, data, Limit(data, k + 1))
  {
    KmapFits(data, k);
    hide At, Shape, Limit, Kmaps, KernelPte;
    assert Limit(data, k) <= Limit(data, k + 1) by { LimitGrows(data, k); }
  }

  lemma LastLimit(data: nat)
    ensures Limit(data, 4) == ALLPAGES
  {
  }

  lemma LimitGrows(data: nat, k: nat)
    requires KERNLINK < data * PGSIZE < KERNBASE + PHYSTOP && k < 4
    ensures Limit(data, k) <= Limit(data, k + 1)
  {
  }

  lemma KernelNone(m: Mem, d: nat, data: nat)
    requires Shape(NewDir(m, d)) && d in NewDir(m, d).dirs
    requires forall v: nat :: v < ALLPAGES ==> At(NewDir(m, d), d, v) == Absent
    ensures KernelPart(NewDir(m, d), d, data, Limit(data, 0))
  {
    hide At, Shape;
  }

  lemma InvShape(m: Mem, pages: set<nat>)
    requires Inv(m, pages)
    ensures Shape(m)
  {
  }

  lemma NewDirLoose(m: Mem, d: nat)
    ensures LooseSet(NewDir(m, d)) == LooseSet(m) - {d}
  {
  }

  lemma FreshNothing(m: Mem, d: nat, pages: set<nat>)
    requires Inv(m, pages) && d !in m.dirs
    ensures NothingOf(m, d)
  {
  }

  lemma AllBack(m: Mem, r: Mem, d: nat, pages: set<nat>)
    requires Inv(m, pages) && Inv(r, pages) && OnlyDir(m, r, d) && NothingOf(m, d) && NothingOf(r, d)
    requires LooseSet(m) == LooseSet(r)
    ensures Restored(m, r)
  {
    hide Inv, OnlyDir, NothingOf, LooseSet;
    forall p
      ensures Has(m, p, Loose) <==> Has(r, p, Loose)
    {
      LooseMeans(m, p);
      LooseMeans(r, p);
    }
    NothingLeft(m, r, d, pages);
  }

  /** The user half of d is exactly the pages below the size. */
  ghost predicate Exact(m: Mem, d: nat, sz: nat) {
    && Shape(m) && d in m.dirs
    && forall w: nat :: w < USERPAGES ==> (At(m, d, w).Present? <==> w * PGSIZE < sz)
  }

  /** What growing from page a to page b takes: a frame for each page, and the tables that are missing. */
  ghost function GrowCost(m: Mem, d: nat, a: nat, b: nat): (n: int)
    requires d in m.dirs
  {
    b - a + Missing(m, d, TablesOf(a, b))
  }

  ghost predicate Unmoved(m: Mem, r: Mem, d: nat) {
    && Shape(m) && Shape(r) && d in m.dirs && d in r.dirs
    && forall w: nat :: w < ALLPAGES ==> At(r, d, w) == At(m, d, w)
  }

  function ZeroPage(): (r: seq<byte>) {
    seq(PGSIZE, i => 0)
  }

  /** Pages [a, b) of d are new, writable for the user and zeroed; all others of d are as before. */
  ghost predicate Filled(m: Mem, r: Mem, d: nat, a: nat, b: nat) {
    && Shape(m) && Shape(r) && d in m.dirs && d in r.dirs
    && forall w: nat :: w < ALLPAGES ==>
         if a <= w < b then NewPage(r, At(r, d, w)) else At(r, d, w) == At(m, d, w)
  }

  ghost predicate NewPage(m: Mem, p: Pte) {
    p.Present? && p.perm == PTE_W + PTE_U && p.page in m.frames && m.frames[p.page] == ZeroPage()
  }

  /** Shrinking leaves exactly the pages below the new size. */
  lemma ClearedExact(m: Mem, r: Mem, d: nat, oldsz: nat, newsz: nat)
    requires newsz <= oldsz && Cleared(m, r, d, PageUp(newsz), PageUp(oldsz))
    ensures Exact(m, d, oldsz) ==> Exact(r, d, newsz)
  {
    hide At, Shape;
    if Exact(m, d, oldsz) {
      forall w: nat | w < USERPAGES
        ensures At(r, d, w).Present? <==> w * PGSIZE < newsz
      {
        PageBelow(w, oldsz);
        PageBelow(w, newsz);
      }
    }
  }

  /** A new address space has no user page. */
  lemma KernelExact(m: Mem, d: nat, data: nat)
    requires KernelPart(m, d, data, ALLPAGES)
    ensures Exact(m, d, 0)
  {
    hide At, Shape;
  }

  lemma ExactShape(m: Mem, d: nat, sz: nat)
    requires Exact(m, d, sz)
    ensures Shape(m) && d in m.dirs
  {
  }

  lemma UnmovedRefl(m: Mem, d: nat)
    requires Shape(m) && d in m.dirs
    ensures Unmoved(m, m, d)
  {
  }

  lemma FilledNone(m: Mem, d: nat, a: nat, b: nat)
    requires Shape(m) && d in m.dirs && b <= a
    ensures Filled(m, m, d, a, b)
  {
  }

  lemma FilledAt(m: Mem, r: Mem, d: nat, a: nat, b: nat)
    requires Filled(m, r, d, a, b) && b < ALLPAGES
    ensures Shape(m) && Shape(r) && d in m.dirs && Page(r, d, b) && At(r, d, b) == At(m, d, b)
  {
  }

  lemma FilledView(m: Mem, n: Mem, r: Mem, d: nat, a: nat, b: nat)
    requires Filled(m, n, d, a, b) && SameView(n, r) && r.frames == n.frames
    ensures Filled(m, r, d, a, b)
  {
    hide At, Shape;
    forall w: nat | w < ALLPAGES
      ensures At(r, d, w) == At(n, d, w)
    {
      assert Page(n, d, w);
    }
  }

  lemma FilledNext(m: Mem, n: Mem, r: Mem, d: nat, a: nat, b: nat, f: nat)
    requires a <= b && Filled(m, n, d, a, b) && Ranged(n, r, d, b, b + 1, f, PTE_W + PTE_U)
    requires f !in n.frames && r.frames == n.frames[f := ZeroPage()]
    ensures Filled(m, r, d, a, b + 1)
  {
    hide At, Shape, ZeroPage;
  }

  lemma FreshFrame(m: Mem, f: nat, pages: set<nat>)
    requires Inv(m, pages) && Has(m, f, Loose)
    ensures f !in m.frames
  {
  }

  lemma FilledExact(m: Mem, r: Mem, d: nat, oldsz: nat, newsz: nat)
    requires Exact(m, d, oldsz) && oldsz <= newsz < KERNBASE && Filled(m, r, d, PageUp(oldsz), PageUp(newsz))
    ensures Exact(r, d, newsz)
  {
    hide At, Shape;
    forall w: nat | w < USERPAGES
      ensures At(r, d, w).Present? <==> w * PGSIZE < newsz
    {
      PageBelow(w, oldsz);
      PageBelow(w, newsz);
    }
  }

  lemma PageBelow(w: nat, sz: nat)
    ensures w * PGSIZE < sz <==> w < PageUp(sz)
  {
  }

  lemma NeverRemaps(m: Mem, d: nat, oldsz: nat, a: nat)
    requires Exact(m, d, oldsz) && PageUp(oldsz) <= a < USERPAGES
    ensures At(m, d, a) == Absent
  {
    PageBelow(a, oldsz);
  }

  /** Giving back what was taken leaves the mappings and the frames of before. */
  lemma BackAgain(m: Mem, n: Mem, r: Mem, d: nat, oldsz: nat, newsz: nat, a: nat, pages: set<nat>)
    requires Inv(m, pages) && Inv(r, pages) && OnlyDir(m, r, d) && Exact(m, d, oldsz) && oldsz <= newsz < KERNBASE
    requires PageUp(oldsz) <= a <= PageUp(newsz) && Filled(m, n, d, PageUp(oldsz), a)
    requires Cleared(n, r, d, PageUp(oldsz), PageUp(newsz))
    requires DataKept(m, n) && DataKept(r, n)
    ensures Unmoved(m, r, d) && r.frames == m.frames
  {
    hide At, Shape, Inv, OnlyDir;
    forall w: nat | w < ALLPAGES
      ensures At(r, d, w) == At(m, d, w)
    {
      if PageUp(oldsz) <= w < PageUp(newsz) {
        NeverRemaps(m, d, oldsz, w);
      }
    }
    FramesByView(m, r, d, pages);
    assert forall f :: f in m.frames ==> f in r.frames && r.frames[f] == m.frames[f];
  }

  /* ---- helpers of freevm ---- */

  lemma ClearedUser(m: Mem, r: Mem, d: nat)
    requires Cleared(m, r, d, PageUp(0), PageUp(KERNBASE))
    ensures Shape(r) && d in r.dirs && forall v: nat :: v < USERPAGES ==> At(r, d, v) == Absent
  {
  }

  /** The tables that a directory lists from place i on. */
  ghost function RowSet(row: seq<nat>, i: nat): (r: set<nat>) {
    set j | i <= j < |row| && row[j] != 0 :: row[j]
  }

  /** Every table is listed once, and none of them is in the set. */
  ghost predicate Distinct(row: seq<nat>, base: set<nat>) {
    && (forall i, j :: 0 <= i < j < |row| && row[i] != 0 ==> row[i] != row[j])
    && forall i :: 0 <= i < |row| && row[i] != 0 ==> row[i] !in base
  }

  lemma RowStep(row: seq<nat>, i: nat, base: set<nat>)
    requires i < |row| && Distinct(row, base)
    ensures row[i] == 0 ==> base + RowSet(row, i) == base + RowSet(row, i + 1)
    ensures row[i] != 0 ==>
              row[i] in base + RowSet(row, i) && base + RowSet(row, i) - {row[i]} == base + RowSet(row, i + 1)
  {
  }

  lemma RowEnd(row: seq<nat>, base: set<nat>)
    requires |row| == NPDENTRIES
    ensures base + RowSet(row, NPDENTRIES) == base
  {
  }

  lemma LooseMeans(m: Mem, p: nat)
    ensures p in LooseSet(m) <==> Has(m, p, Loose)
  {
  }

  lemma RowTables(m: Mem, d: nat, pages: set<nat>)
    requires Inv(m, pages) && d in m.dirs
    ensures (set t | t in m.tables && Belongs(m, t, d)) == (set t | t in m.dirs[d] && t != 0)
    ensures RowSet(m.dirs[d], 0) == set t | t in m.dirs[d] && t != 0
    ensures d !in RowSet(m.dirs[d], 0)
  {
    hide Framed;
    var row := m.dirs[d];
    forall t
      ensures t in m.tables && Belongs(m, t, d) <==> t in row && t != 0
    {
      if t in m.tables && Belongs(m, t, d) {
        assert m.dirs[m.role[t].dir][m.role[t].entry] == t;
      }
      if t in row && t != 0 {
        var i: nat :| i < |row| && row[i] == t;
        assert Entry(m, d, i);
        assert Has(m, t, Table(d, i));
      }
    }
  }

  lemma DropDirLoose(m: Mem, d: nat, pages: set<nat>)
    requires Inv(m, pages) && d in m.dirs
    ensures LooseSet(DropDir(m, d)) == LooseSet(m) + {d} + RowSet(m.dirs[d], 0)
  {
    RowTables(m, d, pages);
    hide Framed, Tabled, Shape, RowSet;
    assert d in m.role;
    forall p
      ensures p in LooseSet(DropDir(m, d)) <==> p in LooseSet(m) || Belongs(m, p, d)
    {
    }
  }

  lemma PushNothing(m: Mem, p: nat, d: nat)
    requires NothingOf(m, d) && Has(m, p, Loose)
    ensures NothingOf(Push(m, p), d)
  {
  }

  lemma RowDistinct(m: Mem, d: nat, pages: set<nat>)
    requires Inv(m, pages) && d in m.dirs
    ensures |m.dirs[d]| == NPDENTRIES && Distinct(m.dirs[d], LooseSet(m) + {d}) && d !in LooseSet(m)
  {
    hide Framed;
    var row := m.dirs[d];
    forall i | 0 <= i < |row| && row[i] != 0
      ensures Has(m, row[i], Table(d, i))
    {
      assert Entry(m, d, i);
    }
  }

  /** Pages [a, b) of d are mapped one after the other from base on; all others of d are as before. */
  ghost predicate Ranged(m: Mem, r: Mem, d: nat, a: nat, b: nat, base: nat, perm: nat) {
    && Shape(m) && Shape(r) && d in m.dirs && d in r.dirs
    && forall w: nat :: w < ALLPAGES ==>
         At(r, d, w) == if a <= w < b then Present(base + (w - a), perm) else At(m, d, w)
  }

  lemma RangedNone(m: Mem, d: nat, a: nat, base: nat, perm: nat)
    requires Shape(m) && d in m.dirs
    ensures Ranged(m, m, d, a, a, base, perm)
  {
  }

  lemma RangedAt(m: Mem, r: Mem, d: nat, a: nat, b: nat, base: nat, perm: nat)
    requires Ranged(m, r, d, a, b, base, perm) && b < ALLPAGES
    ensures At(r, d, b) == At(m, d, b)
  {
  }

  lemma RangedNext(m: Mem, n: Mem, r: Mem, d: nat, a: nat, b: nat, base: nat, perm: nat)
    requires a <= b && Ranged(m, n, d, a, b, base, perm) && Remapped(n, r, d, b, Present(base + (b - a), perm))
    ensures Ranged(m, r, d, a, b + 1, base, perm)
  {
    hide At, Shape;
  }

  lemma RemappedSame(m: Mem, d: nat, v: nat)
    requires Shape(m) && Page(m, d, v)
    ensures Remapped(m, m, d, v, At(m, d, v))
  {
    hide At, Shape;
  }

  lemma ChangeThenView(m: Mem, n: Mem, r: Mem, d: nat, v: nat, p: Pte)
    requires OneChanged(m, n, d, v, p) && SameView(n, r) && d in m.dirs
    ensures Remapped(m, r, d, v, p)
  {
    hide At, Shape;
    forall w: nat | w < ALLPAGES
      ensures At(r, d, w) == if w == v then p else At(m, d, w)
    {
      assert Page(m, d, w) && Page(n, d, w);
    }
  }

  lemma UnmapFrameOnly(m: Mem, d: nat, v: nat, f: nat, pages: set<nat>)
    requires Inv(m, pages) && HasTable(m, d, v) && Has(m, f, Frame(d, v))
    ensures OnlyDir(m, UnmapFrame(m, d, v, f), d)
  {
    hide Framed, OnlyDir, Tabled;
    SetPteOnly(m, UnmapFrame(m, d, v, f), d, v, Absent, f);
  }

  lemma LooseUnmapped(m: Mem, r: Mem, f: nat, d: nat, v: nat)
    requires Has(m, f, Frame(d, v)) && r.role == m.role[f := Loose]
    ensures LooseSet(r) - {f} == LooseSet(m)
  {
  }

  lemma ClearedNone(m: Mem, d: nat, a: nat, b: nat)
    requires Shape(m) && d in m.dirs && b <= a
    ensures Cleared(m, m, d, a, b)
  {
  }

  lemma ClearedNext(m: Mem, n: Mem, r: Mem, d: nat, a: nat, b: nat)
    requires a <= b && Cleared(m, n, d, a, b) && Remapped(n, r, d, b, Absent)
    ensures Cleared(m, r, d, a, b + 1)
  {
    hide At, Shape;
  }

  /** Without a table there is nothing mapped up to the next directory entry. */
  lemma ClearedSkip(m: Mem, n: Mem, d: nat, a: nat, b: nat, c: nat)
    requires a <= b < c <= (b / NPDENTRIES + 1) * NPDENTRIES && Cleared(m, n, d, a, b)
    requires Entry(n, d, b / NPDENTRIES) && n.dirs[d][b / NPDENTRIES] == 0
    ensures Cleared(m, n, d, a, c)
  {
    forall w: nat | b <= w < c && w < ALLPAGES
      ensures At(n, d, w) == Absent
    {
      assert w / NPDENTRIES == b / NPDENTRIES;
    }
    hide At, Shape;
  }

  lemma PageUpMonotone(x: nat, y: nat)
    requires x <= y
    ensures PageUp(x) <= PageUp(y)
  {
  }

  lemma NoTable(m: Mem, d: nat, v: nat)
    requires Shape(m) && Page(m, d, v) && Entry(m, d, v / NPDENTRIES) && m.dirs[d][v / NPDENTRIES] == 0
    ensures At(m, d, v) == Absent
  {
  }

  lemma TableAt(m: Mem, d: nat, v: nat)
    requires Shape(m) && HasTable(m, d, v)
    ensures m.dirs[d][v / NPDENTRIES] in m.tables && v % NPDENTRIES < |m.tables[m.dirs[d][v / NPDENTRIES]]|
    ensures At(m, d, v) == m.tables[m.dirs[d][v / NPDENTRIES]][v % NPDENTRIES]
  {
  }

  lemma ViewAt(m: Mem, r: Mem, d: nat, v: nat)
    requires SameView(m, r) && Page(m, d, v)
    ensures Page(r, d, v) && At(r, d, v) == At(m, d, v)
  {
  }

  lemma LooseKept(m: Mem, r: Mem, p: nat)
    requires LooseSet(m) == LooseSet(r)
    ensures Has(m, p, Loose) <==> Has(r, p, Loose)
  {
    assert p in LooseSet(m) <==> p in LooseSet(r);
  }

  lemma ViewThenChange(m: Mem, n: Mem, r: Mem, d: nat, v: nat, p: Pte)
    requires SameView(m, n) && OneChanged(n, r, d, v, p) && d in m.dirs
    ensures Remapped(m, r, d, v, p)
  {
    hide At, Shape;
    forall w: nat | w < ALLPAGES
      ensures At(r, d, w) == if w == v then p else At(m, d, w)
    {
      assert Page(m, d, w) && Page(n, d, w);
    }
  }

  lemma MapFrameOnly(m: Mem, d: nat, v: nat, f: nat, perm: nat, data: seq<byte>, pages: set<nat>)
    requires Inv(m, pages) && HasTable(m, d, v) && Has(m, f, Loose)
    ensures OnlyDir(m, MapFrame(m, d, v, f, perm, data), d)
  {
    hide Framed, OnlyDir, Tabled;
    SetPteOnly(m, MapFrame(m, d, v, f, perm, data), d, v, Present(f, perm), f);
  }

  lemma SetKernelOnly(m: Mem, d: nat, v: nat, p: Pte, pages: set<nat>)
    requires Inv(m, pages) && HasTable(m, d, v)
    ensures OnlyDir(m, SetPte(m, d, v, p), d)
  {
    hide Framed, OnlyDir;
    var r := SetPte(m, d, v, p);
    assert r.role == m.role[d := r.role[d]];
    SetPteOnly(m, r, d, v, p, d);
  }

  lemma SameViewRefl(m: Mem)
    requires Shape(m)
    ensures SameView(m, m)
  {
  }

  lemma OnlyDirRefl(m: Mem, d: nat)
    ensures OnlyDir(m, m, d)
  {
  }

  lemma SameViewTrans(m: Mem, n: Mem, r: Mem)
    requires SameView(m, n) && SameView(n, r)
    ensures SameView(m, r)
  {
    hide At, Shape;
    forall d: nat, v: nat | Page(m, d, v)
      ensures Page(r, d, v) && At(r, d, v) == At(m, d, v)
    {
      assert Page(n, d, v);
    }
  }

  lemma PopOnlyInv(m: Mem, d: nat, pages: set<nat>)
    requires Inv(m, pages) && m.free != []
    ensures OnlyDir(m, Pop(m), d)
  {
    hide Shape, Tabled, Framed;
    PopOnly(m, d, pages);
  }

  lemma PageNotNull(m: Mem, p: nat, pages: set<nat>)
    requires Inv(m, pages) && p in m.role
    ensures p != 0
  {
  }
}
