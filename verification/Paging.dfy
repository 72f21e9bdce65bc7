/**
Two-level page tables over the page allocator.  Every page is on the free list, or is a page
directory, a page table or a user frame, or is in the hands of the kernel code that is about to
use it.  A table belongs to one entry of one directory, a frame to one page of one address space.
*/
module Paging {
  import opened Blocks

  const NPDENTRIES := 1024
  const USERPAGES := 0x8_0000   // KERNBASE in pages
  const ALLPAGES := 0x10_0000

  datatype Pte = Absent | Present(page: nat, perm: nat)

  /** What a page is used for: a table hangs on one entry of one directory, a frame is mapped at one page. */
  datatype Role = Free | Dir | Table(dir: nat, entry: nat) | Frame(dir: nat, at: nat) | Loose

  /** A directory entry holds the page of a table, or 0.  `role` is the record of the proof. */
  datatype Mem = Mem(free: seq<nat>, dirs: map<nat, seq<nat>>, tables: map<nat, seq<Pte>>, frames: map<nat, seq<byte>>,
                     role: map<nat, Role>)

  ghost predicate Shape(m: Mem) {
    && (forall d :: d in m.dirs ==> |m.dirs[d]| == NPDENTRIES)
    && (forall t :: t in m.tables ==> |m.tables[t]| == NPDENTRIES)
    && (forall d: nat, i: nat :: Entry(m, d, i) && m.dirs[d][i] != 0 ==> m.dirs[d][i] in m.tables)
  }

  ghost predicate Entry(m: Mem, d: nat, i: nat) {
    d in m.dirs && i < NPDENTRIES <= |m.dirs[d]|
  }

  /** The page table entry for a page of an address space; a missing table counts as absent entries. */
  ghost function At(m: Mem, d: nat, v: nat): (p: Pte)
    requires Shape(m) && d in m.dirs && v < ALLPAGES
  {
    assert Entry(m, d, v / NPDENTRIES);
    var t := m.dirs[d][v / NPDENTRIES];
    if t == 0 then Absent else m.tables[t][v % NPDENTRIES]
  }

  ghost predicate Page(m: Mem, d: nat, v: nat) {
    d in m.dirs && v < ALLPAGES
  }

  ghost predicate Has(m: Mem, p: nat, r: Role) {
    p in m.role && m.role[p] == r
  }

  ghost predicate Tabled(m: Mem) {
    && (forall d: nat, i: nat :: Entry(m, d, i) && m.dirs[d][i] != 0 ==> Has(m, m.dirs[d][i], Table(d, i)))
    && (forall t :: t in m.role && m.role[t].Table? ==>
          Entry(m, m.role[t].dir, m.role[t].entry) && m.dirs[m.role[t].dir][m.role[t].entry] == t)
  }

  ghost predicate Framed(m: Mem)
    requires Shape(m)
  {
    && (forall d: nat, v: nat :: Page(m, d, v) && v < USERPAGES && At(m, d, v).Present? ==>
          Has(m, At(m, d, v).page, Frame(d, v)))
    && (forall f :: f in m.role && m.role[f].Frame? ==>
          && Page(m, m.role[f].dir, m.role[f].at) && m.role[f].at < USERPAGES
          && At(m, m.role[f].dir, m.role[f].at).Present? && At(m, m.role[f].dir, m.role[f].at).page == f)
  }

  /** Every page has one role, and is found exactly where its role says. */
  ghost predicate Roles(m: Mem, pages: set<nat>) {
    && m.role.Keys == pages && 0 !in pages
    && (forall p :: p in m.free <==> p in m.role && m.role[p] == Free)
    && (forall p :: p in m.dirs <==> p in m.role && m.role[p] == Dir)
    && (forall p :: p in m.tables <==> p in m.role && m.role[p].Table?)
    && (forall p :: p in m.frames <==> p in m.role && m.role[p].Frame?)
    && (forall i, j :: 0 <= i < j < |m.free| ==> m.free[i] != m.free[j])
  }

  ghost predicate Inv(m: Mem, pages: set<nat>) {
    Shape(m) && Tabled(m) && Framed(m) && Roles(m, pages)
  }

  /** Every address space of m is mapped in r as it was. */
  ghost predicate SameView(m: Mem, r: Mem) {
    && Shape(m) && Shape(r) && m.dirs.Keys <= r.dirs.Keys
    && forall d: nat, v: nat :: Page(m, d, v) ==> At(r, d, v) == At(m, d, v)
  }

  /* ---- steps ---- */

  /** kalloc and kfree. */
  ghost function Pop(m: Mem): (r: Mem)
    requires m.free != []
  {
    m.(free := m.free[1..], role := m.role[m.free[0] := Loose])
  }

  ghost function Push(m: Mem, p: nat): (r: Mem) {
    m.(free := [p] + m.free, role := m.role[p := Free])
  }

  function EmptyTable(): (t: seq<Pte>)
    ensures |t| == NPDENTRIES && forall i :: 0 <= i < NPDENTRIES ==> t[i] == Absent
  {
    seq(NPDENTRIES, i => Absent)
  }

  function EmptyDir(): (d: seq<nat>)
    ensures |d| == NPDENTRIES && forall i :: 0 <= i < NPDENTRIES ==> d[i] == 0
  {
    seq<nat>(NPDENTRIES, i => 0)
  }

  /** An empty table in an empty entry. */
  ghost function AddTable(m: Mem, d: nat, i: nat, t: nat): (r: Mem)
    requires d in m.dirs && i < |m.dirs[d]|
  {
    var row: seq<nat> := m.dirs[d][i := t];
    m.(dirs := m.dirs[d := row], tables := m.tables[t := EmptyTable()], role := m.role[t := Table(d, i)])
  }

  ghost function NewDir(m: Mem, d: nat): (r: Mem) {
    m.(dirs := m.dirs[d := EmptyDir()], role := m.role[d := Dir])
  }

  ghost predicate HasTable(m: Mem, d: nat, v: nat) {
    Page(m, d, v) && Entry(m, d, v / NPDENTRIES) && m.dirs[d][v / NPDENTRIES] != 0
  }

  ghost function SetPte(m: Mem, d: nat, v: nat, p: Pte): (r: Mem)
    requires Shape(m) && HasTable(m, d, v)
  {
    var t := m.dirs[d][v / NPDENTRIES];
    m.(tables := m.tables[t := m.tables[t][v % NPDENTRIES := p]])
  }

  /** A frame with its contents is mapped, and taken away again. */
  ghost function MapFrame(m: Mem, d: nat, v: nat, f: nat, perm: nat, data: seq<byte>): (r: Mem)
    requires Shape(m) && HasTable(m, d, v)
  {
    SetPte(m, d, v, Present(f, perm)).(frames := m.frames[f := data], role := m.role[f := Frame(d, v)])
  }

  ghost function UnmapFrame(m: Mem, d: nat, v: nat, f: nat): (r: Mem)
    requires Shape(m) && HasTable(m, d, v)
  {
    SetPte(m, d, v, Absent).(frames := m.frames - {f}, role := m.role[f := Loose])
  }

  /* ---- and what they keep ---- */

  lemma SameMaps(m: Mem, r: Mem, p: nat, x: Role, y: Role)
    requires Shape(m) && Tabled(m) && Framed(m) && Has(m, p, x) && x in {Free, Loose} && y in {Free, Loose}
    requires r.dirs == m.dirs && r.tables == m.tables && r.frames == m.frames && r.role == m.role[p := y]
    ensures Shape(r) && Tabled(r) && Framed(r) && SameView(m, r)
  {
    assert forall d: nat, i: nat :: Entry(r, d, i) <==> Entry(m, d, i);
    assert forall d: nat, v: nat :: Page(r, d, v) <==> Page(m, d, v);
    assert Shape(r);
    assert forall d: nat, v: nat :: Page(m, d, v) ==> At(r, d, v) == At(m, d, v);
  }

  lemma PopInv(m: Mem, pages: set<nat>)
    requires Inv(m, pages) && m.free != []
    ensures Inv(Pop(m), pages) && m.free[0] in pages && Has(Pop(m), m.free[0], Loose) && Has(m, m.free[0], Free)
    ensures SameView(m, Pop(m))
  {
    hide Framed, Tabled, Shape, SameView;
    assert m.free[0] in m.free;
    SameMaps(m, Pop(m), m.free[0], Free, Loose);
    PopRoles(m, pages);
  }

  lemma PopRoles(m: Mem, pages: set<nat>)
    requires Roles(m, pages) && m.free != []
    ensures Roles(Pop(m), pages)
  {
    var r := Pop(m);
    forall p
      ensures p in r.free <==> p in m.free && p != m.free[0]
    {
    }
  }

  lemma PushInv(m: Mem, p: nat, pages: set<nat>)
    requires Inv(m, pages) && Has(m, p, Loose)
    ensures Inv(Push(m, p), pages) && SameView(m, Push(m, p))
  {
    hide Framed, Tabled, Shape, SameView;
    SameMaps(m, Push(m, p), p, Loose, Free);
  }

  /** An empty table changes no mapping. */
  lemma AddTableInv(m: Mem, d: nat, i: nat, t: nat, pages: set<nat>)
    requires Inv(m, pages) && Entry(m, d, i) && m.dirs[d][i] == 0 && Has(m, t, Loose)
    ensures Inv(AddTable(m, d, i, t), pages) && SameView(m, AddTable(m, d, i, t))
  {
    hide At, Shape, Tabled, Framed, SameView;
    AddTableShape(m, d, i, t, pages);
    AddTableView(m, d, i, t, pages);
    ViewFramed(m, AddTable(m, d, i, t), t);
  }

  lemma AddTableShape(m: Mem, d: nat, i: nat, t: nat, pages: set<nat>)
    requires Inv(m, pages) && Entry(m, d, i) && m.dirs[d][i] == 0 && Has(m, t, Loose)
    ensures Shape(AddTable(m, d, i, t)) && Tabled(AddTable(m, d, i, t))
  {
    hide Framed;
    var r := AddTable(m, d, i, t);
    assert t !in m.tables && t != 0;
    assert forall e: nat, k: nat :: Entry(r, e, k) <==> Entry(m, e, k);
  }

  lemma AddTableView(m: Mem, d: nat, i: nat, t: nat, pages: set<nat>)
    requires Inv(m, pages) && Entry(m, d, i) && m.dirs[d][i] == 0 && Has(m, t, Loose) && Shape(AddTable(m, d, i, t))
    ensures SameView(m, AddTable(m, d, i, t))
  {
    hide Framed, Tabled;
    var r := AddTable(m, d, i, t);
    assert t !in m.tables && t != 0;
    forall e: nat, v: nat | Page(m, e, v)
      ensures At(r, e, v) == At(m, e, v)
    {
      assert Entry(m, e, v / NPDENTRIES);
    }
  }

  /** Frames go by the mappings alone. */
  lemma ViewFramed(m: Mem, r: Mem, t: nat)
    requires SameView(m, r) && Framed(m) && r.dirs.Keys == m.dirs.Keys && Has(m, t, Loose)
    requires t in r.role && !r.role[t].Frame? && r.role == m.role[t := r.role[t]]
    ensures Framed(r)
  {
    hide At, Shape;
    assert forall d: nat, v: nat :: Page(r, d, v) <==> Page(m, d, v);
  }

  lemma SetPteShape(m: Mem, r: Mem, d: nat, v: nat, p: Pte)
    requires Shape(m) && HasTable(m, d, v) && r.dirs == m.dirs && r.tables == SetPte(m, d, v, p).tables
    ensures Shape(r)
  {
    assert forall e: nat, k: nat :: Entry(r, e, k) <==> Entry(m, e, k);
  }

  /** One entry changes and no other, because no two directory entries share a table. */
  lemma SetPteAt(m: Mem, r: Mem, d: nat, v: nat, p: Pte, e: nat, w: nat)
    requires Shape(m) && Tabled(m) && HasTable(m, d, v) && Page(m, e, w)
    requires Shape(r) && r.dirs == m.dirs && r.tables == SetPte(m, d, v, p).tables
    ensures At(r, e, w) == if e == d && w == v then p else At(m, e, w)
  {
    assert Entry(m, e, w / NPDENTRIES);
    assert w == v <==> w / NPDENTRIES == v / NPDENTRIES && w % NPDENTRIES == v % NPDENTRIES;
  }

  /** r maps page v of d to p and is otherwise mapped like m. */
  ghost predicate OneChanged(m: Mem, r: Mem, d: nat, v: nat, p: Pte) {
    && Shape(m) && Shape(r) && r.dirs == m.dirs
    && forall e: nat, w: nat :: Page(m, e, w) ==> At(r, e, w) == if e == d && w == v then p else At(m, e, w)
  }

  lemma SetPteView(m: Mem, r: Mem, d: nat, v: nat, p: Pte)
    requires Shape(m) && Tabled(m) && HasTable(m, d, v) && r.dirs == m.dirs && r.tables == SetPte(m, d, v, p).tables
    ensures OneChanged(m, r, d, v, p)
  {
    hide Tabled, At;
    SetPteShape(m, r, d, v, p);
    forall e: nat, w: nat | Page(m, e, w)
      ensures At(r, e, w) == if e == d && w == v then p else At(m, e, w)
    {
      SetPteAt(m, r, d, v, p, e, w);
    }
  }

  lemma SameTabled(m: Mem, r: Mem, f: nat)
    requires Tabled(m) && r.dirs == m.dirs && f in m.role && !m.role[f].Table?
    requires f in r.role && !r.role[f].Table? && r.role == m.role[f := r.role[f]]
    ensures Tabled(r)
  {
    assert forall e: nat, k: nat :: Entry(r, e, k) <==> Entry(m, e, k);
  }

  lemma MapFrameInv(m: Mem, d: nat, v: nat, f: nat, perm: nat, data: seq<byte>, pages: set<nat>)
    requires Inv(m, pages) && HasTable(m, d, v) && v < USERPAGES && At(m, d, v) == Absent && Has(m, f, Loose)
    ensures Inv(MapFrame(m, d, v, f, perm, data), pages)
    ensures OneChanged(m, MapFrame(m, d, v, f, perm, data), d, v, Present(f, perm))
  {
    hide At, Tabled, Framed, Shape, OneChanged, Roles;
    var r := MapFrame(m, d, v, f, perm, data);
    SetPteView(m, r, d, v, Present(f, perm));
    ChangedShape(m, r, d, v, Present(f, perm));
    SameTabled(m, r, f);
    MapFramed(m, r, d, v, f, perm);
    TableOfEntry(m, d, v);
    FrameRoles(m, r, f, pages);
  }

  /** A page that becomes a frame, or stops being one. */
  lemma FrameRoles(m: Mem, r: Mem, f: nat, pages: set<nat>)
    requires Roles(m, pages) && f in m.role && f in r.role && {m.role[f], r.role[f]} !! {Free, Dir}
    requires !m.role[f].Table? && !r.role[f].Table? && (f in r.frames <==> r.role[f].Frame?)
    requires r.free == m.free && r.dirs == m.dirs && r.tables.Keys == m.tables.Keys && r.role == m.role[f := r.role[f]]
    requires forall p :: p != f ==> (p in r.frames <==> p in m.frames)
    ensures Roles(r, pages)
  {
    assert forall p :: p in r.tables <==> p in m.tables;
  }

  lemma ChangedShape(m: Mem, r: Mem, d: nat, v: nat, p: Pte)
    requires OneChanged(m, r, d, v, p)
    ensures Shape(m) && Shape(r)
  {
  }

  lemma TableOfEntry(m: Mem, d: nat, v: nat)
    requires Shape(m) && HasTable(m, d, v)
    ensures m.dirs[d][v / NPDENTRIES] in m.tables
  {
  }

  lemma MapFramed(m: Mem, r: Mem, d: nat, v: nat, f: nat, perm: nat)
    requires OneChanged(m, r, d, v, Present(f, perm)) && Framed(m) && Page(m, d, v) && v < USERPAGES
    requires At(m, d, v) == Absent
    requires Has(m, f, Loose) && r.role == m.role[f := Frame(d, v)]
    ensures Framed(r)
  {
    hide At, Shape;
    assert forall e: nat, w: nat :: Page(r, e, w) <==> Page(m, e, w);
  }

  lemma UnmapFrameInv(m: Mem, d: nat, v: nat, f: nat, pages: set<nat>)
    requires Inv(m, pages) && HasTable(m, d, v) && v < USERPAGES && At(m, d, v).Present? && At(m, d, v).page == f
    ensures Has(m, f, Frame(d, v)) && f != 0 && Inv(UnmapFrame(m, d, v, f), pages)
    ensures OneChanged(m, UnmapFrame(m, d, v, f), d, v, Absent) && Has(UnmapFrame(m, d, v, f), f, Loose)
  {
    hide At, Tabled, Framed, Shape, OneChanged, Roles;
    MappedFrame(m, d, v);
    FrameNotNull(m, f, pages);
    var r := UnmapFrame(m, d, v, f);
    SetPteView(m, r, d, v, Absent);
    ChangedShape(m, r, d, v, Absent);
    SameTabled(m, r, f);
    UnmapFramed(m, r, d, v, f);
    TableOfEntry(m, d, v);
    FrameRoles(m, r, f, pages);
  }

  lemma FrameNotNull(m: Mem, f: nat, pages: set<nat>)
    requires Roles(m, pages) && f in m.role
    ensures f != 0
  {
  }

  lemma MappedFrame(m: Mem, d: nat, v: nat)
    requires Shape(m) && Framed(m) && Page(m, d, v) && v < USERPAGES && At(m, d, v).Present?
    ensures Has(m, At(m, d, v).page, Frame(d, v))
  {
  }

  lemma UnmapFramed(m: Mem, r: Mem, d: nat, v: nat, f: nat)
    requires OneChanged(m, r, d, v, Absent) && Framed(m) && Page(m, d, v) && v < USERPAGES
    requires At(m, d, v).Present? && At(m, d, v).page == f && r.role == m.role[f := Loose]
    ensures Framed(r)
  {
    hide At, Shape;
    assert forall e: nat, w: nat :: Page(r, e, w) <==> Page(m, e, w);
  }

  /** A new directory maps nothing. */
  lemma NewDirInv(m: Mem, d: nat, pages: set<nat>)
    requires Inv(m, pages) && Has(m, d, Loose)
    ensures d !in m.dirs && Inv(NewDir(m, d), pages) && SameView(m, NewDir(m, d))
    ensures forall v: nat :: v < ALLPAGES ==> At(NewDir(m, d), d, v) == Absent
  {
    hide At, Shape, Tabled, Framed, SameView;
    assert d !in m.dirs;
    NewDirView(m, d);
    NewDirFramed(m, d);
  }

  lemma NewDirFramed(m: Mem, d: nat)
    requires Shape(m) && Framed(m) && Has(m, d, Loose) && Shape(NewDir(m, d)) && SameView(m, NewDir(m, d))
    requires forall v: nat :: v < ALLPAGES ==> At(NewDir(m, d), d, v) == Absent
    ensures Framed(NewDir(m, d))
  {
    hide At, Shape;
    var r := NewDir(m, d);
    assert forall e: nat, v: nat :: Page(r, e, v) <==> Page(m, e, v) || (e == d && v < ALLPAGES);
  }

  lemma NewDirView(m: Mem, d: nat)
    requires Shape(m) && Tabled(m) && d !in m.dirs && Has(m, d, Loose)
    ensures Shape(NewDir(m, d)) && Tabled(NewDir(m, d)) && SameView(m, NewDir(m, d))
    ensures forall v: nat :: v < ALLPAGES ==> At(NewDir(m, d), d, v) == Absent
  {
    var r := NewDir(m, d);
    assert forall e: nat, i: nat :: Entry(r, e, i) <==> Entry(m, e, i) || (e == d && i < NPDENTRIES);
    assert Shape(r);
    forall e: nat, v: nat | Page(m, e, v)
      ensures At(r, e, v) == At(m, e, v)
    {
    }
  }

  /** Entries above the user half carry no ownership. */
  lemma SetKernelInv(m: Mem, d: nat, v: nat, p: Pte, pages: set<nat>)
    requires Inv(m, pages) && HasTable(m, d, v) && v >= USERPAGES
    ensures Inv(SetPte(m, d, v, p), pages) && OneChanged(m, SetPte(m, d, v, p), d, v, p)
  {
    hide At, Framed, Shape, OneChanged;
    var r := SetPte(m, d, v, p);
    SetPteView(m, r, d, v, p);
    ChangedShape(m, r, d, v, p);
    TableOfEntry(m, d, v);
    KernelFramed(m, r, d, v, p);
    assert r.tables.Keys == m.tables.Keys;
    assert forall e: nat, k: nat :: Entry(r, e, k) <==> Entry(m, e, k);
  }

  lemma KernelFramed(m: Mem, r: Mem, d: nat, v: nat, p: Pte)
    requires OneChanged(m, r, d, v, p) && Framed(m) && r.role == m.role && v >= USERPAGES
    ensures Framed(r)
  {
    hide At, Shape;
    assert forall e: nat, w: nat :: Page(r, e, w) <==> Page(m, e, w);
  }

  /* ---- what belongs to other address spaces ---- */

  /** The page belongs to an address space other than d. */
  ghost predicate Foreign(m: Mem, p: nat, d: nat) {
    p in m.role &&
    match m.role[p]
    case Free => false
    case Loose => false
    case Dir => p != d
    case Table(e, _) => e != d
    case Frame(e, _) => e != d
  }

  ghost predicate Kept(m: Mem, r: Mem, p: nat) {
    && p in m.role && p in r.role && r.role[p] == m.role[p]
    && (p in m.dirs ==> p in r.dirs && r.dirs[p] == m.dirs[p])
    && (p in m.tables ==> p in r.tables && r.tables[p] == m.tables[p])
    && (p in m.frames ==> p in r.frames && r.frames[p] == m.frames[p])
  }

  /** Nothing has happened to any address space but d. */
  ghost predicate OnlyDir(m: Mem, r: Mem, d: nat) {
    forall p :: Foreign(m, p, d) || Foreign(r, p, d) ==> Kept(m, r, p)
  }

  lemma OnlyDirTrans(m: Mem, n: Mem, r: Mem, d: nat)
    requires OnlyDir(m, n, d) && OnlyDir(n, r, d)
    ensures OnlyDir(m, r, d)
  {
    forall p | Foreign(m, p, d) || Foreign(r, p, d)
      ensures Kept(m, r, p)
    {
      assert Kept(m, n, p) && Kept(n, r, p);
    }
  }

  /** So the other address spaces are mapped as they were. */
  lemma OnlyDirView(m: Mem, r: Mem, d: nat, e: nat, v: nat, pages: set<nat>)
    requires Inv(m, pages) && Inv(r, pages) && OnlyDir(m, r, d) && Page(m, e, v) && e != d
    ensures Page(r, e, v) && At(r, e, v) == At(m, e, v)
  {
    hide Framed;
    assert Foreign(m, e, d);
    assert Kept(m, r, e);
    assert Entry(m, e, v / NPDENTRIES);
    var t := m.dirs[e][v / NPDENTRIES];
    if t != 0 {
      assert Foreign(m, t, d);
      assert Kept(m, r, t);
    }
  }

  lemma PopOnly(m: Mem, d: nat, pages: set<nat>)
    requires Roles(m, pages) && m.free != []
    ensures OnlyDir(m, Pop(m), d)
  {
    assert m.free[0] in m.free;
  }

  lemma PushOnly(m: Mem, p: nat, d: nat)
    requires Has(m, p, Loose)
    ensures OnlyDir(m, Push(m, p), d)
  {
  }

  lemma AddTableOnly(m: Mem, d: nat, i: nat, t: nat, pages: set<nat>)
    requires Roles(m, pages) && Entry(m, d, i) && Has(m, t, Loose)
    ensures OnlyDir(m, AddTable(m, d, i, t), d)
  {
  }

  lemma NewDirOnly(m: Mem, d: nat)
    requires Has(m, d, Loose)
    ensures OnlyDir(m, NewDir(m, d), d)
  {
  }

  lemma SetPteOnly(m: Mem, r: Mem, d: nat, v: nat, p: Pte, f: nat)
    requires Shape(m) && Tabled(m) && HasTable(m, d, v) && f in m.role && f in r.role && !Foreign(m, f, d)
    requires !Foreign(r, f, d)
    requires r.dirs == m.dirs && r.tables == SetPte(m, d, v, p).tables && r.role == m.role[f := r.role[f]]
    requires forall q :: q != f && q in m.frames ==> q in r.frames && r.frames[q] == m.frames[q]
    ensures OnlyDir(m, r, d)
  {
    var t := m.dirs[d][v / NPDENTRIES];
    assert Has(m, t, Table(d, v / NPDENTRIES));
  }

  /* ---- a whole address space goes ---- */

  ghost predicate Belongs(m: Mem, p: nat, d: nat) {
    p in m.role && (p == d || (m.role[p].Table? && m.role[p].dir == d))
  }

  ghost function Unrole(m: Mem, d: nat): (r: map<nat, Role>) {
    map p | p in m.role :: if Belongs(m, p, d) then Loose else m.role[p]
  }

  /** The directory and its tables are no longer in use. */
  ghost function DropDir(m: Mem, d: nat): (r: Mem) {
    m.(dirs := m.dirs - {d}, tables := m.tables - (set t | t in m.tables && Belongs(m, t, d)), role := Unrole(m, d))
  }

  ghost predicate NothingOf(m: Mem, d: nat) {
    && d !in m.dirs
    && forall p :: p in m.role ==>
         !(m.role[p].Table? && m.role[p].dir == d) && !(m.role[p].Frame? && m.role[p].dir == d)
  }

  lemma DropDirShape(m: Mem, d: nat, pages: set<nat>)
    requires Inv(m, pages) && d in m.dirs
    ensures Shape(DropDir(m, d)) && Tabled(DropDir(m, d))
  {
    hide Framed;
    var r := DropDir(m, d);
    assert forall e: nat, i: nat :: Entry(r, e, i) <==> Entry(m, e, i) && e != d;
    forall e: nat, i: nat | Entry(r, e, i) && r.dirs[e][i] != 0
      ensures r.dirs[e][i] in r.tables && Has(r, r.dirs[e][i], Table(e, i))
    {
      assert Has(m, m.dirs[e][i], Table(e, i));
    }
  }

  lemma DropDirView(m: Mem, d: nat, e: nat, v: nat, pages: set<nat>)
    requires Inv(m, pages) && d in m.dirs && e != d && Page(m, e, v) && Shape(DropDir(m, d))
    ensures Page(DropDir(m, d), e, v) && At(DropDir(m, d), e, v) == At(m, e, v)
  {
    hide Framed;
    assert Entry(m, e, v / NPDENTRIES);
    var t := m.dirs[e][v / NPDENTRIES];
    if t != 0 {
      assert Has(m, t, Table(e, v / NPDENTRIES));
    }
  }

  lemma DropDirFramed(m: Mem, d: nat, pages: set<nat>)
    requires Inv(m, pages) && d in m.dirs && Shape(DropDir(m, d))
    requires forall v: nat :: v < USERPAGES ==> At(m, d, v) == Absent
    ensures Framed(DropDir(m, d)) && NothingOf(DropDir(m, d), d)
  {
    hide At, Shape;
    var r := DropDir(m, d);
    forall e: nat, v: nat | Page(r, e, v)
      ensures e != d && Page(m, e, v) && At(r, e, v) == At(m, e, v)
    {
      DropDirView(m, d, e, v, pages);
    }
    forall f | f in m.role && m.role[f].Frame?
      ensures m.role[f].dir != d && Page(r, m.role[f].dir, m.role[f].at)
    {
      DropDirView(m, d, m.role[f].dir, m.role[f].at, pages);
    }
  }

  lemma DropDirInv(m: Mem, d: nat, pages: set<nat>)
    requires Inv(m, pages) && d in m.dirs && forall v: nat :: v < USERPAGES ==> At(m, d, v) == Absent
    ensures Inv(DropDir(m, d), pages) && NothingOf(DropDir(m, d), d) && OnlyDir(m, DropDir(m, d), d)
  {
    hide At, Shape, Tabled, Framed;
    DropDirShape(m, d, pages);
    DropDirFramed(m, d, pages);
  }

  /** Two states that agree outside d, and have nothing of d, agree altogether. */
  lemma NothingLeft(m: Mem, r: Mem, d: nat, pages: set<nat>)
    requires Inv(m, pages) && Inv(r, pages) && OnlyDir(m, r, d) && NothingOf(m, d) && NothingOf(r, d)
    requires forall p :: Has(m, p, Loose) <==> Has(r, p, Loose)
    ensures r.role == m.role && r.dirs == m.dirs && r.tables == m.tables && r.frames == m.frames
  {
    hide Shape, Tabled, Framed;
    forall p | p in pages
      ensures p in m.role && p in r.role && r.role[p] == m.role[p]
    {
      assert Foreign(m, p, d) || m.role[p] == Free || Has(m, p, Loose);
      assert Foreign(r, p, d) || r.role[p] == Free || Has(r, p, Loose);
      if Foreign(m, p, d) || Foreign(r, p, d) {
        assert Kept(m, r, p);
      }
    }
    assert r.role == m.role;
    assert forall p :: p in m.dirs || p in m.tables || p in m.frames ==> Foreign(m, p, d) && Kept(m, r, p);
    assert r.dirs == m.dirs;
    assert r.tables == m.tables;
    assert r.frames == m.frames;
  }

  /** Which pages are frames follows from the mappings. */
  lemma FramesByView(m: Mem, r: Mem, d: nat, pages: set<nat>)
    requires Inv(m, pages) && Inv(r, pages) && OnlyDir(m, r, d) && d in m.dirs && d in r.dirs
    requires forall w: nat :: w < ALLPAGES ==> At(r, d, w) == At(m, d, w)
    ensures r.frames.Keys == m.frames.Keys
  {
    forall f
      ensures f in m.frames <==> f in r.frames
    {
      FrameByView(m, r, d, f, pages);
      OnlyDirSym(m, r, d);
      FrameByView(r, m, d, f, pages);
    }
  }

  lemma OnlyDirSym(m: Mem, r: Mem, d: nat)
    requires OnlyDir(m, r, d) && forall p :: p in m.dirs || p in m.tables || p in m.frames ==> p in m.role
    requires forall p :: p in r.dirs || p in r.tables || p in r.frames ==> p in r.role
    ensures forall p :: Foreign(r, p, d) ==> Foreign(m, p, d) && m.role[p] == r.role[p]
  {
    forall p | Foreign(r, p, d)
      ensures Foreign(m, p, d) && m.role[p] == r.role[p]
    {
      assert Kept(m, r, p);
    }
  }

  lemma FrameByView(m: Mem, r: Mem, d: nat, f: nat, pages: set<nat>)
    requires Inv(m, pages) && Inv(r, pages) && d in m.dirs && d in r.dirs
    requires forall p :: Foreign(m, p, d) ==> p in r.role && r.role[p] == m.role[p]
    requires forall w: nat :: w < ALLPAGES ==> At(r, d, w) == At(m, d, w)
    ensures f in m.frames ==> f in r.frames
  {
    hide At, Shape, Tabled;
    if f in m.frames {
      if m.role[f].dir != d {
        assert Foreign(m, f, d);
      } else {
        assert Page(r, d, m.role[f].at);
      }
    }
  }
}
