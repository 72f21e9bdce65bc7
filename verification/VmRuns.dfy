/**
Any number of address spaces over one page allocator: processes are set up, grow and shrink by sbrk, fork,
write and read their pages, and go.  The reference gives every process pages of its own.  Over every run a
process reads what it last wrote, whatever the others did, and no page is lost.
*/
module VmRuns {
  import opened Prelude
  import opened Blocks
  import opened Paging
  import opened Vm

  /** What struct proc keeps of an address space. */
  datatype Proc = Proc(pgdir: nat, sz: nat)

  /** An address space as its process sees it: zeroed or written pages up to the size, rounded up. */
  datatype Space = Space(size: nat, pages: seq<seq<byte>>)

  datatype Op =
    | Create(id: nat)                                     // setupkvm
    | Sbrk(id: nat, n: int)                               // growproc: allocuvm or deallocuvm
    | Fork(id: nat, child: nat)                           // copyuvm
    | Exit(id: nat)                                       // freevm
    | Store(id: nat, v: nat, off: nat, bytes: seq<byte>)
    | Load(id: nat, v: nat)

  datatype Answer = Failed | Given | Contents(bytes: seq<byte>) | Silent | Skipped

  /** growproc takes the size 0 that deallocuvm returns for a failure, when the pages have gone. */
  predicate ToNothing(size: nat, n: int) {
    size > 0 && size + n == 0
  }

  /** A process names what it has, and does not shrink to nothing. */
  predicate Allowed(c: map<nat, Space>, op: Op) {
    match op
    case Create(id) => id !in c
    case Sbrk(id, n) => id in c && -0x8000_0000 <= n < 0x8000_0000 && !ToNothing(c[id].size, n)
    case Fork(id, child) => id in c && child !in c
    case Exit(id) => id in c
    case Store(id, v, off, bytes) => id in c && v < |c[id].pages| && off + |bytes| <= |c[id].pages[v]|
    case Load(id, v) => id in c && v < |c[id].pages|
  }

  function Grown(sp: Space, n: nat): (r: Space) {
    var more := PageUp(sp.size + n) - |sp.pages|;
    Space(sp.size + n, if more <= 0 then sp.pages else sp.pages + seq(more, _ => ZeroPage()))
  }

  function Shrunk(sp: Space, n: nat): (r: Space) {
    if n > sp.size then sp
    else Space(sp.size - n, sp.pages[..Min(PageUp(sp.size - n), |sp.pages|)])
  }

  function Patched(page: seq<byte>, off: nat, bytes: seq<byte>): (r: seq<byte>)
    requires off + |bytes| <= |page|
    ensures |r| == |page|
  {
    page[..off] + bytes + page[off + |bytes|..]
  }

  /** `granted` tells whether there were pages for the call. */
  function Next(c: map<nat, Space>, op: Op, granted: bool): (r: map<nat, Space>)
    requires Allowed(c, op)
  {
    if !granted then c else
    match op
    case Create(id) => c[id := Space(0, [])]
    case Sbrk(id, n) => c[id := if n >= 0 then Grown(c[id], n) else Shrunk(c[id], -n)]
    case Fork(id, child) => c[child := c[id]]
    case Exit(id) => c - {id}
    case Store(id, v, off, bytes) =>
      c[id := Space(c[id].size, c[id].pages[v := Patched(c[id].pages[v], off, bytes)])]
    case Load(_, _) => c
  }

  /** sbrk that takes away also fails when there is nothing to take. */
  function Reply(c: map<nat, Space>, op: Op, granted: bool): (r: Answer) {
    if !Allowed(c, op) then Skipped else if !granted then Failed else
    match op
    case Sbrk(id, n) => if n < 0 && c[id].size == 0 then Failed else Given
    case Store(_, _, _, _) => Silent
    case Exit(_) => Silent
    case Load(id, v) => Contents(c[id].pages[v])
    case _ => Given
  }

  function Exec(ops: seq<Op>, granted: seq<bool>): (c: map<nat, Space>)
    requires |granted| == |ops|
  {
    if ops == [] then map[] else
    var c := Exec(ops[..|ops| - 1], granted[..|ops| - 1]);
    if Allowed(c, ops[|ops| - 1]) then Next(c, ops[|ops| - 1], granted[|ops| - 1]) else c
  }

  function Answers(ops: seq<Op>, granted: seq<bool>): (r: seq<Answer>)
    requires |granted| == |ops|
    ensures |r| == |ops|
  {
    if ops == [] then [] else
    Answers(ops[..|ops| - 1], granted[..|ops| - 1])
    + [Reply(Exec(ops[..|ops| - 1], granted[..|ops| - 1]), ops[|ops| - 1], granted[|ops| - 1])]
  }

  /* ---- the page tables behind it ---- */

  /** Page v of d is mapped for the user and holds these bytes. */
  ghost predicate PageHolds(m: Mem, d: nat, v: nat, bytes: seq<byte>)
    requires Shape(m)
  {
    Page(m, d, v) && At(m, d, v).Present? && At(m, d, v).page in m.frames && m.frames[At(m, d, v).page] == bytes
  }

  ghost predicate Holds(m: Mem, d: nat, sp: Space) {
    && Exact(m, d, sp.size) && sp.size <= KERNBASE && |sp.pages| == PageUp(sp.size)
    && forall v: nat :: v < |sp.pages| ==> PageHolds(m, d, v, sp.pages[v])
  }

  /** Every directory is the one of one process. */
  ghost predicate Named(m: Mem, procs: map<nat, Proc>) {
    && (forall id, jd :: id in procs && jd in procs && procs[id].pgdir == procs[jd].pgdir ==> id == jd)
    && (forall d :: d in m.dirs ==> HasName(procs, d))
  }

  ghost predicate HasName(procs: map<nat, Proc>, d: nat) {
    exists id :: id in procs && procs[id].pgdir == d
  }

  ghost predicate HeldBy(m: Mem, p: Proc, sp: Space) {
    p.sz == sp.size && Holds(m, p.pgdir, sp)
  }

  ghost predicate Agrees(m: Mem, procs: map<nat, Proc>, c: map<nat, Space>) {
    && procs.Keys == c.Keys && Named(m, procs)
    && forall id :: id in c ==> HeldBy(m, procs[id], c[id])
  }

  lemma HoldsDir(m: Mem, d: nat, sp: Space)
    requires Holds(m, d, sp)
    ensures Shape(m) && d in m.dirs && Exact(m, d, sp.size) && sp.size <= KERNBASE && |sp.pages| == PageUp(sp.size)
    ensures |sp.pages| <= USERPAGES
  {
    PagesBound(sp.size);
  }

  lemma AgreesAt(m: Mem, procs: map<nat, Proc>, c: map<nat, Space>, id: nat)
    requires Agrees(m, procs, c) && id in c
    ensures id in procs && procs[id].sz == c[id].size && Holds(m, procs[id].pgdir, c[id])
  {
  }

  /** What happens to one address space does not reach the others. */
  lemma OtherSpace(m: Mem, r: Mem, d: nat, e: nat, sp: Space, pages: set<nat>)
    requires Inv(m, pages) && Inv(r, pages) && OnlyDir(m, r, d) && e != d && Holds(m, e, sp)
    ensures Holds(r, e, sp)
  {
    hide Inv, OnlyDir, At;
    HoldsDir(m, e, sp);
    ShapeOf(m, pages);
    ShapeOf(r, pages);
    forall v: nat | v < USERPAGES
      ensures Page(r, e, v) && At(r, e, v) == At(m, e, v)
    {
      OnlyDirView(m, r, d, e, v, pages);
    }
    assert Page(r, e, 0);
    forall v: nat | v < |sp.pages|
      ensures PageHolds(r, e, v, sp.pages[v])
    {
      assert PageHolds(m, e, v, sp.pages[v]);
      FrameStays(m, r, e, d, v, pages);
    }
  }

  lemma ShapeOf(m: Mem, pages: set<nat>)
    requires Inv(m, pages)
    ensures Shape(m)
  {
  }

  lemma FrameStays(m: Mem, r: Mem, e: nat, d: nat, v: nat, pages: set<nat>)
    requires Inv(m, pages) && OnlyDir(m, r, d) && e != d && Page(m, e, v) && v < USERPAGES && At(m, e, v).Present?
    ensures At(m, e, v).page in m.frames && At(m, e, v).page in r.frames
    ensures r.frames[At(m, e, v).page] == m.frames[At(m, e, v).page]
  {
    hide Tabled, At;
    ForeignFrame(m, r, e, d, v, pages);
  }

  /** The same directories as before, but for d. */
  lemma SameDirs(m: Mem, r: Mem, d: nat, e: nat, pages: set<nat>)
    requires Inv(m, pages) && Inv(r, pages) && OnlyDir(m, r, d) && e in r.dirs && e != d
    ensures e in m.dirs
  {
    hide Shape, Tabled, Framed;
    assert Foreign(r, e, d);
    assert Kept(m, r, e);
  }

  /** A step on the address space of one process, which may be new, gives that process its new pages. */
  lemma StepOn(m: Mem, r: Mem, procs: map<nat, Proc>, c: map<nat, Space>, id: nat, p: Proc, sp: Space, pages: set<nat>)
    requires Inv(m, pages) && Inv(r, pages) && Agrees(m, procs, c) && OnlyDir(m, r, p.pgdir)
    requires if id in c then procs[id].pgdir == p.pgdir else p.pgdir !in m.dirs
    requires HeldBy(r, p, sp)
    ensures Agrees(r, procs[id := p], c[id := sp])
  {
    hide Inv, OnlyDir, Holds;
    forall jd | jd in c && jd != id
      ensures HeldBy(r, procs[jd], c[jd]) && procs[jd].pgdir != p.pgdir
    {
      AgreesAt(m, procs, c, jd);
      HoldsDir(m, procs[jd].pgdir, c[jd]);
      OtherSpace(m, r, p.pgdir, procs[jd].pgdir, c[jd], pages);
    }
    forall d | d in r.dirs
      ensures HasName(procs[id := p], d)
    {
      if d == p.pgdir {
        assert procs[id := p][id].pgdir == d;
      } else {
        SameDirs(m, r, p.pgdir, d, pages);
        assert HasName(procs, d);
        var jd :| jd in procs && procs[jd].pgdir == d;
        assert procs[id := p][jd].pgdir == d;
      }
    }
  }

  /** The address space of a process is gone. */
  lemma StepOff(m: Mem, r: Mem, procs: map<nat, Proc>, c: map<nat, Space>, id: nat, pages: set<nat>)
    requires Inv(m, pages) && Inv(r, pages) && Agrees(m, procs, c) && id in c && OnlyDir(m, r, procs[id].pgdir)
    requires procs[id].pgdir !in r.dirs
    ensures Agrees(r, procs - {id}, c - {id})
  {
    hide Inv, OnlyDir, Holds;
    var gone := procs[id].pgdir;
    forall jd | jd in c && jd != id
      ensures HeldBy(r, procs[jd], c[jd])
    {
      AgreesAt(m, procs, c, jd);
      OtherSpace(m, r, gone, procs[jd].pgdir, c[jd], pages);
    }
    forall d | d in r.dirs
      ensures HasName(procs - {id}, d)
    {
      SameDirs(m, r, gone, d, pages);
      assert HasName(procs, d);
      var jd :| jd in procs && procs[jd].pgdir == d;
      assert (procs - {id})[jd].pgdir == d;
    }
  }

  /** A call that was refused has put everything back. */
  lemma StepBack(m: Mem, r: Mem, procs: map<nat, Proc>, c: map<nat, Space>)
    requires Agrees(m, procs, c) && Restored(m, r)
    ensures Agrees(r, procs, c)
  {
    hide Holds;
    forall id | id in c
      ensures HeldBy(r, procs[id], c[id])
    {
      AgreesAt(m, procs, c, id);
      HoldsBack(m, r, procs[id].pgdir, c[id]);
    }
  }

  lemma HoldsBack(m: Mem, r: Mem, d: nat, sp: Space)
    requires Holds(m, d, sp) && Restored(m, r)
    ensures Holds(r, d, sp)
  {
    SameAt(m, r);
    forall v: nat | v < |sp.pages|
      ensures PageHolds(r, d, v, sp.pages[v])
    {
      assert PageHolds(m, d, v, sp.pages[v]);
    }
  }

  lemma SameAt(m: Mem, r: Mem)
    requires Shape(m) && r.dirs == m.dirs && r.tables == m.tables
    ensures Shape(r) && forall d: nat, v: nat :: Page(m, d, v) ==> At(r, d, v) == At(m, d, v)
  {
    assert forall d: nat, i: nat :: Entry(r, d, i) <==> Entry(m, d, i);
  }

  /* ---- the address space that a call works on ---- */

  lemma GrownHolds(m: Mem, r: Mem, d: nat, sp: Space, n: nat)
    requires Holds(m, d, sp) && sp.size + n < KERNBASE && Exact(r, d, sp.size + n)
    requires Filled(m, r, d, PageUp(sp.size), PageUp(sp.size + n)) && DataKept(m, r)
    ensures Holds(r, d, Grown(sp, n))
  {
    hide At, Shape;
    var t := Grown(sp, n);
    HoldsDir(m, d, sp);
    PageUpMonotone(sp.size, sp.size + n);
    PagesBound(sp.size + n);
    forall v: nat | v < |t.pages|
      ensures PageHolds(r, d, v, t.pages[v])
    {
      if v < |sp.pages| {
        assert PageHolds(m, d, v, sp.pages[v]);
      } else {
        assert NewPage(r, At(r, d, v));
      }
    }
  }

  lemma UnmovedHolds(m: Mem, r: Mem, d: nat, sp: Space)
    requires Holds(m, d, sp) && Unmoved(m, r, d) && r.frames == m.frames
    ensures Holds(r, d, sp)
  {
    hide At, Shape;
    HoldsDir(m, d, sp);
    forall v: nat | v < |sp.pages|
      ensures PageHolds(r, d, v, sp.pages[v])
    {
      assert PageHolds(m, d, v, sp.pages[v]);
    }
  }

  lemma ShrunkHolds(m: Mem, r: Mem, d: nat, sp: Space, size: nat, pages: set<nat>)
    requires Holds(m, d, sp) && size <= sp.size && Exact(r, d, size) && Inv(r, pages)
    requires Cleared(m, r, d, PageUp(size), PageUp(sp.size)) && DataKept(r, m)
    ensures PageUp(size) <= |sp.pages| && Holds(r, d, Space(size, sp.pages[..PageUp(size)]))
  {
    hide At, Shape, Inv;
    HoldsDir(m, d, sp);
    PageUpMonotone(size, sp.size);
    forall v: nat | v < PageUp(size)
      ensures PageHolds(r, d, v, sp.pages[v])
    {
      assert PageHolds(m, d, v, sp.pages[v]);
      MappedIsFrame(r, d, v, pages);
    }
  }

  lemma MappedIsFrame(m: Mem, d: nat, v: nat, pages: set<nat>)
    requires Inv(m, pages) && Page(m, d, v) && v < USERPAGES && At(m, d, v).Present?
    ensures At(m, d, v).page in m.frames && Has(m, At(m, d, v).page, Frame(d, v))
  {
    hide Tabled, At;
  }

  lemma CopiedHolds(m: Mem, r: Mem, d: nat, e: nat, sp: Space, data: nat)
    requires Holds(m, d, sp) && Copied(m, r, d, e, PageUp(sp.size), data) && Exact(r, e, sp.size)
    ensures Holds(r, e, sp)
  {
    hide At, Shape;
    HoldsDir(m, d, sp);
    forall v: nat | v < |sp.pages|
      ensures PageHolds(r, e, v, sp.pages[v])
    {
      assert PageHolds(m, d, v, sp.pages[v]);
    }
  }

  /** One frame has new contents. */
  ghost function Rewrite(m: Mem, f: nat, bytes: seq<byte>): (r: Mem) {
    m.(frames := m.frames[f := bytes])
  }

  lemma RewriteInv(m: Mem, d: nat, v: nat, bytes: seq<byte>, pages: set<nat>)
    requires Inv(m, pages) && Page(m, d, v) && v < USERPAGES && At(m, d, v).Present?
    ensures var r := Rewrite(m, At(m, d, v).page, bytes); Inv(r, pages) && OnlyDir(m, r, d) && Unmoved(m, r, d)
  {
    hide At, Tabled, Framed, Roles, OnlyDir;
    MappedIsFrame(m, d, v, pages);
    var f := At(m, d, v).page;
    SameAt(m, Rewrite(m, f, bytes));
    RewriteKeeps(m, f, bytes, pages);
    RewriteOnly(m, f, bytes, d, v);
  }

  lemma RewriteKeeps(m: Mem, f: nat, bytes: seq<byte>, pages: set<nat>)
    requires Inv(m, pages) && f in m.frames && Shape(Rewrite(m, f, bytes))
    requires forall d: nat, v: nat :: Page(m, d, v) ==> At(Rewrite(m, f, bytes), d, v) == At(m, d, v)
    ensures Inv(Rewrite(m, f, bytes), pages)
  {
    hide At, Shape;
    var r := Rewrite(m, f, bytes);
    assert forall e: nat, i: nat :: Entry(r, e, i) <==> Entry(m, e, i);
    assert forall e: nat, w: nat :: Page(r, e, w) <==> Page(m, e, w);
  }

  lemma RewriteOnly(m: Mem, f: nat, bytes: seq<byte>, d: nat, v: nat)
    requires Has(m, f, Frame(d, v))
    ensures OnlyDir(m, Rewrite(m, f, bytes), d)
  {
  }

  /** Two pages of one process are two frames. */
  lemma WrittenHolds(m: Mem, d: nat, sp: Space, v: nat, bytes: seq<byte>, pages: set<nat>)
    requires Inv(m, pages) && Holds(m, d, sp) && v < |sp.pages| && Page(m, d, v) && At(m, d, v).Present?
    requires v < USERPAGES && Unmoved(m, Rewrite(m, At(m, d, v).page, bytes), d)
    ensures Holds(Rewrite(m, At(m, d, v).page, bytes), d, Space(sp.size, sp.pages[v := bytes]))
  {
    hide At, Shape, Inv;
    HoldsDir(m, d, sp);
    var r, t := Rewrite(m, At(m, d, v).page, bytes), sp.pages[v := bytes];
    forall w: nat | w < |t|
      ensures PageHolds(r, d, w, t[w])
    {
      assert PageHolds(m, d, w, sp.pages[w]);
      MappedIsFrame(m, d, v, pages);
      MappedIsFrame(m, d, w, pages);
    }
  }

  /** The hardware's walk: the frame behind page v. */
  method Lookup(vm: Vm, d: nat, v: nat) returns (f: nat)
    requires vm.Ok() && Page(vm.M(), d, v) && At(vm.M(), d, v).Present?
    ensures f == At(vm.M(), d, v).page
  {
    hide Tabled, Framed, Roles;
    var t := vm.WalkOnly(d, v);
    EntryOf(vm.M(), d, v);
    f := vm.tables[t][v % NPDENTRIES].page;
  }

  lemma EntryOf(m: Mem, d: nat, v: nat)
    requires Shape(m) && Page(m, d, v) && At(m, d, v).Present? && Entry(m, d, v / NPDENTRIES)
    ensures var t := m.dirs[d][v / NPDENTRIES];
            t in m.tables && v % NPDENTRIES < |m.tables[t]| && m.tables[t][v % NPDENTRIES] == At(m, d, v)
  {
  }

  lemma UnmovedExact(m: Mem, r: Mem, d: nat, sz: nat)
    requires Exact(m, d, sz) && Unmoved(m, r, d)
    ensures Exact(r, d, sz)
  {
    hide At, Shape;
  }

  lemma ClearedLess(m: Mem, r: Mem, d: nat, a: nat, b: nat)
    requires Cleared(m, r, d, a, b) && b <= a
    ensures Cleared(m, r, d, b, b)
  {
    hide At, Shape;
  }

  /** The first page is there, or it is not. */
  lemma ExactNothing(m: Mem, d: nat, sz: nat)
    requires Exact(m, d, 0)
    ensures Exact(m, d, sz) <==> sz == 0
  {
    hide Shape, At;
    assert At(m, d, 0).Present? <==> 0 * PGSIZE < 0;
  }

  /**
  growproc: the size follows the pages, unless the process shrinks to nothing.  Then deallocuvm returns 0,
  which growproc takes for a failure: the pages have gone and the size has not changed.
  */
  method Growproc(vm: Vm, p: Proc, n: int) returns (ok: bool, q: Proc)
    requires vm.Ok() && Exact(vm.M(), p.pgdir, p.sz) && p.sz <= KERNBASE && -0x8000_0000 <= n < 0x8000_0000
    modifies vm`free, vm`dirs, vm`tables, vm`frames, vm`role
    ensures vm.Ok() && OnlyDir(old(vm.M()), vm.M(), p.pgdir) && LooseSet(vm.M()) == LooseSet(old(vm.M()))
    ensures q.pgdir == p.pgdir && q.sz <= KERNBASE
    ensures Exact(vm.M(), q.pgdir, q.sz) <==> !ToNothing(p.sz, n)
    ensures ToNothing(p.sz, n) ==> !ok && q == p && Exact(vm.M(), p.pgdir, 0)
    ensures n > 0 ==>
              (ok <==> p.sz + n < KERNBASE
                       && |old(vm.free)| >= GrowCost(old(vm.M()), p.pgdir, PageUp(p.sz), PageUp(p.sz + n)))
    ensures n > 0 && ok ==>
              && q.sz == p.sz + n && Filled(old(vm.M()), vm.M(), p.pgdir, PageUp(p.sz), PageUp(q.sz))
              && DataKept(old(vm.M()), vm.M())
    ensures n > 0 && !ok ==> q == p && Unmoved(old(vm.M()), vm.M(), p.pgdir) && vm.frames == old(vm.frames)
    ensures n <= 0 && !ToNothing(p.sz, n) ==>
              && (ok <==> n == 0 || p.sz > 0) && q.sz == (if p.sz + n < 0 then p.sz else p.sz + n)
              && Cleared(old(vm.M()), vm.M(), p.pgdir, PageUp(q.sz), PageUp(p.sz)) && DataKept(vm.M(), old(vm.M()))
  {
    hide Inv, OnlyDir, Exact, Cleared, Filled, Unmoved, LooseSet, GrowCost;
    ghost var m := vm.M();
    ExactShape(m, p.pgdir, p.sz);
    if n > 0 {
      var r := vm.Allocuvm(p.pgdir, p.sz, (p.sz + n) % 0x1_0000_0000);
      if r.Refused? {
        UnmovedExact(m, vm.M(), p.pgdir, p.sz);
      }
      return r.Done?, if r.Done? then Proc(p.pgdir, r.value) else p;
    } else if n < 0 {
      var r := vm.Deallocuvm(p.pgdir, p.sz, (p.sz + n) % 0x1_0000_0000);
      if p.sz + n < 0 {
        PageUpMonotone(p.sz, (p.sz + n) % 0x1_0000_0000);
        ClearedLess(m, vm.M(), p.pgdir, PageUp((p.sz + n) % 0x1_0000_0000), PageUp(p.sz));
      }
      if r == 0 {
        ExactNothing(vm.M(), p.pgdir, p.sz);
        return false, p;
      }
      return true, Proc(p.pgdir, r);
    }
    ClearedNone(m, p.pgdir, PageUp(p.sz), PageUp(p.sz));
    OnlyDirRefl(m, p.pgdir);
    return true, p;
  }

  /** sbrk of one page and back: the process keeps its size and has no page. */
  method BackToNothing(vm: Vm, data: nat) returns (ok: bool, p: Proc)
    requires vm.Ok() && InKernel(data) && |vm.free| >= KERNELCOST + 2
    modifies vm`free, vm`dirs, vm`tables, vm`frames, vm`role
    ensures vm.Ok() && !ok && p.sz == PGSIZE && Exact(vm.M(), p.pgdir, 0) && !Exact(vm.M(), p.pgdir, p.sz)
  {
    hide Inv, OnlyDir, Exact, LooseSet, KernelPart, Filled, Cleared, Unmoved, Restored, GrowCost, Gaps;
    var r := vm.Setupkvm(data);
    OnePage(vm.M(), r.value);
    ok, p := Growproc(vm, Proc(r.value, 0), PGSIZE);
    ok, p := Growproc(vm, p, -PGSIZE);
  }

  lemma OnePage(m: Mem, d: nat)
    requires Exact(m, d, 0)
    ensures d in m.dirs && GrowCost(m, d, PageUp(0), PageUp(PGSIZE)) <= 2
  {
    OneTable(0);
    OneMissing(m, d, 0);
  }

  /* ---- one operation ---- */

  /** There are pages for the call. */
  ghost predicate Fits(m: Mem, procs: map<nat, Proc>, op: Op) {
    match op
    case Create(_) => |m.free| >= KERNELCOST
    case Sbrk(id, n) =>
      && id in procs && procs[id].pgdir in m.dirs
      && (n > 0 ==>
            && procs[id].sz + n < KERNBASE
            && |m.free| >= GrowCost(m, procs[id].pgdir, PageUp(procs[id].sz), PageUp(procs[id].sz + n)))
    case Fork(id, _) => id in procs && |m.free| >= CopyCost(PageUp(procs[id].sz))
    case _ => true
  }

  predicate InKernel(data: nat) {
    KERNLINK < data * PGSIZE < KERNBASE + PHYSTOP
  }

  /** One operation; `data` is the first page of the kernel's data. */
  method Do(vm: Vm, procs: map<nat, Proc>, op: Op, ghost c: map<nat, Space>, data: nat)
    returns (granted: bool, answer: Answer, procs': map<nat, Proc>)
    requires vm.Ok() && Agrees(vm.M(), procs, c) && Allowed(c, op) && InKernel(data)
    modifies vm`free, vm`dirs, vm`tables, vm`frames, vm`role
    ensures vm.Ok() && LooseSet(vm.M()) == LooseSet(old(vm.M()))
    ensures Agrees(vm.M(), procs', Next(c, op, granted)) && answer == Reply(c, op, granted)
    ensures granted <==> Fits(old(vm.M()), procs, op)
  {
    hide Inv, Agrees, OnlyDir, LooseSet, Exact, Copied, Restored, Holds, GrowCost, CopyCost, NothingOf, KernelPart,
         Gaps, PageUp, Grown, Shrunk, Patched;
    match op
    case Create(id) => granted, answer, procs' := DoCreate(vm, procs, id, c, data);
    case Sbrk(id, n) => granted, answer, procs' := DoSbrk(vm, procs, id, n, c);
    case Fork(id, child) =>
      AgreesAt(vm.M(), procs, c, id);
      granted, answer, procs' := DoFork(vm, procs, id, child, c, data);
    case Exit(id) =>
      ghost var m := vm.M();
      AgreesAt(m, procs, c, id);
      HoldsDir(m, procs[id].pgdir, c[id]);
      vm.Freevm(procs[id].pgdir);
      NoneOf(vm.M(), procs[id].pgdir);
      StepOff(m, vm.M(), procs, c, id, vm.pages);
      return true, Silent, procs - {id};
    case Store(id, v, off, bytes) =>
      DoStore(vm, procs, id, v, off, bytes, c);
      return true, Silent, procs;
    case Load(id, v) =>
      AgreesAt(vm.M(), procs, c, id);
      var page := ReadPage(vm, procs[id].pgdir, v, c[id]);
      return true, Contents(page), procs;
  }

  lemma NoneOf(m: Mem, d: nat)
    requires NothingOf(m, d)
    ensures d !in m.dirs
  {
  }

  method DoCreate(vm: Vm, procs: map<nat, Proc>, id: nat, ghost c: map<nat, Space>, data: nat)
    returns (granted: bool, answer: Answer, procs': map<nat, Proc>)
    requires vm.Ok() && Agrees(vm.M(), procs, c) && id !in c && InKernel(data)
    modifies vm`free, vm`dirs, vm`tables, vm`frames, vm`role
    ensures vm.Ok() && LooseSet(vm.M()) == LooseSet(old(vm.M())) && (granted <==> |old(vm.free)| >= KERNELCOST)
    ensures Agrees(vm.M(), procs', if granted then c[id := Space(0, [])] else c)
    ensures answer == if granted then Given else Failed
  {
    hide Inv, Agrees, OnlyDir, LooseSet, Exact, Restored, KernelPart, Gaps, Shape;
    ghost var m := vm.M();
    var r := vm.Setupkvm(data);
    if r.Refused? {
      StepBack(m, vm.M(), procs, c);
      return false, Failed, procs;
    }
    ExactShape(vm.M(), r.value, 0);
    StepOn(m, vm.M(), procs, c, id, Proc(r.value, 0), Space(0, []), vm.pages);
    return true, Given, procs[id := Proc(r.value, 0)];
  }

  method DoFork(vm: Vm, procs: map<nat, Proc>, id: nat, child: nat, ghost c: map<nat, Space>, data: nat)
    returns (granted: bool, answer: Answer, procs': map<nat, Proc>)
    requires vm.Ok() && Agrees(vm.M(), procs, c) && id in c && child !in c && InKernel(data) && id in procs
    modifies vm`free, vm`dirs, vm`tables, vm`frames, vm`role
    ensures vm.Ok() && LooseSet(vm.M()) == LooseSet(old(vm.M()))
    ensures granted <==> |old(vm.free)| >= CopyCost(PageUp(procs[id].sz))
    ensures Agrees(vm.M(), procs', if granted then c[child := c[id]] else c)
    ensures answer == if granted then Given else Failed
  {
    hide Inv, Agrees, OnlyDir, LooseSet, Exact, Restored, Copied, Holds, PageUp, CopyCost;
    ghost var m := vm.M();
    var p := procs[id];
    AgreesAt(m, procs, c, id);
    HoldsDir(m, p.pgdir, c[id]);
    var r := vm.Copyuvm(p.pgdir, p.sz, data);
    if r.Refused? {
      StepBack(m, vm.M(), procs, c);
      return false, Failed, procs;
    }
    CopiedHolds(m, vm.M(), p.pgdir, r.value, c[id], data);
    StepOn(m, vm.M(), procs, c, child, Proc(r.value, p.sz), c[id], vm.pages);
    return true, Given, procs[child := Proc(r.value, p.sz)];
  }

  method DoSbrk(vm: Vm, procs: map<nat, Proc>, id: nat, n: int, ghost c: map<nat, Space>)
    returns (granted: bool, answer: Answer, procs': map<nat, Proc>)
    requires vm.Ok() && Agrees(vm.M(), procs, c) && Allowed(c, Sbrk(id, n))
    modifies vm`free, vm`dirs, vm`tables, vm`frames, vm`role
    ensures vm.Ok() && LooseSet(vm.M()) == LooseSet(old(vm.M()))
    ensures granted <==> Fits(old(vm.M()), procs, Sbrk(id, n))
    ensures Agrees(vm.M(), procs', Next(c, Sbrk(id, n), granted)) && answer == Reply(c, Sbrk(id, n), granted)
  {
    hide Inv, Agrees, OnlyDir, LooseSet, Exact, Holds, PageUp, GrowCost, Filled, Cleared, Unmoved, DataKept, Grown,
         Shrunk;
    ghost var m := vm.M();
    AgreesAt(m, procs, c, id);
    var p := procs[id];
    HoldsDir(m, p.pgdir, c[id]);
    var ok, q := Growproc(vm, p, n);
    granted := ok || n <= 0;
    ghost var sp := if !granted then c[id] else if n >= 0 then Grown(c[id], n) else Shrunk(c[id], -n);
    SbrkHolds(m, vm.M(), p, q, n, ok, c[id], vm.pages);
    StepOn(m, vm.M(), procs, c, id, q, sp, vm.pages);
    assert !granted ==> c[id := sp] == c;
    return granted, if ok then Given else Failed, procs[id := q];
  }

  lemma SbrkHolds(m: Mem, r: Mem, p: Proc, q: Proc, n: int, ok: bool, sp: Space, pages: set<nat>)
    requires Holds(m, p.pgdir, sp) && p.sz == sp.size && q.pgdir == p.pgdir && Inv(r, pages)
    requires Exact(r, q.pgdir, q.sz) && !ToNothing(p.sz, n)
    requires n > 0 && ok ==>
               && q.sz == p.sz + n < KERNBASE && Filled(m, r, p.pgdir, PageUp(p.sz), PageUp(q.sz)) && DataKept(m, r)
    requires n > 0 && !ok ==> q == p && Unmoved(m, r, p.pgdir) && r.frames == m.frames
    requires n <= 0 ==>
               && q.sz == (if p.sz + n < 0 then p.sz else p.sz + n)
               && Cleared(m, r, p.pgdir, PageUp(q.sz), PageUp(p.sz)) && DataKept(r, m)
    ensures HeldBy(r, q, if n > 0 && !ok then sp else if n >= 0 then Grown(sp, n) else Shrunk(sp, -n))
  {
    hide Inv, Exact, Holds, Filled, Cleared, Unmoved, DataKept, PageUp;
    var d := p.pgdir;
    HoldsDir(m, d, sp);
    if n > 0 && ok {
      GrownHolds(m, r, d, sp, n);
    } else if n > 0 {
      UnmovedHolds(m, r, d, sp);
    } else {
      ShrunkHolds(m, r, d, sp, q.sz, pages);
      assert sp.pages[..|sp.pages|] == sp.pages;
    }
  }

  method DoStore(vm: Vm, procs: map<nat, Proc>, id: nat, v: nat, off: nat, bytes: seq<byte>, ghost c: map<nat, Space>)
    requires vm.Ok() && Agrees(vm.M(), procs, c) && Allowed(c, Store(id, v, off, bytes))
    modifies vm`frames
    ensures vm.Ok() && LooseSet(vm.M()) == LooseSet(old(vm.M()))
    ensures Agrees(vm.M(), procs, Next(c, Store(id, v, off, bytes), true))
  {
    hide Inv, Agrees, OnlyDir, LooseSet, Exact, Holds, PageUp, Unmoved, Patched, At;
    ghost var m := vm.M();
    AgreesAt(m, procs, c, id);
    var d := procs[id].pgdir;
    HoldsDir(m, d, c[id]);
    HoldsPage(m, d, c[id], v);
    var f := Lookup(vm, d, v);
    var page := Patched(vm.frames[f], off, bytes);
    vm.frames := vm.frames[f := page];
    RewriteInv(m, d, v, page, vm.pages);
    WrittenHolds(m, d, c[id], v, page, vm.pages);
    StepOn(m, vm.M(), procs, c, id, procs[id], Space(c[id].size, c[id].pages[v := page]), vm.pages);
    assert procs[id := procs[id]] == procs;
    SameLoose(m, vm.M());
  }

  lemma SameLoose(m: Mem, r: Mem)
    requires r.role == m.role
    ensures LooseSet(r) == LooseSet(m)
  {
  }

  lemma HoldsPage(m: Mem, d: nat, sp: Space, v: nat)
    requires Holds(m, d, sp) && v < |sp.pages|
    ensures Shape(m) && PageHolds(m, d, v, sp.pages[v])
  {
    hide Shape, At;
  }

  method ReadPage(vm: Vm, d: nat, v: nat, ghost sp: Space) returns (page: seq<byte>)
    requires vm.Ok() && Holds(vm.M(), d, sp) && v < |sp.pages|
    ensures page == sp.pages[v]
  {
    hide Inv, Holds, At;
    HoldsPage(vm.M(), d, sp, v);
    var f := Lookup(vm, d, v);
    page := vm.frames[f];
  }

  /** A moment of a run: the memory and the processes. */
  datatype Moment = Moment(m: Mem, procs: map<nat, Proc>)

  /** Before operation k all is as in the reference, and the operation gets its pages if they are there. */
  ghost predicate Faithful(h: Moment, ops: seq<Op>, granted: seq<bool>, k: nat, pages: set<nat>, loose: set<nat>)
    requires k < |ops| == |granted|
  {
    && Inv(h.m, pages) && LooseSet(h.m) == loose && Agrees(h.m, h.procs, Exec(ops[..k], granted[..k]))
    && (granted[k] <==> (Allowed(Exec(ops[..k], granted[..k]), ops[k]) ==> Fits(h.m, h.procs, ops[k])))
  }

  /**
  Any sequence of operations, begun without address spaces: every answer is that of the reference, before
  every operation and at the end every process has exactly the pages of the reference, an operation is
  refused exactly when there are too few free pages for it, and the free pages and those of all address
  spaces add up to what was free at first.
  */
  method Run(vm: Vm, ops: seq<Op>, data: nat)
    returns (granted: seq<bool>, answers: seq<Answer>, procs: map<nat, Proc>, ghost moments: seq<Moment>)
    requires vm.Ok() && vm.dirs == map[] && InKernel(data)
    modifies vm`free, vm`dirs, vm`tables, vm`frames, vm`role
    ensures vm.Ok() && LooseSet(vm.M()) == LooseSet(old(vm.M()))
    ensures |granted| == |ops| && answers == Answers(ops, granted)
    ensures Agrees(vm.M(), procs, Exec(ops, granted))
    ensures forall ds :: Lists(ds, vm.dirs.Keys) ==> |vm.free| + Sum(vm.M(), ds) == |old(vm.free)|
    ensures |moments| == |ops|
    ensures forall k :: 0 <= k < |ops| ==> Faithful(moments[k], ops, granted, k, vm.pages, LooseSet(old(vm.M())))
  {
    hide Inv, LooseSet, Reply, Next, Fits, Faithful, Sum, Agrees, Allowed;
    AtFirst(vm.M(), vm.pages);
    granted, answers, procs, moments := [], [], map[], [];
    var c: map<nat, Space> := map[];
    for k := 0 to |ops|
      invariant |granted| == k && vm.Ok() && LooseSet(vm.M()) == LooseSet(old(vm.M()))
      invariant c == Exec(ops[..k], granted) && answers == Answers(ops[..k], granted) && Agrees(vm.M(), procs, c)
      invariant |moments| == k
      invariant forall j :: 0 <= j < k ==>
                  Faithful(moments[j], ops[..k], granted, j, vm.pages, LooseSet(old(vm.M())))
    {
      var g, answer := true, Skipped;
      ghost var before := Moment(vm.M(), procs);
      if Allowed(c, ops[k]) {
        g, answer, procs := Do(vm, procs, ops[k], c, data);
        c := Next(c, ops[k], g);
      } else {
        SkippedReply(c, ops[k]);
      }
      assert ops[..k + 1][..k] == ops[..k] && (granted + [g])[..k] == granted;
      assert ops[..k + 1] == ops[..k] + [ops[k]];
      FaithfulMore(moments, before, ops[..k], ops[k], granted, g, vm.pages, LooseSet(before.m));
      granted, answers, moments := granted + [g], answers + [answer], moments + [before];
    }
    assert ops[..|ops|] == ops;
    forall ds | Lists(ds, vm.dirs.Keys)
      ensures |vm.free| + Sum(vm.M(), ds) == |old(vm.free)|
    {
      Balance(vm.M(), vm.pages, ds);
    }
  }

  lemma AtFirst(m: Mem, pages: set<nat>)
    requires Inv(m, pages) && m.dirs == map[]
    ensures |m.free| + |LooseSet(m)| == |pages| && Agrees(m, map[], map[])
  {
    hide Inv;
    Balance(m, pages, []);
  }

  lemma FaithfulMore(moments: seq<Moment>, h: Moment, ops: seq<Op>, op: Op, granted: seq<bool>, g: bool,
                     pages: set<nat>, loose: set<nat>)
    requires |moments| == |ops| == |granted|
    requires forall j :: 0 <= j < |ops| ==> Faithful(moments[j], ops, granted, j, pages, loose)
    requires Inv(h.m, pages) && LooseSet(h.m) == loose && Agrees(h.m, h.procs, Exec(ops, granted))
    requires g <==> (Allowed(Exec(ops, granted), op) ==> Fits(h.m, h.procs, op))
    ensures forall j :: 0 <= j < |ops| + 1 ==>
              Faithful((moments + [h])[j], ops + [op], granted + [g], j, pages, loose)
  {
    hide Inv, LooseSet, Agrees, Exec, Fits, Allowed;
    forall j | 0 <= j < |ops| + 1
      ensures Faithful((moments + [h])[j], ops + [op], granted + [g], j, pages, loose)
    {
      if j < |ops| {
        assert Faithful(moments[j], ops, granted, j, pages, loose);
        assert (ops + [op])[..j] == ops[..j] && (granted + [g])[..j] == granted[..j];
      } else {
        assert (ops + [op])[..j] == ops && (granted + [g])[..j] == granted;
      }
    }
  }

  lemma SkippedReply(c: map<nat, Space>, op: Op)
    requires !Allowed(c, op)
    ensures Reply(c, op, true) == Skipped
  {
  }

  /* ---- no page is lost ---- */

  ghost predicate OwnedBy(m: Mem, p: nat, d: nat) {
    p in m.role &&
    match m.role[p]
    case Free => false
    case Loose => false
    case Dir => p == d
    case Table(e, _) => e == d
    case Frame(e, _) => e == d
  }

  /** The directory, the tables and the frames of an address space. */
  ghost function PagesOf(m: Mem, d: nat): (r: set<nat>) {
    set p | p in m.role && OwnedBy(m, p, d)
  }

  ghost function Sum(m: Mem, ds: seq<nat>): (n: nat) {
    if ds == [] then 0 else |PagesOf(m, ds[0])| + Sum(m, ds[1..])
  }

  ghost predicate Lists(ds: seq<nat>, dirs: set<nat>) {
    && (forall i, j :: 0 <= i < j < |ds| ==> ds[i] != ds[j])
    && forall d :: d in ds <==> d in dirs
  }

  ghost function Pool(m: Mem, ds: seq<nat>): (r: set<nat>) {
    set p | p in m.role && Pooled(m, ds, p)
  }

  ghost predicate Pooled(m: Mem, ds: seq<nat>, p: nat) {
    exists d :: d in ds && OwnedBy(m, p, d)
  }

  lemma {:induction false} PoolSize(m: Mem, ds: seq<nat>)
    requires forall i, j :: 0 <= i < j < |ds| ==> ds[i] != ds[j]
    ensures |Pool(m, ds)| == Sum(m, ds)
  {
    hide Pool, PagesOf;
    if ds == [] {
      NothingPooled(m);
    } else {
      PoolSize(m, ds[1..]);
      PoolStep(m, ds[0], ds[1..]);
      assert ds == [ds[0]] + ds[1..];
      DisjointSize(PagesOf(m, ds[0]), Pool(m, ds[1..]));
    }
  }

  lemma NothingPooled(m: Mem)
    ensures Pool(m, []) == {}
  {
    assert forall p :: !Pooled(m, [], p);
  }

  lemma PoolStep(m: Mem, d: nat, ds: seq<nat>)
    requires d !in ds
    ensures Pool(m, [d] + ds) == PagesOf(m, d) + Pool(m, ds) && PagesOf(m, d) !! Pool(m, ds)
  {
    forall p
      ensures Pooled(m, [d] + ds, p) <==> OwnedBy(m, p, d) || Pooled(m, ds, p)
      ensures !(OwnedBy(m, p, d) && Pooled(m, ds, p))
    {
      OwnerOnce(m, d, ds, p);
    }
  }

  lemma OwnerOnce(m: Mem, d: nat, ds: seq<nat>, p: nat)
    requires d !in ds
    ensures Pooled(m, [d] + ds, p) <==> OwnedBy(m, p, d) || Pooled(m, ds, p)
    ensures !(OwnedBy(m, p, d) && Pooled(m, ds, p))
  {
    assert d in [d] + ds;
    assert forall e :: e in [d] + ds <==> e == d || e in ds;
    assert forall e :: OwnedBy(m, p, d) && OwnedBy(m, p, e) ==> e == d;
  }

  lemma DisjointSize<T>(a: set<T>, b: set<T>)
    requires a !! b
    ensures |a + b| == |a| + |b|
  {
  }

  ghost function FreeSet(free: seq<nat>): (r: set<nat>) {
    set p | p in free
  }

  lemma {:induction false} FreeSize(free: seq<nat>)
    requires forall i, j :: 0 <= i < j < |free| ==> free[i] != free[j]
    ensures |FreeSet(free)| == |free|
  {
    if free != [] {
      FreeSize(free[1..]);
      assert free == [free[0]] + free[1..];
      assert FreeSet(free) == FreeSet(free[1..]) + {free[0]};
    }
  }

  /** Every page in use belongs to one of the address spaces. */
  lemma Owned(m: Mem, pages: set<nat>, ds: seq<nat>, p: nat)
    requires Inv(m, pages) && Lists(ds, m.dirs.Keys) && p in pages
    ensures p in FreeSet(m.free) || p in LooseSet(m) || p in Pool(m, ds)
  {
    if m.role[p].Dir? {
      assert OwnedBy(m, p, p) && p in ds;
    } else if m.role[p].Table? || m.role[p].Frame? {
      assert OwnedBy(m, p, m.role[p].dir) && m.role[p].dir in ds;
    }
  }

  lemma OneUse(m: Mem, pages: set<nat>, ds: seq<nat>)
    requires Inv(m, pages)
    ensures |FreeSet(m.free)| == |m.free|
    ensures FreeSet(m.free) <= pages && LooseSet(m) <= pages && Pool(m, ds) <= pages
    ensures FreeSet(m.free) !! LooseSet(m) && FreeSet(m.free) + LooseSet(m) !! Pool(m, ds)
  {
    hide Shape, Tabled, Framed;
    FreeSize(m.free);
    forall p | p in Pool(m, ds)
      ensures p !in FreeSet(m.free) && p !in LooseSet(m)
    {
      assert Pooled(m, ds, p);
    }
  }

  /** Free pages and the pages of all address spaces add up to all pages, but for those in no use yet. */
  lemma Balance(m: Mem, pages: set<nat>, ds: seq<nat>)
    requires Inv(m, pages) && Lists(ds, m.dirs.Keys)
    ensures |m.free| + Sum(m, ds) + |LooseSet(m)| == |pages|
  {
    hide Inv, FreeSet, LooseSet, Pool, Sum;
    OneUse(m, pages, ds);
    PoolSize(m, ds);
    forall p | p in pages
      ensures p in FreeSet(m.free) + LooseSet(m) + Pool(m, ds)
    {
      Owned(m, pages, ds, p);
    }
    assert FreeSet(m.free) + LooseSet(m) + Pool(m, ds) == pages;
    DisjointSize(FreeSet(m.free), LooseSet(m));
    DisjointSize(FreeSet(m.free) + LooseSet(m), Pool(m, ds));
  }

  ghost function FramesOf(m: Mem, d: nat): (r: set<nat>) {
    set f | f in m.role && m.role[f].Frame? && m.role[f].dir == d
  }

  ghost function Mapped(m: Mem, d: nat, n: nat): (r: set<nat>)
    requires Shape(m) && d in m.dirs && n <= USERPAGES
  {
    set v: nat | v < n && At(m, d, v).Present? :: At(m, d, v).page
  }

  lemma {:induction false} MappedSize(m: Mem, d: nat, n: nat, pages: set<nat>)
    requires Inv(m, pages) && d in m.dirs && n <= USERPAGES && forall v: nat :: v < n ==> At(m, d, v).Present?
    ensures |Mapped(m, d, n)| == n
  {
    hide At, Inv;
    ShapeOf(m, pages);
    if n > 0 {
      MappedSize(m, d, n - 1, pages);
      var f := At(m, d, n - 1).page;
      assert Mapped(m, d, n) == Mapped(m, d, n - 1) + {f};
      forall v: nat | v < n - 1
        ensures At(m, d, v).page != f
      {
        MappedIsFrame(m, d, v, pages);
        MappedIsFrame(m, d, n - 1, pages);
      }
    }
  }

  /** An address space has a frame for each page of its size, besides its directory and its tables. */
  lemma SpacePages(m: Mem, d: nat, sz: nat, pages: set<nat>)
    requires Inv(m, pages) && Exact(m, d, sz) && sz <= KERNBASE
    ensures |PagesOf(m, d)| == 1 + |RowSet(m.dirs[d], 0)| + PageUp(sz)
  {
    hide At, Inv, RowSet, FramesOf, PagesOf, PageUp;
    ExactShape(m, d, sz);
    PagesBound(sz);
    AllMapped(m, d, sz);
    MappedSize(m, d, PageUp(sz), pages);
    FramesMapped(m, d, sz, pages);
    SpaceParts(m, d, pages);
    DisjointSize({d}, RowSet(m.dirs[d], 0));
    DisjointSize({d} + RowSet(m.dirs[d], 0), FramesOf(m, d));
  }

  lemma SpaceParts(m: Mem, d: nat, pages: set<nat>)
    requires Inv(m, pages) && d in m.dirs
    ensures var tables := RowSet(m.dirs[d], 0);
            && PagesOf(m, d) == {d} + tables + FramesOf(m, d)
            && d !in tables && {d} + tables !! FramesOf(m, d)
  {
    hide RowSet, Shape, Tabled, Framed;
    RowTables(m, d, pages);
    forall p
      ensures OwnedBy(m, p, d) <==> p == d || p in RowSet(m.dirs[d], 0) || p in FramesOf(m, d)
    {
      TableOf(m, d, p, pages);
    }
  }

  lemma TableOf(m: Mem, d: nat, p: nat, pages: set<nat>)
    requires Inv(m, pages) && d in m.dirs
    ensures p in RowSet(m.dirs[d], 0) <==> p in m.tables && Belongs(m, p, d)
  {
    hide RowSet, Inv, Belongs;
    RowTables(m, d, pages);
    assert p in (set t | t in m.tables && Belongs(m, t, d)) <==> p in m.tables && Belongs(m, p, d);
  }

  lemma AllMapped(m: Mem, d: nat, sz: nat)
    requires Exact(m, d, sz) && sz <= KERNBASE && PageUp(sz) <= USERPAGES
    ensures forall v: nat :: v < USERPAGES ==> (At(m, d, v).Present? <==> v < PageUp(sz))
  {
    hide At;
    forall v: nat | v < USERPAGES
      ensures At(m, d, v).Present? <==> v < PageUp(sz)
    {
      PageBelow(v, sz);
    }
  }

  lemma FramesMapped(m: Mem, d: nat, sz: nat, pages: set<nat>)
    requires Inv(m, pages) && d in m.dirs && PageUp(sz) <= USERPAGES
    requires forall v: nat :: v < USERPAGES ==> (At(m, d, v).Present? <==> v < PageUp(sz))
    ensures FramesOf(m, d) == Mapped(m, d, PageUp(sz))
  {
    hide At, Tabled, Shape, PageUp;
    forall f | f in FramesOf(m, d)
      ensures f in Mapped(m, d, PageUp(sz))
    {
      assert At(m, d, m.role[f].at).page == f;
    }
  }
}
