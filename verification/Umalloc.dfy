/** malloc, free and morecore over the heap of `UserHeap`. */
module Umalloc {
  import opened UserHeap

  const HEADER_BYTES := 8

  /** The header that free gives the block b, with the next free block taken in if it touches. */
  function Joined(mem: map<nat, Header>, b: nat, q: nat): (r: Header)
    requires b in mem && q in mem
  {
    if b + mem[b].size == q then Header(mem[q].ptr, mem[b].size + mem[q].size) else Header(q, mem[b].size)
  }

  /** What the assignments of free leave in memory is the block entered and joined on both sides. */
  lemma FreedMem(h: Heap, base: nat, j: nat, b: nat)
    requires h.Inv(base) && h.Coalesced() && b in h.live && Gap(h.list, j, b)
    ensures var p := h.list[j];
            && p in h.mem && b in h.mem && h.mem[p].ptr in h.mem
            && var hb := Joined(h.mem, b, h.mem[p].ptr);
            && Freed(h, base, j, b).mem ==
               h.mem[b := hb][p := if p + h.mem[p].size == b then Header(hb.ptr, h.mem[p].size + hb.size)
                                   else Header(b, h.mem[p].size)]
  {
    hide Tiled, Linked, Ordered;
    NextFree(h, base, j, b);
    EnteredMem(h, base, j, b);
    var h2 := Join(h.Insert(j, b), j + 1);
    assert h2.Touching(j) <==> h.list[j] + h.mem[h.list[j]].size == b;
  }

  lemma EnteredMem(h: Heap, base: nat, j: nat, b: nat)
    requires h.Inv(base) && b in h.live && Gap(h.list, j, b)
    requires h.list[j] in h.mem && b in h.mem && h.mem[h.list[j]].ptr in h.mem
    ensures var p, h2 := h.list[j], Join(h.Insert(j, b), j + 1);
            && h2.mem == h.mem[p := h.mem[p].(ptr := b)][b := Joined(h.mem, b, h.mem[p].ptr)]
            && j + 1 < |h2.list| && h2.list[j] == p && h2.list[j + 1] == b
  {
    hide Tiled, Linked, Ordered;
    NextFree(h, base, j, b);
    var h1 := h.Insert(j, b);
    assert h1.list == InsertAt(h.list, j, b);
    assert h1.Touching(j + 1) <==> b + h.mem[b].size == h.mem[h.list[j]].ptr;
  }

  lemma NextFree(h: Heap, base: nat, j: nat, b: nat)
    requires h.Inv(base) && b in h.live && Gap(h.list, j, b)
    ensures h.list[j] in h.mem && b in h.mem && h.mem[h.list[j]].ptr in h.mem
    ensures j + 1 < |h.list| ==> h.mem[h.list[j]].ptr == h.list[j + 1] > b
    ensures j + 1 == |h.list| ==> h.mem[h.list[j]].ptr == base < b
    ensures h.list[j] != b && b != base
  {
    GapBounds(h, base, j, b, 0);
    hide Tiled;
  }

  lemma {:induction false} GapExists(mem: map<nat, Header>, list: seq<nat>, b: nat, n: nat) returns (j: nat)
    requires Ordered(mem, list) && 1 <= n <= |list| && list[0] < b && b !in list
    requires n < |list| ==> b < list[n]
    ensures Gap(list, j, b)
  {
    assert list[n - 1] in list;
    if list[n - 1] < b {
      j := n - 1;
    } else {
      j := GapExists(mem, list, b, n - 1);
    }
  }

  /** Steps along a cycle of n from position k to position t. */
  ghost function Steps(n: nat, k: nat, t: nat): (d: nat)
    requires k < n && t < n
  {
    if k <= t then t - k else n - k + t
  }

  ghost function Succ(n: nat, k: nat): (r: nat)
    requires k < n
  {
    if k + 1 < n then k + 1 else 0
  }

  lemma LinkAt(h: Heap, base: nat, k: nat)
    requires h.Inv(base) && k < |h.list|
    ensures h.list[k] in h.mem && h.mem[h.list[k]].ptr == h.list[Succ(|h.list|, k)] && h.list[0] == base
    ensures k + 1 < |h.list| ==> h.list[k] < h.list[k + 1]
    ensures base <= h.list[k]
  {
    hide Tiled;
  }

  /** free's search: from any place on the cycle it stops behind the last free block below bp. */
  method FindGap(mem: map<nat, Header>, freep: nat, ghost h: Heap, ghost base: nat, bp: nat)
    returns (p: nat, ghost j: nat)
    requires h.mem == mem && h.Inv(base) && freep in h.list && bp in h.live
    ensures Gap(h.list, j, bp) && p == h.list[j]
  {
    hide Tiled, Linked, Ordered, Heap.LiveOk;
    ghost var t := GapOf(h, base, bp);
    p := freep;
    j :| 0 <= j < |h.list| && h.list[j] == freep;
    LinkAt(h, base, j);
    while !(bp > p && bp < mem[p].ptr)
      invariant j < |h.list| && p == h.list[j] && p in mem
      decreases Steps(|h.list|, j, t)
    {
      LinkAt(h, base, j);
      if p >= mem[p].ptr && (bp > p || bp < mem[p].ptr) {
        LastGap(h, base, bp, j, t);
        break;
      }
      NotYet(h, base, bp, j, t);
      p := mem[p].ptr;
      j := Succ(|h.list|, j);
      LinkAt(h, base, j);
    }
    LinkAt(h, base, j);
  }

  lemma GapOf(h: Heap, base: nat, bp: nat) returns (t: nat)
    requires h.Inv(base) && bp in h.live
    ensures Gap(h.list, t, bp) && base < bp
  {
    hide Linked;
    assert bp in h.Blocks(base);
    BaseFirst(h, base);
    t := GapExists(h.mem, h.list, bp, |h.list|);
  }

  lemma LastGap(h: Heap, base: nat, bp: nat, j: nat, t: nat)
    requires h.Inv(base) && bp in h.live && j < |h.list| && Gap(h.list, t, bp) && base < bp
    requires h.list[j] in h.mem && h.list[j] >= h.mem[h.list[j]].ptr && (bp > h.list[j] || bp < h.mem[h.list[j]].ptr)
    ensures Gap(h.list, j, bp)
  {
    LinkAt(h, base, j);
    hide Tiled;
  }

  lemma NotYet(h: Heap, base: nat, bp: nat, j: nat, t: nat)
    requires h.Inv(base) && bp in h.live && j < |h.list| && Gap(h.list, t, bp) && base < bp
    requires h.list[j] in h.mem && !(bp > h.list[j] && bp < h.mem[h.list[j]].ptr)
    requires !(h.list[j] >= h.mem[h.list[j]].ptr && (bp > h.list[j] || bp < h.mem[h.list[j]].ptr))
    ensures j != t
  {
    LinkAt(h, base, j);
    hide Tiled;
  }

  /** The memory is base and the granted units, all below the break; each granted unit has an owner. */
  ghost predicate Extent(h: Heap, base: nat, brk: nat) {
    h.mem.Keys == h.owner.Keys + {base} && forall u :: u in h.mem ==> u < brk
  }

  lemma StartInv(h: Heap, base: nat)
    requires h.list == [base] && h.live == map[] && h.owner == map[] && base in h.mem && h.mem[base] == Header(base, 0)
    ensures h.Inv(base) && h.Coalesced()
  {
  }

  class Allocator {
    const base: nat
    var mem: map<nat, Header>
    var freep: nat
    var brk: nat
    ghost var list: seq<nat>
    ghost var live: map<nat, nat>
    ghost var owner: map<nat, nat>
    ghost var grants: nat
    ghost var refusals: nat

    ghost function State(): (h: Heap)
      reads this
    {
      Heap(mem, list, live, owner)
    }

    /** Before the first malloc there is no list and no granted unit. */
    ghost predicate Valid()
      reads this
    {
      && 0 < base < brk && base in mem
      && Extent(State(), base, brk)
      && (freep == 0 ==> list == [] && live == map[] && owner == map[])
      && (freep != 0 ==> State().Inv(base) && State().Coalesced() && freep in list)
    }

    constructor (base: nat, brk: nat)
      requires 0 < base < brk
      ensures Valid() && this.base == base && live == map[] && owner == map[] && grants == 0 && refusals == 0
    {
      this.base, this.brk := base, brk;
      mem := map[base := Header(0, 0)];
      freep := 0;
      list, live, owner, grants, refusals := [], map[], map[], 0, 0;
    }

    /** sbrk, as malloc relies on it: it fails, or grants nu fresh units above all earlier ones. */
    method Sbrk(nu: nat) returns (p: nat)
      requires 0 < brk
      modifies this`mem, this`brk, this`grants, this`refusals
      ensures p == 0 ==> mem == old(mem) && brk == old(brk) && grants == old(grants) && refusals == old(refusals) + 1
      ensures p != 0 ==> refusals == old(refusals)
      ensures p != 0 ==> p >= old(brk) && brk == p + nu && grants == old(grants) + 1
                         && mem == old(mem) + Span(p, nu, Header(0, 0))
    {
      if * {
        refusals := refusals + 1;
        return 0;
      }
      var gap: int :| 0 <= gap;
      p := brk + gap;
      mem := mem + Span(p, nu, Header(0, 0));
      brk := p + nu;
      grants := grants + 1;
    }

    /** free: the block becomes free memory again, joined with the free blocks it touches. */
    method Free(ap: nat)
      requires Valid() && ap >= 1 && ap - 1 in live && freep != 0
      modifies this`mem, this`freep, this`list, this`live, this`owner
      ensures Valid() && freep != 0
      ensures live == old(live) - {ap - 1} && owner.Keys == old(owner.Keys)
      ensures Kept(old(State()), State(), live)
      ensures freep in mem && mem[freep].ptr in mem
      ensures mem[freep].size >= old(live)[ap - 1] || mem[mem[freep].ptr].size >= old(live)[ap - 1]
    {
      hide Heap.Inv, Heap.Coalesced, Kept, Freed, Extent;
      var bp := ap - 1;
      ghost var h := State();
      var p; ghost var j;
      p, j := FindGap(mem, freep, h, base, bp);
      FreedMem(h, base, j, bp);
      if bp + mem[bp].size == mem[p].ptr {
        mem := mem[bp := Header(mem[mem[p].ptr].ptr, mem[bp].size + mem[mem[p].ptr].size)];
      } else {
        mem := mem[bp := mem[bp].(ptr := mem[p].ptr)];
      }
      if p + mem[p].size == bp {
        mem := mem[p := Header(mem[bp].ptr, mem[p].size + mem[bp].size)];
      } else {
        mem := mem[p := mem[p].(ptr := bp)];
      }
      freep := p;
      FreedState(h, base, j, bp, brk);
      ghost var r := Freed(h, base, j, bp);
      assert mem == r.mem;
      list, live, owner := r.list, r.live, r.owner;
    }

    /** morecore: at least 4096 units from sbrk, entered as one free block. */
    method Morecore(n: nat) returns (p: nat)
      requires Valid() && freep != 0 && 1 <= n
      modifies this
      ensures Valid() && freep != 0 && live == old(live) && Kept(old(State()), State(), live)
      ensures p == 0 ==> State() == old(State()) && freep == old(freep) && grants == old(grants)
      ensures refusals == if p == 0 then old(refusals) + 1 else old(refusals)
      ensures p != 0 ==> p == freep && grants == old(grants) + 1
      ensures p != 0 ==>
                freep in mem && mem[freep].ptr in mem && (mem[freep].size >= n || mem[mem[freep].ptr].size >= n)
      ensures old(owner.Keys) <= owner.Keys
    {
      hide Heap.Inv, Heap.Coalesced, Kept, Grow, Extent;
      ghost var h := State();
      var nu := if n < 4096 then 4096 else n;
      OwnedInMemory(h, base);
      KeptSame(h);
      p := Sbrk(nu);
      if p == 0 {
        return 0;
      }
      GrowState(h, base, p, nu, old(brk));
      mem := mem[p := mem[p].(size := nu)];
      ghost var g := Grow(h, p, nu);
      live, owner := g.live, g.owner;
      assert State() == g;
      Free(p + 1);
      InAndOut(h.live, p, nu);
      KeptTrans(h, g, State(), live);
      return freep;
    }

    /** malloc's success: the block at p, whose predecessor on the list is prevp, serves the request. */
    method Serve(prevp: nat, p: nat, n: nat, ghost k: nat) returns (r: nat)
      requires Valid() && freep != 0 && 1 <= n
      requires k < |list| && prevp == list[k] && prevp in mem && p == mem[prevp].ptr && p in mem && mem[p].size >= n
      modifies this`mem, this`freep, this`list, this`live, this`owner
      ensures Valid() && freep != 0
      ensures r >= 1 && r - 1 !in old(live) && live == old(live)[r - 1 := n]
      ensures owner.Keys == old(owner.Keys) && Kept(old(State()), State(), old(live))
    {
      hide Heap.Inv, Heap.Coalesced, Kept, Extent;
      ghost var h := State();
      ServePosition(h, base, k, n);
      ghost var i := k + 1;
      if mem[p].size == n {
        TakeState(h, base, i, brk);
        mem := mem[prevp := mem[prevp].(ptr := mem[p].ptr)];
        ghost var s := Take(h, i);
        list, live, owner := s.list, s.live, s.owner;
        freep := prevp;
        return p + 1;
      } else {
        SplitState(h, base, i, n, brk);
        var rest := mem[p].size - n;
        mem := mem[p := mem[p].(size := rest)];
        var q := p + rest;
        mem := mem[q := mem[q].(size := n)];
        ghost var s := Split(h, i, n);
        list, live, owner := s.list, s.live, s.owner;
        freep := prevp;
        return q + 1;
      }
    }

    /**
    Once around the cycle, from the block behind freep to freep itself: the first block of n units
    or more, and its predecessor on the list.
    */
    method Scan(n: nat) returns (found: bool, prevp: nat, p: nat, ghost k: nat)
      requires Valid() && freep != 0
      ensures found <==> Fits(State(), n)
      ensures found ==>
                k < |list| && prevp == list[k] && prevp in mem && p == mem[prevp].ptr && p in mem && mem[p].size >= n
    {
      hide Heap.Inv, Heap.Coalesced, Scanned, Fits, Extent;
      ghost var h := State();
      ghost var f: nat := IndexOf(list, freep);
      prevp, k := freep, f;
      LinkAt(h, base, f);
      p := mem[prevp].ptr;
      ScanStart(h, f, n);
      while true
        invariant k < |list| && prevp == list[k] && prevp in mem && p == mem[prevp].ptr
        invariant Scanned(h, f, Succ(|list|, k), n)
        decreases Steps(|list|, Succ(|list|, k), f)
      {
        ghost var next := Succ(|list|, k);
        LinkAt(h, base, k);
        LinkAt(h, base, next);
        if mem[p].size >= n {
          FitsAt(h, next, n);
          return true, prevp, p, k;
        }
        ScanNext(h, base, f, next, n);
        if p == freep {
          ScannedAll(h, base, f, next, n);
          return false, prevp, p, k;
        }
        prevp, p, k := p, mem[p].ptr, next;
      }
    }

    /**
    malloc: a null result means that no free block is large enough and sbrk refused; any other
    result is the first unit behind the header of a new live block.  Live blocks keep their
    contents.  sbrk is asked only when nothing fits, and succeeds at most once.
    */
    method Malloc(nbytes: nat) returns (r: nat)
      requires Valid()
      modifies this
      ensures Valid() && freep != 0
      ensures r == 0 ==> live == old(live) && grants == old(grants) && !Fits(State(), Units(nbytes))
      ensures r != 0 ==> r - 1 !in old(live) && live == old(live)[r - 1 := Units(nbytes)]
      ensures Kept(old(State()), State(), old(live)) && old(owner.Keys) <= owner.Keys
      ensures grants <= old(grants) + 1 && refusals == if r == 0 then old(refusals) + 1 else old(refusals)
      ensures grants > old(grants) ==> !Fits(old(State()), Units(nbytes))
    {
      hide Heap.Inv, Heap.Coalesced, Kept, Fits, Extent;
      var n := (nbytes + HEADER_BYTES - 1) / HEADER_BYTES + 1;
      Start();
      ghost var h0 := State();
      OwnedInMemory(h0, base);
      KeptSame(h0);
      ghost var cored := false;
      while true
        invariant Valid() && freep != 0 && live == h0.live && Kept(h0, State(), live) && h0.owner.Keys <= owner.Keys
        invariant refusals == old(refusals) && grants == old(grants) + if cored then 1 else 0
        invariant if cored then !Fits(h0, n) && Fits(State(), n) else State() == h0
        decreases if cored then 0 else 1
      {
        var found, prevp, p, k := Scan(n);
        ghost var h1 := State();
        if found {
          r := Serve(prevp, p, n, k);
          KeptTrans(h0, h1, State(), old(live));
          KeptTrans(old(State()), h0, State(), old(live));
          return;
        }
        p := Morecore(n);
        KeptTrans(h0, h1, State(), live);
        if p == 0 {
          KeptTrans(old(State()), h0, State(), old(live));
          return 0;
        }
        CoredFits(State(), base, freep, n);
        cored := true;
      }
    }

    /**
    The client writes a unit of a live block, behind its header.  No header, no other unit and no
    block is disturbed.
    */
    method Store(u: nat, x: Header)
      requires Valid() && u in owner && owner[u] in live && u != owner[u]
      modifies this`mem
      ensures Valid() && mem == old(mem)[u := x]
    {
      hide Heap.Inv, Heap.Coalesced;
      StoreInv(State(), base, u, x);
      mem := mem[u := x];
    }

    /** malloc's first call sets up the list with base alone. */
    method Start()
      requires Valid()
      modifies this`mem, this`freep, this`list
      ensures Valid() && freep != 0 && (old(freep) != 0 ==> State() == old(State()) && freep == old(freep))
      ensures Kept(old(State()), State(), live)
      ensures forall n :: n >= 1 && Fits(old(State()), n) ==> Fits(State(), n)
    {
      if freep == 0 {
        mem := mem[base := Header(base, 0)];
        freep := base;
        list := [base];
        StartInv(State(), base);
      }
      OwnedInMemory(State(), base);
    }
  }

  /** There is a free block of n units or more. */
  ghost predicate Fits(h: Heap, n: nat) {
    exists a :: a in h.list && a in h.mem && h.mem[a].size >= n
  }

  lemma FitsAt(h: Heap, k: nat, n: nat)
    requires k < |h.list| && h.list[k] in h.mem && h.mem[h.list[k]].size >= n
    ensures Fits(h, n)
  {
  }

  /** The block that morecore entered is at freep or behind it. */
  lemma CoredFits(h: Heap, base: nat, freep: nat, n: nat)
    requires h.Inv(base) && freep in h.list && freep in h.mem && h.mem[freep].ptr in h.mem
    requires h.mem[freep].size >= n || h.mem[h.mem[freep].ptr].size >= n
    ensures Fits(h, n)
  {
    LinkAt(h, base, IndexOf(h.list, freep));
  }

  ghost predicate OnlyBlock(h: Heap, base: nat, u: nat, a: nat) {
    forall b :: b in h.Blocks(base) && Within(h.mem, b, u) ==> b == a
  }

  /** Every granted unit lies in exactly one block, which is either live or on the free list. */
  lemma ExactlyOneBlock(h: Heap, base: nat, u: nat)
    requires h.Inv(base) && u in h.owner
    ensures exists a :: a in h.Blocks(base) && Within(h.mem, a, u) && OnlyBlock(h, base, u, a)
    ensures forall a :: a in h.live ==> a !in h.list
  {
    hide Ordered, Linked;
    var a := h.owner[u];
    assert a in h.Blocks(base) && Within(h.mem, a, u);
  }

  function Units(nbytes: nat): (n: nat) {
    (nbytes + HEADER_BYTES - 1) / HEADER_BYTES + 1
  }

  ghost function IndexOf(list: seq<nat>, a: nat): (i: nat)
    requires a in list
    ensures i < |list| && list[i] == a
  {
    var i :| 0 <= i < |list| && list[i] == a;
    i
  }

  /** Every block that the search from f has passed on its way to position k is too small. */
  ghost predicate Scanned(h: Heap, f: nat, k: nat, n: nat) {
    && f < |h.list| && k < |h.list|
    && forall i :: 0 <= i < |h.list| && Steps(|h.list|, i, f) > Steps(|h.list|, k, f) && h.list[i] in h.mem ==>
         h.mem[h.list[i]].size < n
  }

  lemma ScanStart(h: Heap, f: nat, n: nat)
    requires f < |h.list|
    ensures Scanned(h, f, Succ(|h.list|, f), n)
  {
  }

  lemma ScanNext(h: Heap, base: nat, f: nat, k: nat, n: nat)
    requires f < |h.list| && k < |h.list| && h.list[k] in h.mem && h.mem[h.list[k]].size < n
    ensures Scanned(h, f, k, n) ==> f != k ==> Scanned(h, f, Succ(|h.list|, k), n)
  {
  }

  lemma ScannedAll(h: Heap, base: nat, f: nat, k: nat, n: nat)
    requires f < |h.list| && k < |h.list| && h.list[k] in h.mem && h.mem[h.list[k]].size < n
    requires h.Inv(base) && h.list[f] == h.list[k]
    ensures f == k
    ensures Scanned(h, f, k, n) ==> !Fits(h, n)
  {
    hide Tiled, Linked;
  }

  lemma ServePosition(h: Heap, base: nat, k: nat, n: nat)
    requires h.Inv(base) && k < |h.list| && 1 <= n && 0 < base
    requires h.list[k] in h.mem && h.mem[h.list[k]].ptr in h.mem && h.mem[h.mem[h.list[k]].ptr].size >= n
    ensures k + 1 < |h.list| && h.mem[h.list[k]].ptr == h.list[k + 1] && h.list[k] != 0
  {
    hide Tiled, Ordered, Linked;
    LinkAt(h, base, k);
  }

  lemma TakeState(h: Heap, base: nat, i: nat, brk: nat)
    requires h.Inv(base) && h.Coalesced() && 1 <= i < |h.list|
    requires Extent(h, base, brk)
    ensures h.list[i] in h.mem && h.list[i - 1] in h.mem && h.list[i] !in h.live
    ensures var r := Take(h, i);
            && r.Inv(base) && r.Coalesced() && Kept(h, r, h.live)
            && h.list[i - 1] in r.list && base in r.mem && Extent(r, base, brk)
  {
    hide Tiled, Ordered, Linked;
    LinkAt(h, base, i);
    LinkAt(h, base, i - 1);
    LinkAt(h, base, 0);
    assert h.list[i] in h.list;
    TakeInv(h, base, i);
    TakeCoalesced(h, base, i);
    TakeKept(h, base, i);
    assert Take(h, i).list[i - 1] == h.list[i - 1];
  }

  lemma SplitState(h: Heap, base: nat, i: nat, n: nat, brk: nat)
    requires h.Inv(base) && h.Coalesced() && 1 <= i < |h.list|
    requires h.list[i] in h.mem && 1 <= n < h.mem[h.list[i]].size
    requires Extent(h, base, brk)
    ensures var q := h.list[i] + h.mem[h.list[i]].size - n;
            && q in h.mem && q !in h.live && h.list[i - 1] in h.list
    ensures var r := Split(h, i, n);
            && r.Inv(base) && r.Coalesced() && Kept(h, r, h.live) && r.owner.Keys == h.owner.Keys
            && base in r.mem && Extent(r, base, brk)
  {
    hide Tiled, Ordered, Linked;
    LinkAt(h, base, 0);
    SplitPlace(h, base, i, n);
    SplitInv(h, base, i, n);
    SplitCoalesced(h, base, i, n);
    SplitKept(h, base, i, n);
  }

  lemma KeptSame(h: Heap)
    requires h.owner.Keys <= h.mem.Keys
    ensures Kept(h, h, h.live)
  {
  }

  lemma InAndOut(live: map<nat, nat>, p: nat, nu: nat)
    requires p !in live
    ensures live[p := nu] - {p} == live
  {
  }

  /** The granted block was in no one's hands before. */
  lemma GrowState(h: Heap, base: nat, p: nat, nu: nat, brk: nat)
    requires h.Inv(base) && h.Coalesced() && base < brk <= p && 1 <= nu && base in h.mem
    requires Extent(h, base, brk)
    ensures var g := Grow(h, p, nu);
            && g.Inv(base) && g.Coalesced() && Kept(h, g, h.live)
            && g.mem == (h.mem + Span(p, nu, Header(0, 0)))[p := Header(0, nu)]
            && g.list == h.list && g.live == h.live[p := nu] && p !in h.live
            && h.owner.Keys <= g.owner.Keys && base in g.mem
            && Extent(g, base, p + nu)
  {
    hide Heap.Inv, Heap.Coalesced, Kept, Extent;
    ExtentBelow(h, base, brk);
    GrowInv(h, base, p, nu);
    GrowKept(h, base, p, nu);
    GrowExtent(h, base, p, nu, brk);
  }

  lemma ExtentBelow(h: Heap, base: nat, brk: nat)
    requires Extent(h, base, brk)
    ensures forall u :: u in h.mem ==> u < brk
  {
  }

  lemma GrowExtent(h: Heap, base: nat, p: nat, nu: nat, brk: nat)
    requires Extent(h, base, brk) && base < brk <= p && 1 <= nu && base in h.mem
    ensures base in Grow(h, p, nu).mem && Extent(Grow(h, p, nu), base, p + nu)
  {
  }

  lemma FreedState(h: Heap, base: nat, j: nat, b: nat, brk: nat)
    requires h.Inv(base) && h.Coalesced() && b in h.live && Gap(h.list, j, b) && 0 < base
    requires Extent(h, base, brk)
    ensures var r := Freed(h, base, j, b);
            && r.Inv(base) && r.Coalesced() && h.list[j] in r.list && h.list[j] != 0
            && r.live == h.live - {b} && r.owner.Keys == h.owner.Keys && Kept(h, r, r.live)
            && Extent(r, base, brk) && base in r.mem
            && h.list[j] in r.mem && r.mem[h.list[j]].ptr in r.mem
            && (r.mem[h.list[j]].size >= h.live[b] || r.mem[r.mem[h.list[j]].ptr].size >= h.live[b])
  {
    hide Tiled, Ordered, Linked, Freed;
    FreedInv(h, base, j, b);
    FreedWhere(h, base, j, b);
    FreedMem(h, base, j, b);
    var r := Freed(h, base, j, b);
    LinkAt(r, base, j);
    LinkAt(r, base, Succ(|r.list|, j));
    LinkAt(r, base, 0);
    LinkAt(h, base, j);
  }
}
