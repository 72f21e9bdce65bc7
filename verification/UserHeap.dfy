/**
malloc and free: a circular list of free blocks in address order, through `base`.
Addresses count units of one Header (8 bytes); 0 is the null pointer.  A unit's contents are
read as a Header, which is how the allocator sees memory; a client's data lies in the units
behind the header of a live block.
*/
module UserHeap {

  datatype Header = Header(ptr: nat, size: nat)

  /** Blocks of the list follow each other in memory without overlap. */
  ghost predicate Ordered(mem: map<nat, Header>, list: seq<nat>) {
    && (forall i :: 0 <= i < |list| ==> list[i] in mem)
    && (forall i, j :: 0 <= i < j < |list| ==> list[i] < list[j] && list[i] + mem[list[i]].size <= list[j])
  }

  /** The links run through the list and back to base. */
  ghost predicate Linked(mem: map<nat, Header>, list: seq<nat>, base: nat) {
    && |list| > 0 && list[0] == base
    && (forall i :: 0 <= i < |list| ==> list[i] in mem)
    && (forall i, j :: 0 <= i < j < |list| && j == i + 1 ==> mem[list[i]].ptr == list[j])
    && mem[list[|list| - 1]].ptr == base
  }

  /** Unit u lies in the block that starts at a. */
  ghost predicate Within(mem: map<nat, Header>, a: nat, u: nat)
  {
    a in mem && a <= u < a + mem[a].size
  }

  /** Every unit that has an owner lies in exactly that block, and blocks own all their units. */
  ghost predicate Tiled(mem: map<nat, Header>, blocks: set<nat>, owner: map<nat, nat>, base: nat) {
    && owner.Keys <= mem.Keys
    && (forall a :: a in blocks ==> base < a && Within(mem, a, a))
    && (forall u :: u in owner ==> owner[u] in blocks && Within(mem, owner[u], u))
    && (forall a, u :: a in blocks && Within(mem, a, u) ==> u in owner && owner[u] == a)
  }

  /** The units of block q go to block p. */
  ghost function Reown(owner: map<nat, nat>, q: nat, p: nat): (r: map<nat, nat>) {
    map u | u in owner :: if owner[u] == q then p else owner[u]
  }

  /**
  The heap as a value.  `list` gives the free list in the order of the links, starting at base;
  `live` the blocks handed out, with their sizes; `owner` maps every unit obtained from sbrk to
  the block that contains it.
  */
  datatype Heap = Heap(mem: map<nat, Header>, list: seq<nat>, live: map<nat, nat>, owner: map<nat, nat>) {

    /** The first units of all blocks, free and live. */
    ghost function Blocks(base: nat): (r: set<nat>) {
      live.Keys + (set a | a in list && a != base)
    }

    /** The header of a live block tells its size, and no live block is on the free list. */
    ghost predicate LiveOk() {
      forall a :: a in live ==> a in mem && mem[a].size == live[a] && a !in list
    }

    ghost predicate Inv(base: nat) {
      && Ordered(mem, list)
      && Linked(mem, list, base)
      && LiveOk()
      && mem[base].size == 0
      && Tiled(mem, Blocks(base), owner, base)
    }

    /** The free block at position i ends where the next one begins. */
    ghost predicate Touching(i: nat) {
      && i + 1 < |list| && list[i] in mem && list[i + 1] in mem
      && list[i] + mem[list[i]].size == list[i + 1]
    }

    /** No two free blocks touch, except perhaps at the n positions from j. */
    ghost predicate CoalescedExcept(j: nat, n: nat) {
      forall i: nat :: Touching(i) ==> j <= i < j + n
    }

    ghost predicate Coalesced() {
      forall i: nat :: !Touching(i)
    }

    /** The free list with a live block entered behind position j; it may touch its neighbours. */
    ghost function Insert(j: nat, b: nat): (r: Heap)
      requires j < |list| && list[j] in mem && b in mem
    {
      var q := mem[list[j]].ptr;
      Heap(mem[list[j] := mem[list[j]].(ptr := b)][b := mem[b].(ptr := q)],
           list[..j + 1] + [b] + list[j + 1..], live - {b}, owner)
    }

    /** The free block at position j takes in the one behind it. */
    ghost function Merge(j: nat): (r: Heap)
      requires j + 1 < |list| && list[j] in mem && list[j + 1] in mem
    {
      var p, q := list[j], list[j + 1];
      Heap(mem[p := Header(mem[q].ptr, mem[p].size + mem[q].size)],
           list[..j + 1] + list[j + 2..], live,
           Reown(owner, q, p))
    }
  }

  /* ---- entering a block ---- */

  /** b's place in the list: behind the last free block below it. */
  ghost predicate Gap(list: seq<nat>, j: nat, b: nat) {
    j < |list| && list[j] < b && (j + 1 < |list| ==> b < list[j + 1])
  }

  /** Different blocks do not overlap. */
  lemma BlocksDisjoint(mem: map<nat, Header>, blocks: set<nat>, owner: map<nat, nat>, base: nat, a: nat, b: nat)
    requires Tiled(mem, blocks, owner, base) && a in blocks && b in blocks && a < b
    ensures a in mem && a + mem[a].size <= b
  {
    assert Within(mem, a, a) && Within(mem, b, b);
    assert !Within(mem, a, b);
  }

  ghost function InsertAt(list: seq<nat>, j: nat, b: nat): (r: seq<nat>)
    requires j < |list|
    ensures |r| == |list| + 1 && r[j + 1] == b
    ensures forall i :: 0 <= i <= j ==> r[i] == list[i]
    ensures forall i :: j + 1 < i < |r| ==> r[i] == list[i - 1]
  {
    list[..j + 1] + [b] + list[j + 1..]
  }

  lemma InsertOrdered(mem: map<nat, Header>, list: seq<nat>, mem': map<nat, Header>, j: nat, b: nat)
    requires Ordered(mem, list) && j < |list| && b in mem
    requires forall i :: 0 <= i <= j ==> list[i] < b && list[i] + mem[list[i]].size <= b
    requires forall i :: j < i < |list| ==> b < list[i] && b + mem[b].size <= list[i]
    requires forall a :: a in mem ==> a in mem' && mem'[a].size == mem[a].size
    ensures Ordered(mem', InsertAt(list, j, b))
  {
  }

  lemma InsertLinked(mem: map<nat, Header>, list: seq<nat>, base: nat, j: nat, b: nat)
    requires Ordered(mem, list) && Linked(mem, list, base) && j < |list| && b in mem && b !in list
    ensures var mem' := mem[list[j] := mem[list[j]].(ptr := b)][b := mem[b].(ptr := mem[list[j]].ptr)];
            Linked(mem', InsertAt(list, j, b), base)
  {
    var r := InsertAt(list, j, b);
    assert forall i :: 0 <= i < |list| ==> list[i] != b;
    assert j + 1 < |list| ==> mem[list[j]].ptr == list[j + 1];
  }

  /** A live block lies between its neighbours on the free list. */
  lemma GapBounds(h: Heap, base: nat, j: nat, b: nat, i: nat)
    requires h.Inv(base) && b in h.live && Gap(h.list, j, b) && i < |h.list|
    ensures i <= j ==> h.list[i] < b && h.list[i] + h.mem[h.list[i]].size <= b
    ensures j < i ==> b < h.list[i] && b + h.mem[b].size <= h.list[i]
  {
    var blocks := h.Blocks(base);
    assert b in blocks;
    assert h.list[i] in h.list;
    if 0 < i <= j {
      BlocksDisjoint(h.mem, blocks, h.owner, base, h.list[i], b);
    } else if j < i {
      BlocksDisjoint(h.mem, blocks, h.owner, base, b, h.list[i]);
    }
  }

  lemma InsertInv(h: Heap, base: nat, j: nat, b: nat)
    requires h.Inv(base) && b in h.live && Gap(h.list, j, b)
    ensures h.Insert(j, b).Inv(base)
  {
    var r := h.Insert(j, b);
    assert b in h.Blocks(base);
    forall i | 0 <= i < |h.list|
      ensures i <= j ==> h.list[i] < b && h.list[i] + h.mem[h.list[i]].size <= b
      ensures j < i ==> b < h.list[i] && b + h.mem[b].size <= h.list[i]
    {
      GapBounds(h, base, j, b, i);
    }
    hide Tiled, Linked, Ordered, Gap;
    InsertOrdered(h.mem, h.list, r.mem, j, b);
    InsertLinked(h.mem, h.list, base, j, b);
    SameBlocks(h, base, j, b);
    TilingTransfers(h.mem, r.mem, h.Blocks(base), h.owner, base);
  }

  lemma InsertAtMembers(list: seq<nat>, j: nat, b: nat, a: nat)
    requires j < |list|
    ensures a in InsertAt(list, j, b) <==> a in list || a == b
  {
    var r := InsertAt(list, j, b);
    assert r == list[..j + 1] + [b] + list[j + 1..];
    assert list == list[..j + 1] + list[j + 1..];
  }

  /** The tiling depends only on which blocks there are and on their sizes. */
  lemma TilingTransfers(mem: map<nat, Header>, mem': map<nat, Header>, blocks: set<nat>, owner: map<nat, nat>,
                        base: nat)
    requires Tiled(mem, blocks, owner, base)
    requires mem.Keys <= mem'.Keys && forall a :: a in blocks && a in mem ==> mem'[a].size == mem[a].size
    ensures Tiled(mem', blocks, owner, base)
  {
    assert forall a :: a in blocks ==> Within(mem, a, a);
    assert forall a, u: nat :: a in blocks ==> (Within(mem, a, u) <==> Within(mem', a, u));
  }

  lemma SameBlocks(h: Heap, base: nat, j: nat, b: nat)
    requires h.LiveOk() && b in h.live && b != base && j < |h.list| && h.list[j] in h.mem
    ensures h.Insert(j, b).LiveOk() && h.Insert(j, b).Blocks(base) == h.Blocks(base)
  {
    var r := h.Insert(j, b);
    forall a: nat
      ensures a in r.list <==> a in h.list || a == b
    {
      InsertAtMembers(h.list, j, b, a);
    }
  }

  /* ---- joining two free blocks that touch ---- */

  ghost function RemoveAt(list: seq<nat>, j: nat): (r: seq<nat>)
    requires j < |list|
    ensures |r| == |list| - 1
    ensures forall i :: 0 <= i < j ==> r[i] == list[i]
    ensures forall i :: j <= i < |r| ==> r[i] == list[i + 1]
  {
    list[..j] + list[j + 1..]
  }

  lemma RemoveAtMembers(mem: map<nat, Header>, list: seq<nat>, j: nat, a: nat)
    requires Ordered(mem, list) && j < |list|
    ensures a in RemoveAt(list, j) <==> a in list && a != list[j]
  {
    var r := RemoveAt(list, j);
    assert list == list[..j] + [list[j]] + list[j + 1..];
    if a in r {
      var i :| 0 <= i < |r| && r[i] == a;
      assert a == list[if i < j then i else i + 1];
    }
  }

  lemma RemoveLinked(mem: map<nat, Header>, list: seq<nat>, base: nat, j: nat, p: Header)
    requires Ordered(mem, list) && Linked(mem, list, base) && 1 <= j < |list|
    requires p.ptr == mem[list[j]].ptr
    ensures Linked(mem[list[j - 1] := p], RemoveAt(list, j), base)
  {
    var r := RemoveAt(list, j);
    var mem' := mem[list[j - 1] := p];
    assert forall i :: 0 <= i < |list| && i != j - 1 ==> list[i] != list[j - 1];
    assert j + 1 < |list| ==> mem[list[j]].ptr == list[j + 1];
  }

  lemma MergeOrdered(mem: map<nat, Header>, list: seq<nat>, j: nat, p: Header)
    requires Ordered(mem, list) && 1 <= j < |list|
    requires list[j - 1] + p.size == list[j] + mem[list[j]].size
    ensures Ordered(mem[list[j - 1] := p], RemoveAt(list, j))
  {
    var r := RemoveAt(list, j);
    assert forall i :: 0 <= i < |list| && i != j - 1 ==> list[i] != list[j - 1];
  }

  lemma MergeTiled(mem: map<nat, Header>, blocks: set<nat>, owner: map<nat, nat>, base: nat, p: nat, q: nat, hd: Header)
    requires Tiled(mem, blocks, owner, base) && p in blocks && q in blocks && p in mem && q in mem
    requires p + mem[p].size == q && p + hd.size == q + mem[q].size
    ensures Tiled(mem[p := hd], blocks - {q}, Reown(owner, q, p), base)
  {
    var mem' := mem[p := hd];
    var owner' := Reown(owner, q, p);
    assert Within(mem, p, p) && Within(mem, q, q);
    assert forall u :: Within(mem', p, u) <==> Within(mem, p, u) || Within(mem, q, u);
    assert forall a, u :: a != p ==> (Within(mem', a, u) <==> Within(mem, a, u));
    assert forall u :: u in owner' <==> u in owner;
  }

  lemma MergeBlocks(h: Heap, base: nat, j: nat)
    requires h.Inv(base) && 1 <= j && j + 1 < |h.list|
    ensures h.Merge(j).Blocks(base) == h.Blocks(base) - {h.list[j + 1]}
    ensures h.Merge(j).LiveOk()
    ensures h.list[j] in h.Blocks(base) && h.list[j + 1] in h.Blocks(base) && base != h.list[j]
  {
    hide Tiled;
    var r := h.Merge(j);
    var p, q := h.list[j], h.list[j + 1];
    assert h.list[0] == base && base < p && base < q;
    assert p in h.list && q in h.list;
    forall a: nat
      ensures a in r.list <==> a in h.list && a != q
    {
      RemoveAtMembers(h.mem, h.list, j + 1, a);
    }
  }

  lemma MergeInv(h: Heap, base: nat, j: nat)
    requires h.Inv(base) && 1 <= j && j + 1 < |h.list|
    requires h.list[j] + h.mem[h.list[j]].size == h.list[j + 1]
    ensures h.Merge(j).Inv(base)
  {
    hide Tiled;
    var r := h.Merge(j);
    var p, q := h.list[j], h.list[j + 1];
    assert base in h.mem && h.mem[base].size == 0 && h.LiveOk();
    hide Linked, Ordered;
    assert r.list == RemoveAt(h.list, j + 1);
    MergeBlocks(h, base, j);
    RemoveLinked(h.mem, h.list, base, j + 1, r.mem[p]);
    MergeOrdered(h.mem, h.list, j + 1, r.mem[p]);
    MergeTiled(h.mem, h.Blocks(base), h.owner, base, p, q, r.mem[p]);
  }

  /* ---- free ---- */

  lemma InsertCoalesced(h: Heap, j: nat, b: nat)
    requires h.Coalesced() && j < |h.list| && h.list[j] in h.mem && b in h.mem
    ensures h.Insert(j, b).CoalescedExcept(j, 2)
  {
    var r := h.Insert(j, b);
    assert r.list == InsertAt(h.list, j, b);
    forall i: nat | i != j && i != j + 1
      ensures !r.Touching(i)
    {
      if i < j {
        assert !h.Touching(i);
      } else {
        assert !h.Touching(i - 1);
      }
    }
  }

  lemma MergeCoalesced(h: Heap, j: nat, n: nat)
    requires Ordered(h.mem, h.list) && h.Touching(j + n) && h.CoalescedExcept(j, n + 1)
    ensures h.Merge(j + n).CoalescedExcept(j, n)
  {
    var k := j + n;
    var r := h.Merge(k);
    assert r.list == RemoveAt(h.list, k + 1);
    assert forall i :: 0 <= i < |h.list| && i != k ==> h.list[i] != h.list[k];
    hide Ordered;
    forall i: nat | !(j <= i < k)
      ensures !r.Touching(i)
    {
      if i < j {
        assert !h.Touching(i);
      } else {
        assert !h.Touching(i + 1);
      }
    }
  }

  lemma InMemory(h: Heap, base: nat, j: nat, b: nat)
    requires h.Inv(base) && j < |h.list| && b in h.live
    ensures h.list[j] in h.mem && b in h.mem
  {
    hide Tiled;
  }

  /** free: enter the block, join it with the next one, join the previous one with it. */
  ghost function Freed(h: Heap, base: nat, j: nat, b: nat): (r: Heap)
    requires h.Inv(base) && b in h.live && Gap(h.list, j, b)
  {
    InMemory(h, base, j, b);
    Join(Join(h.Insert(j, b), j + 1), j)
  }

  /** Live blocks keep every unit: header and client data. */
  ghost predicate Kept(h: Heap, r: Heap, live: map<nat, nat>) {
    forall u :: u in h.owner && h.owner[u] in live ==>
      u in r.owner && r.owner[u] == h.owner[u] && u in h.mem && u in r.mem && r.mem[u] == h.mem[u]
  }

  /** The header of a free block is no part of a live block. */
  lemma FreeHeader(h: Heap, base: nat, i: nat)
    requires h.Inv(base) && i < |h.list|
    ensures h.list[i] in h.owner ==> h.owner[h.list[i]] == h.list[i] && h.list[i] !in h.live
  {
    hide Linked;
    assert h.list[i] in h.list;
    if h.list[i] in h.owner {
      assert h.list[i] in h.Blocks(base);
    }
  }

  lemma InsertKept(h: Heap, base: nat, j: nat, b: nat)
    requires h.Inv(base) && b in h.live && j < |h.list|
    ensures Kept(h, h.Insert(j, b), h.live - {b})
  {
    FreeHeader(h, base, j);
    assert b in h.Blocks(base);
    assert Within(h.mem, b, b) && h.owner[b] == b;
    hide Linked, Ordered;
  }

  lemma MergeKept(h: Heap, base: nat, j: nat)
    requires h.Inv(base) && j + 1 < |h.list|
    ensures Kept(h, h.Merge(j), h.live)
    ensures h.Merge(j).owner.Keys == h.owner.Keys && h.Merge(j).live == h.live
  {
    hide Tiled, Linked, Ordered;
    ListInMemory(h, base, j);
    ListInMemory(h, base, j + 1);
    FreeHeader(h, base, j);
    OwnedInMemory(h, base);
    assert h.list[j + 1] in h.list && h.list[j + 1] !in h.live;
  }

  /** A store into a live block behind its header leaves every block, free or live, as it is. */
  lemma StoreInv(h: Heap, base: nat, u: nat, x: Header)
    requires h.Inv(base) && u in h.owner && h.owner[u] in h.live && u != h.owner[u]
    ensures var r := Heap(h.mem[u := x], h.list, h.live, h.owner);
            r.Inv(base) && (h.Coalesced() ==> r.Coalesced()) && u !in h.list && u !in h.live && u in h.mem
  {
    hide Tiled, Ordered, Linked, Heap.Coalesced;
    var r := Heap(h.mem[u := x], h.list, h.live, h.owner);
    NoHeader(h, base, u);
    ListedInMemory(h, base);
    TilingTransfers(h.mem, r.mem, h.Blocks(base), h.owner, base);
    ListTransfers(h.mem, r.mem, h.list, base);
    SameTouching(h, r);
  }

  /** Behind the header of a live block there is no other header. */
  lemma NoHeader(h: Heap, base: nat, u: nat)
    requires h.Inv(base) && u in h.owner && h.owner[u] in h.live && u != h.owner[u]
    ensures u !in h.Blocks(base) && u != base && u !in h.list && u in h.mem
  {
    hide Linked, Ordered;
    assert Within(h.mem, h.owner[u], u) && base < h.owner[u];
    assert u in h.Blocks(base) ==> Within(h.mem, u, u);
  }

  /** base never touches the first block, having size 0. */
  lemma BaseApart(h: Heap, base: nat)
    requires h.Inv(base)
    ensures !h.Touching(0)
  {
  }

  lemma KeptTrans(h: Heap, m: Heap, r: Heap, live: map<nat, nat>)
    requires Kept(h, m, live) && Kept(m, r, live)
    ensures Kept(h, r, live)
  {
  }

  /** r is h without the live block b, and coalesced except perhaps at n positions from j. */
  ghost predicate Lost(h: Heap, r: Heap, base: nat, j: nat, b: nat, n: nat) {
    && r.Inv(base) && r.CoalescedExcept(j, n)
    && r.live == h.live - {b} && r.owner.Keys == h.owner.Keys && Kept(h, r, h.live - {b})
    && j < |h.list| && j < |r.list| && r.list[j] == h.list[j]
  }

  lemma InsertLost(h: Heap, base: nat, j: nat, b: nat)
    requires h.Inv(base) && h.Coalesced() && b in h.live && Gap(h.list, j, b)
    ensures Lost(h, h.Insert(j, b), base, j, b, 2)
  {
    InsertInv(h, base, j, b);
    InsertCoalesced(h, j, b);
    InsertKept(h, base, j, b);
    hide Ordered, Linked, Tiled;
    assert h.Insert(j, b).list == InsertAt(h.list, j, b);
  }

  /** Join the last pair that may touch, if it does. */
  ghost function Join(h: Heap, k: nat): (r: Heap) {
    if h.Touching(k) then h.Merge(k) else h
  }

  lemma JoinLost(h: Heap, m: Heap, base: nat, j: nat, b: nat, n: nat)
    requires Lost(h, m, base, j, b, n + 1)
    ensures Lost(h, Join(m, j + n), base, j, b, n)
  {
    hide Ordered, Linked, Tiled, Kept, Heap.LiveOk, Heap.CoalescedExcept;
    BaseApart(m, base);
    if m.Touching(j + n) {
      MergeInv(m, base, j + n);
      MergeCoalesced(m, j, n);
      MergeKept(m, base, j + n);
      KeptTrans(h, m, m.Merge(j + n), m.live);
    } else {
      OneFewer(m, j, n);
    }
  }

  lemma OneFewer(h: Heap, j: nat, n: nat)
    requires h.CoalescedExcept(j, n + 1) && !h.Touching(j + n)
    ensures h.CoalescedExcept(j, n)
  {
  }

  /** After free: the list is coalesced again, only b left the live blocks, and no live block was touched. */
  lemma FreedInv(h: Heap, base: nat, j: nat, b: nat)
    requires h.Inv(base) && h.Coalesced() && b in h.live && Gap(h.list, j, b)
    ensures Lost(h, Freed(h, base, j, b), base, j, b, 0)
  {
    hide Ordered, Linked, Tiled, Kept, Lost, Join;
    InMemory(h, base, j, b);
    InsertLost(h, base, j, b);
    JoinLost(h, h.Insert(j, b), base, j, b, 1);
    JoinLost(h, Join(h.Insert(j, b), j + 1), base, j, b, 0);
  }

  /** The block that was freed ends up in the block at position j or right behind it. */
  lemma FreedWhere(h: Heap, base: nat, j: nat, b: nat)
    requires h.Inv(base) && h.Coalesced() && b in h.live && Gap(h.list, j, b)
    ensures var r := Freed(h, base, j, b);
            && j < |r.list| && r.list[j] in r.mem && b in h.mem
            && (|| r.mem[r.list[j]].size >= h.mem[b].size
                || (j + 1 < |r.list| && r.list[j + 1] in r.mem && r.mem[r.list[j + 1]].size >= h.mem[b].size))
  {
    InMemory(h, base, j, b);
    hide Ordered, Linked, Tiled;
  }

  /* ---- malloc ---- */

  /** nu units from p, all with the same contents. */
  function Span<T>(p: nat, nu: nat, v: T): (r: map<nat, T>)
    ensures forall u :: u in r <==> p <= u < p + nu
    ensures forall u :: u in r ==> r[u] == v
  {
    if nu == 0 then map[] else Span(p, nu - 1, v)[p + nu - 1 := v]
  }

  /** An exact fit at position j leaves the list and becomes live. */
  ghost function Take(h: Heap, j: nat): (r: Heap)
    requires 1 <= j < |h.list| && h.list[j] in h.mem && h.list[j - 1] in h.mem
  {
    var p, prev := h.list[j], h.list[j - 1];
    Heap(h.mem[prev := h.mem[prev].(ptr := h.mem[p].ptr)], RemoveAt(h.list, j), h.live[p := h.mem[p].size], h.owner)
  }

  /** The last n units of the free block at position j become a live block. */
  ghost function Split(h: Heap, j: nat, n: nat): (r: Heap)
    requires j < |h.list| && h.list[j] in h.mem && n < h.mem[h.list[j]].size
    requires h.list[j] + h.mem[h.list[j]].size - n in h.mem
  {
    var p := h.list[j];
    var q := p + h.mem[p].size - n;
    Heap(h.mem[p := h.mem[p].(size := h.mem[p].size - n)][q := h.mem[q].(size := n)], h.list, h.live[q := n],
         Carve(h.owner, q, n))
  }

  /** The units of [q, q + n) go to a block of their own. */
  ghost function Carve(owner: map<nat, nat>, q: nat, n: nat): (r: map<nat, nat>) {
    map u | u in owner :: if q <= u < q + n then q else owner[u]
  }

  /** Memory from sbrk: nu fresh units at p, as one live block. */
  ghost function Grow(h: Heap, p: nat, nu: nat): (r: Heap) {
    Heap((h.mem + Span(p, nu, Header(0, 0)))[p := Header(0, nu)], h.list, h.live[p := nu], h.owner + Span(p, nu, p))
  }

  lemma TakeInv(h: Heap, base: nat, j: nat)
    requires h.Inv(base) && h.Coalesced() && 1 <= j < |h.list|
    ensures Take(h, j).Inv(base)
  {
    hide Tiled;
    var r := Take(h, j);
    var prev := h.list[j - 1];
    RemoveLinked(h.mem, h.list, base, j, r.mem[prev]);
    TakeOrdered(h.mem, h.list, j, r.mem[prev]);
    TakeBlocks(h, base, j);
    TilingTransfers(h.mem, r.mem, h.Blocks(base), h.owner, base);
  }

  lemma TakeOrdered(mem: map<nat, Header>, list: seq<nat>, j: nat, hd: Header)
    requires Ordered(mem, list) && 1 <= j < |list| && hd.size == mem[list[j - 1]].size
    ensures Ordered(mem[list[j - 1] := hd], RemoveAt(list, j))
  {
  }

  lemma TakeBlocks(h: Heap, base: nat, j: nat)
    requires h.Inv(base) && 1 <= j < |h.list|
    ensures Take(h, j).Blocks(base) == h.Blocks(base) && Take(h, j).LiveOk()
  {
    hide Tiled, Linked, Ordered;
    ListInMemory(h, base, j);
    ListInMemory(h, base, j - 1);
    var r := Take(h, j);
    assert h.list[j] in h.list && h.list[j - 1] in h.list;
    forall a: nat
      ensures a in r.list <==> a in h.list && a != h.list[j]
    {
      RemoveAtMembers(h.mem, h.list, j, a);
    }
  }

  lemma TakeCoalesced(h: Heap, base: nat, j: nat)
    requires h.Inv(base) && h.Coalesced() && 1 <= j < |h.list|
    ensures Take(h, j).Coalesced()
  {
    hide Tiled, Linked;
    var r := Take(h, j);
    forall i: nat
      ensures !r.Touching(i)
    {
      assert !h.Touching(i) && !h.Touching(i + 1);
      assert i == j - 1 && j + 1 < |h.list| ==> h.list[j - 1] + h.mem[h.list[j - 1]].size <= h.list[j] < h.list[j + 1];
    }
  }

  lemma TakeKept(h: Heap, base: nat, j: nat)
    requires h.Inv(base) && 1 <= j < |h.list|
    ensures Kept(h, Take(h, j), h.live)
  {
    hide Tiled, Linked, Ordered;
    ListInMemory(h, base, j);
    ListInMemory(h, base, j - 1);
    FreeHeader(h, base, j - 1);
    OwnedInMemory(h, base);
  }

  lemma ListInMemory(h: Heap, base: nat, j: nat)
    requires h.Inv(base) && j < |h.list|
    ensures h.list[j] in h.mem && (j > 0 ==> base < h.list[j])
  {
    hide Tiled;
    assert h.list[0] == base;
  }

  lemma OwnedInMemory(h: Heap, base: nat)
    requires h.Inv(base)
    ensures h.owner.Keys <= h.mem.Keys
  {
  }

  /* splitting */

  lemma SplitTiled(mem: map<nat, Header>, blocks: set<nat>, owner: map<nat, nat>, base: nat, p: nat, q: nat, n: nat)
    requires Tiled(mem, blocks, owner, base) && p in blocks && p in mem
    requires 1 <= n < mem[p].size && q == p + mem[p].size - n
    ensures q in owner && owner[q] == p && q in mem && q !in blocks
    ensures Tiled(mem[p := mem[p].(size := mem[p].size - n)][q := mem[q].(size := n)], blocks + {q},
                  Carve(owner, q, n), base)
  {
    assert Within(mem, p, q);
    var mem' := mem[p := mem[p].(size := mem[p].size - n)][q := mem[q].(size := n)];
    var owner' := Carve(owner, q, n);
    assert Within(mem, q, q) ==> q !in blocks;
    assert forall u: nat :: Within(mem', p, u) <==> Within(mem, p, u) && u < q;
    assert forall u: nat :: Within(mem', q, u) <==> Within(mem, p, u) && q <= u;
    assert forall a: nat, u: nat :: a != p && a != q ==> (Within(mem', a, u) <==> Within(mem, a, u));
  }

  lemma SplitOrdered(mem: map<nat, Header>, list: seq<nat>, base: nat, j: nat, q: nat, n: nat)
    requires Ordered(mem, list) && Linked(mem, list, base) && j < |list| && n < mem[list[j]].size
    requires q in mem && q !in list
    ensures var mem' := mem[list[j] := mem[list[j]].(size := mem[list[j]].size - n)][q := mem[q].(size := n)];
            Ordered(mem', list) && Linked(mem', list, base)
  {
    assert forall i :: 0 <= i < |list| ==> list[i] in list;
  }

  lemma SplitPlace(h: Heap, base: nat, j: nat, n: nat)
    requires h.Inv(base) && 1 <= j < |h.list| && h.list[j] in h.mem && 1 <= n < h.mem[h.list[j]].size
    ensures var q := h.list[j] + h.mem[h.list[j]].size - n;
            && h.list[j] in h.Blocks(base) && q in h.mem && q !in h.Blocks(base) && q !in h.live && q !in h.list
            && q != base
            && q in h.owner && h.owner[q] == h.list[j]
            && Tiled(h.mem[h.list[j] := h.mem[h.list[j]].(size := h.mem[h.list[j]].size - n)]
                          [q := h.mem[q].(size := n)],
                     h.Blocks(base) + {q}, Carve(h.owner, q, n), base)
  {
    hide Tiled, Ordered, Linked;
    ListInMemory(h, base, j);
    assert h.list[j] in h.list;
    SplitTiled(h.mem, h.Blocks(base), h.owner, base, h.list[j], h.list[j] + h.mem[h.list[j]].size - n, n);
  }

  lemma SplitInv(h: Heap, base: nat, j: nat, n: nat)
    requires h.Inv(base) && 1 <= j < |h.list| && h.list[j] in h.mem && 1 <= n < h.mem[h.list[j]].size
    ensures h.list[j] + h.mem[h.list[j]].size - n in h.mem
    ensures Split(h, j, n).Inv(base)
  {
    hide Tiled, Ordered, Linked;
    var q := h.list[j] + h.mem[h.list[j]].size - n;
    ListInMemory(h, base, j);
    ListInMemory(h, base, 0);
    BaseFirst(h, base);
    SplitPlace(h, base, j, n);
    SplitOrdered(h.mem, h.list, base, j, q, n);
    assert Split(h, j, n).Blocks(base) == h.Blocks(base) + {q};
  }

  lemma BaseFirst(h: Heap, base: nat)
    requires h.Inv(base)
    ensures |h.list| > 0 && h.list[0] == base
  {
  }

  lemma SplitCoalesced(h: Heap, base: nat, j: nat, n: nat)
    requires h.Inv(base) && h.Coalesced() && 1 <= j < |h.list| && h.list[j] in h.mem && 1 <= n < h.mem[h.list[j]].size
    requires h.list[j] + h.mem[h.list[j]].size - n in h.mem
    requires h.list[j] + h.mem[h.list[j]].size - n !in h.list
    ensures Split(h, j, n).Coalesced()
  {
    hide Tiled, Linked;
    var r := Split(h, j, n);
    forall i: nat
      ensures !r.Touching(i)
    {
      assert !h.Touching(i);
      assert i + 1 < |h.list| ==> h.list[i] in h.list && h.list[i] + h.mem[h.list[i]].size <= h.list[i + 1];
    }
  }

  lemma SplitKept(h: Heap, base: nat, j: nat, n: nat)
    requires h.Inv(base) && 1 <= j < |h.list| && h.list[j] in h.mem && 1 <= n < h.mem[h.list[j]].size
    requires h.list[j] + h.mem[h.list[j]].size - n in h.mem
    ensures Kept(h, Split(h, j, n), h.live)
    ensures Split(h, j, n).owner.Keys == h.owner.Keys
  {
    hide Ordered, Linked, Tiled;
    var p := h.list[j];
    SplitPlace(h, base, j, n);
    FreeHeader(h, base, j);
    OwnedInMemory(h, base);
    UnitsOf(h.mem, h.Blocks(base), h.owner, base, p);
    assert p in h.list && p !in h.live;
  }

  lemma UnitsOf(mem: map<nat, Header>, blocks: set<nat>, owner: map<nat, nat>, base: nat, p: nat)
    requires Tiled(mem, blocks, owner, base) && p in blocks && p in mem
    ensures forall u :: u in owner && p <= u < p + mem[p].size ==> owner[u] == p
  {
    assert forall u :: u in owner && p <= u < p + mem[p].size ==> Within(mem, p, u);
  }

  /* memory from sbrk */

  lemma GrowTiled(mem: map<nat, Header>, blocks: set<nat>, owner: map<nat, nat>, base: nat, p: nat, nu: nat)
    requires Tiled(mem, blocks, owner, base) && base < p && 1 <= nu
    requires forall u :: u in mem ==> u < p
    ensures Tiled((mem + Span(p, nu, Header(0, 0)))[p := Header(0, nu)], blocks + {p}, owner + Span(p, nu, p), base)
  {
    var mem' := (mem + Span(p, nu, Header(0, 0)))[p := Header(0, nu)];
    assert forall u: nat :: Within(mem', p, u) <==> p <= u < p + nu;
    forall a: nat, u: nat | a in blocks
      ensures a < p && (Within(mem', a, u) <==> Within(mem, a, u)) && (Within(mem, a, u) ==> u < p)
    {
      assert Within(mem, a, a);
    }
  }

  lemma ListTransfers(mem: map<nat, Header>, mem': map<nat, Header>, list: seq<nat>, base: nat)
    requires Ordered(mem, list) && Linked(mem, list, base)
    requires forall a :: a in list ==> a in mem && a in mem' && mem'[a] == mem[a]
    ensures Ordered(mem', list) && Linked(mem', list, base)
  {
  }

  lemma ListedInMemory(h: Heap, base: nat)
    requires h.Inv(base)
    ensures base in h.list && forall a :: a in h.list ==> a in h.mem
  {
  }

  /** Whether free blocks touch depends on their headers alone. */
  lemma SameTouching(h: Heap, r: Heap)
    requires r.list == h.list && forall a :: a in h.list ==> a in h.mem && a in r.mem && r.mem[a] == h.mem[a]
    ensures h.Coalesced() ==> r.Coalesced()
  {
    if h.Coalesced() {
      forall i: nat
        ensures !r.Touching(i)
      {
        assert !h.Touching(i);
      }
    }
  }

  lemma GrowInv(h: Heap, base: nat, p: nat, nu: nat)
    requires h.Inv(base) && h.Coalesced() && base < p && 1 <= nu
    requires forall u :: u in h.mem ==> u < p
    ensures Grow(h, p, nu).Inv(base) && Grow(h, p, nu).Coalesced()
  {
    hide Tiled, Ordered, Linked, Heap.Coalesced;
    var r := Grow(h, p, nu);
    assert forall u :: u in h.mem ==> u in r.mem && r.mem[u] == h.mem[u];
    ListedInMemory(h, base);
    ListTransfers(h.mem, r.mem, h.list, base);
    SameTouching(h, r);
    assert p !in h.list && p !in h.live;
    BaseFirst(h, base);
    assert r.Blocks(base) == h.Blocks(base) + {p};
    GrowTiled(h.mem, h.Blocks(base), h.owner, base, p, nu);
  }

  lemma GrowKept(h: Heap, base: nat, p: nat, nu: nat)
    requires h.Inv(base) && forall u :: u in h.mem ==> u < p
    ensures Kept(h, Grow(h, p, nu), h.live)
    ensures h.owner.Keys <= Grow(h, p, nu).owner.Keys && p !in h.live
  {
    hide Tiled, Ordered, Linked;
    OwnedInMemory(h, base);
  }
}
