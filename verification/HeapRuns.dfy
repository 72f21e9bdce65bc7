/**
Any client of malloc and free that keeps to its own blocks.  The client names its blocks; the
reference keeps, for every block it holds, the units it has written.  Over every run each unit
reads back what was last written to it, whatever was allocated and freed in between.
*/
module HeapRuns {
  import opened UserHeap
  import opened Umalloc

  datatype Op =
    | Alloc(id: nat, nbytes: nat)
    | Release(id: nat)
    | Put(id: nat, i: nat, x: Header)
    | Get(id: nat, i: nat)

  datatype Answer = Null | Given | Value(x: Header) | Silent | Skipped

  /** A block as its client sees it: how many units it may use, and those it has written. */
  datatype Cells = Cells(size: nat, vals: map<nat, Header>)

  /** A client frees only its blocks, writes only inside them and reads only what it has written. */
  predicate Allowed(c: map<nat, Cells>, op: Op) {
    match op
    case Alloc(id, _) => id !in c
    case Release(id) => id in c
    case Put(id, i, _) => id in c && i < c[id].size
    case Get(id, i) => id in c && i in c[id].vals
  }

  /** `granted` tells whether an allocation succeeded. */
  function Next(c: map<nat, Cells>, op: Op, granted: bool): (r: map<nat, Cells>)
    requires Allowed(c, op)
  {
    match op
    case Alloc(id, nbytes) => if granted then c[id := Cells(Units(nbytes) - 1, map[])] else c
    case Release(id) => c - {id}
    case Put(id, i, x) => c[id := Cells(c[id].size, c[id].vals[i := x])]
    case Get(_, _) => c
  }

  function Reply(c: map<nat, Cells>, op: Op, granted: bool): (r: Answer) {
    if !Allowed(c, op) then Skipped else
    match op
    case Alloc(_, _) => if granted then Given else Null
    case Release(_) => Silent
    case Put(_, _, _) => Silent
    case Get(id, i) => Value(c[id].vals[i])
  }

  function Exec(ops: seq<Op>, granted: seq<bool>): (c: map<nat, Cells>)
    requires |granted| == |ops|
  {
    if ops == [] then map[] else
    var c := Exec(ops[..|ops| - 1], granted[..|ops| - 1]);
    if Allowed(c, ops[|ops| - 1]) then Next(c, ops[|ops| - 1], granted[|ops| - 1]) else c
  }

  function Answers(ops: seq<Op>, granted: seq<bool>): (r: seq<Answer>)
    requires |granted| == |ops|
    ensures |r| == |ops|
  {
    if ops == [] then [] else
    Answers(ops[..|ops| - 1], granted[..|ops| - 1])
    + [Reply(Exec(ops[..|ops| - 1], granted[..|ops| - 1]), ops[|ops| - 1], granted[|ops| - 1])]
  }

  /* ---- the heap behind it ---- */

  /** The client's block begins at p, behind its header, and holds what was written. */
  ghost predicate Held(h: Heap, p: nat, cells: Cells) {
    && p >= 1 && p - 1 in h.live && h.live[p - 1] == cells.size + 1
    && forall i :: i in cells.vals ==> i < cells.size && p + i in h.mem && h.mem[p + i] == cells.vals[i]
  }

  /** The live blocks are exactly the client's, each under one name. */
  ghost predicate Agrees(h: Heap, at: map<nat, nat>, c: map<nat, Cells>) {
    && at.Keys == c.Keys
    && (forall id :: id in c ==> Held(h, at[id], c[id]))
    && Named(at, h.live.Keys)
  }

  /** Different names stand for different blocks, and every block has a name. */
  ghost predicate Named(at: map<nat, nat>, blocks: set<nat>) {
    && (forall id, jd :: id in at && jd in at && at[id] == at[jd] ==> id == jd)
    && (forall b :: b in blocks ==> HasName(at, b))
  }

  ghost predicate HasName(at: map<nat, nat>, b: nat) {
    exists id :: id in at && at[id] == b + 1
  }

  lemma NamedMore(at: map<nat, nat>, blocks: set<nat>, id: nat, p: nat)
    requires Named(at, blocks) && id !in at && p >= 1 && forall jd :: jd in at ==> at[jd] != p
    ensures Named(at[id := p], blocks + {p - 1})
  {
    var r := at[id := p];
    forall b | b in blocks + {p - 1}
      ensures HasName(r, b)
    {
      if b == p - 1 {
        assert r[id] == b + 1;
      } else {
        assert HasName(at, b);
        var jd :| jd in at && at[jd] == b + 1;
        assert r[jd] == b + 1;
      }
    }
  }

  lemma NamedLess(at: map<nat, nat>, blocks: set<nat>, id: nat)
    requires Named(at, blocks) && id in at && at[id] >= 1
    ensures Named(at - {id}, blocks - {at[id] - 1})
  {
    forall b | b in blocks - {at[id] - 1}
      ensures HasName(at - {id}, b)
    {
      assert HasName(at, b);
      var jd :| jd in at && at[jd] == b + 1;
      assert (at - {id})[jd] == b + 1;
    }
  }

  lemma NamedApart(at: map<nat, nat>, blocks: set<nat>, id: nat, jd: nat)
    requires Named(at, blocks) && id in at && jd in at && id != jd
    ensures at[id] != at[jd]
  {
  }

  /** A unit of a live block behind the header belongs to that block. */
  lemma CellOwned(h: Heap, base: nat, b: nat, i: nat)
    requires h.Inv(base) && b in h.live && i + 1 < h.live[b]
    ensures b + 1 + i in h.owner && h.owner[b + 1 + i] == b && b + 1 + i in h.mem
  {
    hide Ordered, Linked;
    assert b in h.Blocks(base) && Within(h.mem, b, b + 1 + i);
  }

  lemma KeptHeld(h: Heap, r: Heap, base: nat, live: map<nat, nat>, p: nat, cells: Cells)
    requires h.Inv(base) && Held(h, p, cells) && Kept(h, r, live)
    requires p - 1 in live && p - 1 in r.live && r.live[p - 1] == h.live[p - 1]
    ensures Held(r, p, cells)
  {
    hide Heap.Inv, Kept;
    forall i | i in cells.vals
      ensures p + i in r.mem && r.mem[p + i] == h.mem[p + i]
    {
      CellOwned(h, base, p - 1, i);
      KeptUnit(h, r, live, p + i);
    }
  }

  lemma KeptUnit(h: Heap, r: Heap, live: map<nat, nat>, u: nat)
    requires Kept(h, r, live) && u in h.owner && h.owner[u] in live
    ensures u in h.mem && u in r.mem && r.mem[u] == h.mem[u]
  {
  }

  lemma Allocated(h: Heap, r: Heap, base: nat, at: map<nat, nat>, c: map<nat, Cells>, id: nat, p: nat, n: nat)
    requires Agrees(h, at, c) && id !in c && (c != map[] ==> h.Inv(base)) && Kept(h, r, h.live)
    requires p >= 1 && p - 1 !in h.live && 1 <= n && r.live == h.live[p - 1 := n]
    ensures Agrees(r, at[id := p], c[id := Cells(n - 1, map[])])
  {
    hide Heap.Inv, Kept, Held, Named;
    forall jd | jd in c
      ensures Held(r, at[jd], c[jd]) && at[jd] != p
    {
      HeldLive(h, at[jd], c[jd]);
      KeptHeld(h, r, base, h.live, at[jd], c[jd]);
    }
    NewHeld(r, p, n);
    NamedMore(at, h.live.Keys, id, p);
    assert r.live.Keys == h.live.Keys + {p - 1};
  }

  lemma NewHeld(r: Heap, p: nat, n: nat)
    requires p >= 1 && 1 <= n && p - 1 in r.live && r.live[p - 1] == n
    ensures Held(r, p, Cells(n - 1, map[]))
  {
  }

  lemma HeldLive(h: Heap, p: nat, cells: Cells)
    requires Held(h, p, cells)
    ensures p >= 1 && p - 1 in h.live && h.live[p - 1] == cells.size + 1
  {
  }

  /** A refused allocation changes nothing that the client can see. */
  lemma Unmoved(h: Heap, r: Heap, base: nat, at: map<nat, nat>, c: map<nat, Cells>)
    requires Agrees(h, at, c) && (c != map[] ==> h.Inv(base)) && Kept(h, r, h.live) && r.live == h.live
    ensures Agrees(r, at, c)
  {
    hide Heap.Inv, Kept, Held, Named;
    forall jd | jd in c
      ensures Held(r, at[jd], c[jd])
    {
      HeldLive(h, at[jd], c[jd]);
      KeptHeld(h, r, base, h.live, at[jd], c[jd]);
    }
  }

  lemma Released(h: Heap, r: Heap, base: nat, at: map<nat, nat>, c: map<nat, Cells>, id: nat)
    requires Agrees(h, at, c) && id in c && h.Inv(base) && at[id] >= 1
    requires r.live == h.live - {at[id] - 1} && Kept(h, r, r.live)
    ensures Agrees(r, at - {id}, c - {id})
  {
    hide Heap.Inv, Kept, Held, Named;
    forall jd | jd in c && jd != id
      ensures Held(r, at[jd], c[jd])
    {
      HeldLive(h, at[jd], c[jd]);
      NamedApart(at, h.live.Keys, id, jd);
      KeptHeld(h, r, base, r.live, at[jd], c[jd]);
    }
    NamedLess(at, h.live.Keys, id);
    assert r.live.Keys == h.live.Keys - {at[id] - 1};
  }

  lemma Written(h: Heap, base: nat, at: map<nat, nat>, c: map<nat, Cells>, id: nat, i: nat, x: Header)
    requires Agrees(h, at, c) && id in c && i < c[id].size && h.Inv(base)
    ensures Agrees(Heap(h.mem[at[id] + i := x], h.list, h.live, h.owner), at,
                   c[id := Cells(c[id].size, c[id].vals[i := x])])
  {
    hide Heap.Inv, Held, Named;
    var r := Heap(h.mem[at[id] + i := x], h.list, h.live, h.owner);
    forall jd | jd in c
      ensures Held(r, at[jd], if jd == id then Cells(c[id].size, c[id].vals[i := x]) else c[jd])
    {
      if jd == id {
        WrittenHeld(h, at[id], c[id], i, x);
      } else {
        NamedApart(at, h.live.Keys, id, jd);
        OtherHeld(h, base, at[id], c[id], at[jd], c[jd], i, x);
      }
    }
  }

  lemma WrittenHeld(h: Heap, p: nat, cells: Cells, i: nat, x: Header)
    requires Held(h, p, cells) && i < cells.size
    ensures Held(Heap(h.mem[p + i := x], h.list, h.live, h.owner), p, Cells(cells.size, cells.vals[i := x]))
  {
  }

  /** Blocks of different names share no unit. */
  lemma OtherHeld(h: Heap, base: nat, p: nat, cells: Cells, q: nat, others: Cells, i: nat, x: Header)
    requires h.Inv(base) && Held(h, p, cells) && Held(h, q, others) && p != q && i < cells.size
    ensures Held(Heap(h.mem[p + i := x], h.list, h.live, h.owner), q, others)
  {
    hide Heap.Inv;
    CellOwned(h, base, p - 1, i);
    forall j | j in others.vals
      ensures q + j != p + i
    {
      CellOwned(h, base, q - 1, j);
    }
  }

  lemma ValidHeap(a: Allocator, at: map<nat, nat>, c: map<nat, Cells>)
    requires a.Valid() && Agrees(a.State(), at, c)
    ensures c != map[] ==> a.freep != 0 && a.State().Inv(a.base)
  {
    hide Heap.Inv, Heap.Coalesced, Extent;
    if c != map[] {
      var id :| id in c;
      assert at[id] - 1 in a.live;
    }
  }

  /** One operation; the map tells where the client's blocks are. */
  method Do(a: Allocator, op: Op, at: map<nat, nat>, c: map<nat, Cells>)
    returns (granted: bool, answer: Answer, at': map<nat, nat>)
    requires a.Valid() && Agrees(a.State(), at, c) && Allowed(c, op)
    modifies a
    ensures a.Valid() && Agrees(a.State(), at', Next(c, op, granted)) && answer == Reply(c, op, granted)
    ensures a.refusals == old(a.refusals) + if granted then 0 else 1
  {
    hide Heap.Inv, Heap.Coalesced, Kept, Extent, Held, Fits, Agrees;
    ValidHeap(a, at, c);
    ghost var h := a.State();
    granted, at' := true, at;
    match op
    case Alloc(id, nbytes) =>
      var p := a.Malloc(nbytes);
      if p == 0 {
        Unmoved(h, a.State(), a.base, at, c);
        return false, Null, at;
      }
      Allocated(h, a.State(), a.base, at, c, id, p, Units(nbytes));
      return true, Given, at[id := p];
    case Release(id) =>
      AgreesAt(h, at, c, id);
      HeldLive(h, at[id], c[id]);
      a.Free(at[id]);
      Released(h, a.State(), a.base, at, c, id);
      return true, Silent, at - {id};
    case Put(id, i, x) =>
      AgreesAt(h, at, c, id);
      HeldLive(h, at[id], c[id]);
      CellOwned(h, a.base, at[id] - 1, i);
      Written(h, a.base, at, c, id, i, x);
      a.Store(at[id] + i, x);
      answer := Silent;
    case Get(id, i) =>
      AgreesAt(h, at, c, id);
      HeldCell(h, at[id], c[id], i);
      answer := Value(a.mem[at[id] + i]);
  }

  lemma AgreesAt(h: Heap, at: map<nat, nat>, c: map<nat, Cells>, id: nat)
    requires Agrees(h, at, c) && id in c
    ensures id in at && Held(h, at[id], c[id])
  {
  }

  lemma HeldCell(h: Heap, p: nat, cells: Cells, i: nat)
    requires Held(h, p, cells) && i in cells.vals
    ensures p + i in h.mem && h.mem[p + i] == cells.vals[i]
  {
  }

  /** How many allocations were refused. */
  function Refusals(granted: seq<bool>): (n: nat) {
    if granted == [] then 0 else Refusals(granted[..|granted| - 1]) + if granted[|granted| - 1] then 0 else 1
  }

  /**
  Any sequence of operations, begun with no live block: every answer is that of the reference,
  and at the end the live blocks are those that the reference still holds, with their contents.
  Allocations fail only where sbrk refused.
  */
  method Run(a: Allocator, ops: seq<Op>) returns (granted: seq<bool>, answers: seq<Answer>, at: map<nat, nat>)
    requires a.Valid() && a.live == map[]
    modifies a
    ensures a.Valid() && |granted| == |ops| && answers == Answers(ops, granted)
    ensures Agrees(a.State(), at, Exec(ops, granted))
    ensures a.refusals == old(a.refusals) + Refusals(granted)
  {
    hide Held, Reply, Next, Allocator.Valid;
    granted, answers, at := [], [], map[];
    var c: map<nat, Cells> := map[];
    for k := 0 to |ops|
      invariant |granted| == k && a.Valid() && c == Exec(ops[..k], granted) && answers == Answers(ops[..k], granted)
      invariant Agrees(a.State(), at, c) && a.refusals == old(a.refusals) + Refusals(granted)
    {
      var g, answer := true, Skipped;
      ghost var before := c;
      if Allowed(c, ops[k]) {
        g, answer, at := Do(a, ops[k], at, c);
        c := Next(c, ops[k], g);
      } else {
        SkippedReply(c, ops[k]);
      }
      assert ops[..k + 1][..k] == ops[..k] && (granted + [g])[..k] == granted;
      granted, answers := granted + [g], answers + [answer];
    }
    assert ops[..|ops|] == ops;
  }

  lemma SkippedReply(c: map<nat, Cells>, op: Op)
    requires !Allowed(c, op)
    ensures Reply(c, op, true) == Skipped
  {
  }
}
