/**
What directories cost in blocks.  An entry is sixteen bytes of the directory's file; reading it or
writing it takes the blocks that the inode lacks for them, as `FileRuns` has it for all files.
*/
module Rooms {
  import opened Prelude
  import opened Blocks
  import opened Ownership
  import opened Space

  const DIRENT := 16

  /** As many entries as the largest file holds. */
  const MAXENTRIES := 4480

  /** The slots of each inode that hold a block, and how many blocks are free. */
  datatype Room = Room(slots: seq<set<nat>>, free: nat)

  /** The slots that entries [a, b) want. */
  function Span(a: nat, b: nat): (r: set<nat>) {
    if a < b then Wanted(DIRENT * a, DIRENT * (b - a)) else {}
  }

  function Lack(room: Room, d: nat, a: nat, b: nat): (n: nat)
    requires d < |room.slots|
  {
    |Span(a, b) - room.slots[d]|
  }

  /** The entries can be reached: the blocks that are lacking are free. */
  predicate Affords(room: Room, d: nat, a: nat, b: nat)
    requires d < |room.slots|
  {
    Lack(room, d, a, b) <= room.free
  }

  function Reached(room: Room, d: nat, a: nat, b: nat): (r: Room)
    requires d < |room.slots| && Affords(room, d, a, b)
    ensures |r.slots| == |room.slots|
  {
    Room(room.slots[d := room.slots[d] + Span(a, b)], room.free - Lack(room, d, a, b))
  }

  /** Everything that inode i holds goes back. */
  function Emptied(room: Room, i: nat): (r: Room)
    requires i < |room.slots|
    ensures |r.slots| == |room.slots|
  {
    Room(room.slots[i := {}], room.free + |room.slots[i]|)
  }

  lemma SpanSplit(a: nat, b: nat, c: nat)
    requires a <= b <= c
    ensures Span(a, c) == Span(a, b) + Span(b, c)
  {
    hide Wanted;
    if a < b < c {
      WantedSplit(DIRENT * a, DIRENT * (b - a), DIRENT * (c - b));
    }
  }

  lemma ReachedNone(room: Room, d: nat, a: nat)
    requires d < |room.slots|
    ensures Affords(room, d, a, a) && Reached(room, d, a, a) == room
  {
    assert {} - room.slots[d] == {};
  }

  /** Reaching some entries and then the next ones is reaching all of them. */
  lemma ReachedMore(room: Room, d: nat, a: nat, b: nat, c: nat)
    requires d < |room.slots| && a <= b <= c && Affords(room, d, a, b)
    ensures Affords(Reached(room, d, a, b), d, b, c) <==> Affords(room, d, a, c)
    ensures Affords(room, d, a, c) ==> Reached(Reached(room, d, a, b), d, b, c) == Reached(room, d, a, c)
  {
    hide Span;
    SpanSplit(a, b, c);
    CostSplit(room.slots[d], Span(a, b), Span(b, c));
    var s := room.slots[d];
    assert s + Span(a, b) + Span(b, c) == s + Span(a, c);
    assert room.slots[d := s + Span(a, b)][d := s + Span(a, c)] == room.slots[d := s + Span(a, c)];
  }

  lemma AffordsLess(room: Room, d: nat, a: nat, b: nat, c: nat)
    requires d < |room.slots| && a <= b <= c && Affords(room, d, a, c)
    ensures Affords(room, d, a, b)
  {
    hide Span;
    SpanSplit(a, b, c);
    SubsetSize(Span(a, b) - room.slots[d], Span(a, c) - room.slots[d]);
  }

  /** What has been reached can be reached again for nothing. */
  lemma ReachedAgain(room: Room, d: nat, a: nat, b: nat, k: nat, l: nat)
    requires d < |room.slots| && a <= k <= l <= b && Affords(room, d, a, b)
    ensures var r := Reached(room, d, a, b); Affords(r, d, k, l) && Reached(r, d, k, l) == r
  {
    hide Span;
    SpanSplit(a, k, b);
    SpanSplit(k, l, b);
    var r := Reached(room, d, a, b);
    assert Span(k, l) - r.slots[d] == {};
    assert r.slots[d] + Span(k, l) == r.slots[d];
    assert r.slots[d := r.slots[d]] == r.slots;
  }

  /* ---- directories without holes ---- */

  /** The inode holds exactly the slots of its first n entries. */
  predicate Compact(room: Room, d: nat, n: nat) {
    d < |room.slots| && room.slots[d] == Span(0, n)
  }

  /** Where there are no holes, reading costs nothing. */
  lemma CompactReads(room: Room, d: nat, n: nat, a: nat, b: nat)
    requires Compact(room, d, n) && a <= b <= n
    ensures Affords(room, d, a, b) && Reached(room, d, a, b) == room
  {
    hide Span;
    SpanSplit(0, a, n);
    SpanSplit(a, b, n);
    assert Span(a, b) - room.slots[d] == {};
    assert room.slots[d] + Span(a, b) == room.slots[d];
    assert room.slots[d := room.slots[d]] == room.slots;
  }

  /** What one more entry costs: a block at every 32nd, and the indirect block once. */
  function Price(n: nat): (c: nat) {
    if n % 32 != 0 then 0 else if n == 384 then 2 else 1
  }

  lemma NextEntryCost(room: Room, d: nat, n: nat)
    requires Compact(room, d, n) && n < MAXENTRIES
    ensures Lack(room, d, 0, n + 1) == Price(n)
    ensures Affords(room, d, 0, n + 1) ==> Compact(Reached(room, d, 0, n + 1), d, n + 1)
  {
    SpanSplit(0, n, n + 1);
    OneEntry(n);
    var more := Span(0, n + 1) - Span(0, n);
    if n % 32 != 0 {
      assert more == {};
    } else if n == 384 {
      assert more == {FileSlot(12), NDIRECT as nat};
    } else {
      assert more == {FileSlot(n / 32)};
    }
    assert room.slots[d] + Span(0, n + 1) == Span(0, n + 1);
  }

  /** An entry lies in one block. */
  lemma OneEntry(n: nat)
    requires n < MAXENTRIES
    ensures Span(n, n + 1) == PathSlots(n / 32)
    ensures forall s :: s in Span(0, n) <==> 0 <= s < SLOTS && Wants(0, DIRENT * n, s)
  {
    hide Wanted;
    WantedOne(DIRENT * n, DIRENT);
    assert DIRENT * n / BSIZE == n / 32;
    SpanMember(n);
  }

  lemma SpanMember(n: nat)
    ensures forall s :: s in Span(0, n) <==> 0 <= s < SLOTS && Wants(0, DIRENT * n, s)
  {
  }

  /** Entries up to the end of the block beyond the last one want no more, unless that block is one more. */
  lemma WholeBlocks(used: nat)
    requires (used / 32 + 1) * 32 <= MAXENTRIES
    ensures Span(0, (used / 32 + 1) * 32) == Span(0, used) <==> used % 32 != 0
  {
    var n := (used / 32 + 1) * 32;
    OneEntry(used);
    SpanMember(n);
    hide Span;
    if used % 32 == 0 {
      SpanSplit(0, used, n);
      SpanSplit(used, used + 1, n);
      assert FileSlot(used / 32) in Span(0, n) && FileSlot(used / 32) !in Span(0, used);
    } else {
      assert Span(0, n) == Span(0, used);
    }
  }

  /** The two dots of a new directory take one block. */
  lemma DotsCost(room: Room, d: nat)
    requires d < |room.slots| && room.slots[d] == {}
    ensures Lack(room, d, 0, 2) == 1
  {
    WantedOne(0, 32);
    assert Span(0, 2) - {} == {0 as nat};
  }
}
