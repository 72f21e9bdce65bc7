/**
A directory can outlive its parent: a process that stands in a/b keeps b while first b and then a
are removed.  The ".." of b then leads to a free inode, and create of ".." in b panics.
*/
module Removed {
  import opened Prelude
  import opened Rooms
  import opened LinkCounts
  import opened Directories
  import opened Compactness

  /** Two dots, and beyond them exactly the given entry at k. */
  predicate OneEntry(e: seq<Dirent>, k: nat, de: Dirent) {
    && |e| > k >= 2 && e[0].name == "." && e[1].name == ".." && e[k] == de
    && forall l :: 2 <= l < |e| && l != k ==> e[l].inum == 0
  }

  /** A volume of four inodes; a and b are the two that are neither 0 nor the root. */
  predicate Four(s: State, a: nat, b: nat) {
    && |s.ino| == 4 && 2 <= a < 4 && 2 <= b < 4 && a != b && s.pending == multiset{}
  }

  ghost predicate OnlyRoot(s: State) {
    && |s.ino| == 4 && s.pending == multiset{} && IsDir(s, ROOTINO) && s.ino[2].typ == 0 && s.ino[3].typ == 0
    && s.ino[ROOTINO].nlink == 1 && |s.ino[ROOTINO].entries| > 2
    && s.ino[ROOTINO].entries[0].name == "." && s.ino[ROOTINO].entries[1].name == ".."
    && forall k :: 2 <= k < |s.ino[ROOTINO].entries| ==> s.ino[ROOTINO].entries[k].inum == 0
  }

  ghost predicate HasA(s: State, a: nat, b: nat, k: nat) {
    && Four(s, a, b) && IsDir(s, ROOTINO) && s.ino[ROOTINO].nlink == 2
    && OneEntry(s.ino[ROOTINO].entries, k, Dirent(a, "a"))
  }

  ghost predicate MadeA(s: State, a: nat, b: nat, k: nat) {
    HasA(s, a, b, k) && s.ino[a] == Inode(T_DIR, 1, [Dirent(a, "."), Dirent(ROOTINO, "..")]) && s.ino[b].typ == 0
  }

  ghost predicate MadeB(s: State, a: nat, b: nat, k: nat) {
    && HasA(s, a, b, k) && s.ino[a] == Inode(T_DIR, 2, [Dirent(a, "."), Dirent(ROOTINO, ".."), Dirent(b, "b")])
    && s.ino[b] == Inode(T_DIR, 1, [Dirent(b, "."), Dirent(a, "..")])
  }

  ghost predicate GoneB(s: State, a: nat, b: nat, k: nat) {
    && HasA(s, a, b, k) && s.ino[a] == Inode(T_DIR, 1, [Dirent(a, "."), Dirent(ROOTINO, ".."), Dirent(0, "")])
    && s.ino[b] == Inode(T_DIR, 0, [Dirent(b, "."), Dirent(a, "..")])
  }

  lemma Start()
    ensures OnlyRoot(State(MkfsInodes(4, []), multiset{}))
  {
    assert |MkfsRoot([])| == 32;
  }

  lemma MakeA(s: State, k: nat, a: nat)
    requires OnlyRoot(s) && Vacant(s, ROOTINO, k) && 0 < a < 4 && s.ino[a].typ == 0
    ensures 2 <= a && MadeA(Created(s, ROOTINO, k, "a", a, T_DIR), a, 5 - a, k)
  {
    hide HasA;
    assert a == 2 || a == 3;
    RootHasA(s, k, a);
  }

  lemma RootHasA(s: State, k: nat, a: nat)
    requires OnlyRoot(s) && Vacant(s, ROOTINO, k) && 2 <= a < 4 && s.ino[a].typ == 0
    ensures HasA(Created(s, ROOTINO, k, "a", a, T_DIR), a, 5 - a, k)
  {
    var r := Created(s, ROOTINO, k, "a", a, T_DIR);
    assert r.pending == multiset{};
  }

  lemma MakeB(s: State, k: nat, a: nat, b: nat, l: nat)
    requires MadeA(s, a, b, k) && Vacant(s, a, l)
    ensures l == 2 && MadeB(Created(s, a, l, "b", b, T_DIR), a, b, k)
  {
    var r := Created(s, a, l, "b", b, T_DIR);
    assert r.pending == multiset{};
  }

  lemma RemoveB(s: State, k: nat, a: nat, b: nat)
    requires MadeB(s, a, b, k)
    ensures GoneB(Unnamed(s, a, 2), a, b, k)
  {
    assert Unnamed(s, a, 2).pending == multiset{};
  }

  lemma RemoveA(s: State, k: nat, a: nat, b: nat)
    requires GoneB(s, a, b, k)
    ensures var r := Unnamed(s, ROOTINO, k);
            && |r.ino| == 4 && r.ino[a].nlink == 0 && r.ino[b] == s.ino[b] && r.ino[ROOTINO].nlink == 1
  {
  }

  lemma NoA(s: State)
    requires OnlyRoot(s)
    ensures Absent(s.ino[ROOTINO].entries, "a")
  {
  }

  lemma NoB(s: State, k: nat, a: nat, b: nat)
    requires MadeA(s, a, b, k)
    ensures Absent(s.ino[a].entries, "b")
  {
  }

  lemma MayRemoveB(s: State, k: nat, a: nat, b: nat)
    requires MadeB(s, a, b, k)
    ensures MayUnlink(s, a, "b") && forall l: nat :: IsEntry(s.ino[a].entries, "b", l) ==> l == 2
  {
    assert IsEntry(s.ino[a].entries, "b", 2);
  }

  lemma MayRemoveA(s: State, k: nat, a: nat, b: nat)
    requires GoneB(s, a, b, k)
    ensures MayUnlink(s, ROOTINO, "a") && forall l: nat :: IsEntry(s.ino[ROOTINO].entries, "a", l) ==> l == k
  {
    assert IsEntry(s.ino[ROOTINO].entries, "a", k);
  }

  /** The root of mkfs holds its one block; there are blocks for two directories. */
  lemma RootCompact(s: State, room: Room)
    requires s == State(MkfsInodes(4, []), multiset{}) && |room.slots| == 4 && room.slots[ROOTINO] == Span(0, 2)
    ensures NoHoles(s, room)
  {
    hide Span;
    MkfsCompact([], room);
  }

  lemma RoomForA(s: State, room: Room)
    requires OnlyRoot(s) && NoHoles(s, room) && RoomOk(s.ino, room) && room.free >= 2
    ensures Absent(s.ino[ROOTINO].entries, "a") && !CreateStops(s, room, ROOTINO, "a", T_DIR)
    ensures var e, i := s.ino[ROOTINO].entries, FirstFree(s.ino);
            var r := NewRoom(room, e, ROOTINO, "a", i, T_DIR);
            NoHoles(Created(s, ROOTINO, Place(e), "a", i, T_DIR), r) && r.free >= 1
  {
    hide NoHoles, RoomOk, CreateStops, Created, NewRoom, NewStops;
    NoA(s);
    assert s.ino[ROOTINO].entries[2].inum == 0;
    CreateNeeds(s, room, ROOTINO, "a", T_DIR);
    CreateLeaves(s, room, ROOTINO, "a", T_DIR);
  }

  lemma RoomForB(s: State, room: Room, a: nat, b: nat, k: nat)
    requires MadeA(s, a, b, k) && NoHoles(s, room) && RoomOk(s.ino, room) && room.free >= 1
    ensures Absent(s.ino[a].entries, "b") && !CreateStops(s, room, a, "b", T_DIR) && FirstFree(s.ino) == b
    ensures var e := s.ino[a].entries;
            NoHoles(Created(s, a, Place(e), "b", b, T_DIR), NewRoom(room, e, a, "b", b, T_DIR))
  {
    hide NoHoles, RoomOk, CreateStops, Created, NewRoom, NewStops;
    NoB(s, k, a, b);
    assert s.ino[ROOTINO].typ != 0 && s.ino[b].typ == 0 && FirstFree(s.ino) == b;
    CreateNeeds(s, room, a, "b", T_DIR);
    CreateLeaves(s, room, a, "b", T_DIR);
  }

  /** mkdir a. */
  method MkdirA(free: nat) returns (d: Dirs, a: nat, ghost k: nat)
    requires free >= 2
    ensures fresh(d) && d.Ok() && 2 <= a < 4 && MadeA(d.S(), a, 5 - a, k) && d.refs == [0, 0, 0, 0]
    ensures NoHoles(d.S(), d.room) && d.room.free >= 1
  {
    hide Inv, Absent, IsEntry, Created, MkfsInodes, HasA, RoomOk, CreateStops, NewRoom, Span, Place, NoHoles, FirstFree,
         NewStops;
    var room := Room([{}, Span(0, 2), {}, {}], free);
    RootSize();
    d := new Dirs(4, [], room);
    Start();
    RootCompact(d.S(), d.room);
    RoomForA(d.S(), d.room);
    d.Iget(ROOTINO);
    ghost var s := d.S();
    var x;
    x, k := d.Create(ROOTINO, "a", T_DIR);
    a := x.value;
    MakeA(s, k, a);
    RootStays(Created(s, ROOTINO, k, "a", a, T_DIR), a, 5 - a, k);
    d.Iput(a);
  }

  lemma RootSize()
    ensures |MkfsRoot([])| == 32
  {
  }

  /** mkdir a/b; the caller keeps its reference to b. */
  method MkdirB(d: Dirs, a: nat, ghost k: nat) returns (b: nat)
    requires d.Ok() && 2 <= a < 4 && MadeA(d.S(), a, 5 - a, k) && d.refs == [0, 0, 0, 0]
    requires NoHoles(d.S(), d.room) && d.room.free >= 1
    modifies d
    ensures d.Ok() && b == 5 - a && MadeB(d.S(), a, b, k) && d.refs == [0, 0, 0, 0][b := 1] && NoHoles(d.S(), d.room)
  {
    hide Inv, Absent, IsEntry, Created, Vacant, HasA, RoomOk, CreateStops, NewRoom, Span, Place, NoHoles, FirstFree,
         NewStops;
    ghost var s := d.S();
    MadeASize(s, a, 5 - a, k);
    RoomForB(s, d.room, a, 5 - a, k);
    d.Iget(a);
    var y, l := d.Create(a, "b", T_DIR);
    b := y.value;
    MakeB(s, k, a, b, l);
    assert d.S() == Created(s, a, l, "b", b, T_DIR);
  }

  /** rmdir a/b. */
  method RmdirB(d: Dirs, a: nat, b: nat, ghost k: nat)
    requires d.Ok() && b == 5 - a && MadeB(d.S(), a, b, k) && d.refs == [0, 0, 0, 0][b := 1] && NoHoles(d.S(), d.room)
    modifies d
    ensures d.Ok() && GoneB(d.S(), a, b, k) && d.refs == [0, 0, 0, 0][b := 1] && NoHoles(d.S(), d.room)
  {
    hide Inv, IsEntry, MayUnlink, Unnamed, Names, RoomOk, UnlinkStops, Looked, NoHoles;
    ghost var s := d.S();
    RoomSize(d.ino, d.room);
    UnlinkCostsNothing(s, d.room, a, "b");
    UnnamedCompact(s, d.room, a, 2);
    d.Iget(a);
    MayRemoveB(s, k, a, b);
    var u, m := d.Unlink(a, "b");
    RemoveB(s, k, a, b);
    assert u == Done(b) by { BAt(s, a, b, k); }
    assert d.S() == Unnamed(s, a, 2);
  }

  /** rmdir a. */
  method RmdirA(d: Dirs, a: nat, b: nat, ghost k: nat)
    requires d.Ok() && b == 5 - a && GoneB(d.S(), a, b, k) && d.refs == [0, 0, 0, 0][b := 1] && NoHoles(d.S(), d.room)
    modifies d
    ensures d.Ok() && IsDir(d.S(), b) && Dangling(d.S(), b) && d.refs == [0, 0, 0, 0][b := 1]
  {
    hide Inv, IsEntry, MayUnlink, Unnamed, Names, RoomOk, UnlinkStops, Looked, NoHoles;
    ghost var s := d.S();
    RoomSize(d.ino, d.room);
    UnlinkCostsNothing(s, d.room, ROOTINO, "a");
    d.Iget(ROOTINO);
    MayRemoveA(s, k, a, b);
    var v, n := d.Unlink(ROOTINO, "a");
    RemoveA(s, k, a, b);
    assert v == Done(a) by { AAt(s, a, b, k); }
  }

  /** mkdir a; mkdir a/b; stay in b; rmdir a/b; rmdir a; create of ".." in b: however much is free. */
  method RemovedParent(typ: int, free: nat) returns (r: Outcome<nat>)
    requires typ != 0 && free >= 2
    ensures r.Panicked?
  {
    hide Inv, MadeA, MadeB, GoneB, Dangling, NoHoles, RoomOk, Scanned, Affords, NewStops;
    var d, a, k := MkdirA(free);
    var b := MkdirB(d, a, k);
    RmdirB(d, a, b, k);
    RmdirA(d, a, b, k);
    DotDotPresent(d.S(), b);
    RoomSize(d.ino, d.room);
    ghost var l;
    r, l := d.Create(b, "..", typ);
  }

  lemma BAt(s: State, a: nat, b: nat, k: nat)
    requires MadeB(s, a, b, k)
    ensures forall i: nat :: Names(s, a, 2, i) ==> i == b
  {
  }

  lemma AAt(s: State, a: nat, b: nat, k: nat)
    requires GoneB(s, a, b, k)
    ensures forall i: nat :: Names(s, ROOTINO, k, i) ==> i == a
  {
  }

  lemma RootStays(s: State, a: nat, b: nat, k: nat)
    requires HasA(s, a, b, k)
    ensures IsDir(s, ROOTINO) && s.ino[ROOTINO].nlink == 2 && |s.ino| == 4
  {
  }

  lemma MadeASize(s: State, a: nat, b: nat, k: nat)
    requires MadeA(s, a, b, k)
    ensures |s.ino| == 4 && 2 <= a < 4 && 2 <= b < 4 && a != b && IsDir(s, a)
    ensures (forall i :: 1 <= i < 4 && s.ino[i].typ == 0 ==> i == b)
  {
  }
}
