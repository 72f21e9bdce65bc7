/**
A directory can be filled: on the volume of mkfs with one file, link gives the file name after name in the
root until the root has its largest size.  The next link panics, however many blocks are free.
*/
module Filled {
  import opened Prelude
  import opened Rooms
  import opened LinkCounts
  import opened Directories
  import opened Compactness

  /** Three letters for each place in the root. */
  function Name(k: nat): (r: string) {
    [Letter(k / 676 % 26), Letter(k / 26 % 26), Letter(k % 26)]
  }

  function Letter(d: nat): (c: char)
    requires d < 26
  {
    'a' + d as char
  }

  lemma NamesDiffer(i: nat, j: nat)
    requires i < j <= MAXENTRIES
    ensures Name(i) != Name(j)
  {
    SameLetter(i % 26, j % 26);
    SameLetter(i / 26 % 26, j / 26 % 26);
    SameLetter(i / 676 % 26, j / 676 % 26);
    hide Letter;
    assert i / 676 == i / 26 / 26 && j / 676 == j / 26 / 26;
    assert Name(i)[0] != Name(j)[0] || Name(i)[1] != Name(j)[1] || Name(i)[2] != Name(j)[2];
  }

  lemma SameLetter(a: nat, b: nat)
    requires a < 26 && b < 26
    ensures Letter(a) == Letter(b) ==> a == b
  {
    assert Letter(a) as int == 'a' as int + a;
    assert Letter(b) as int == 'a' as int + b;
  }

  /** The root has n names: its dots, the file and then one after the other. */
  ghost predicate Upto(e: seq<Dirent>, n: nat) {
    && 3 <= n <= |e| && |e| == (if n < 32 then 32 else n)
    && e[0] == Dirent(ROOTINO, ".") && e[1] == Dirent(ROOTINO, "..") && e[2] == Dirent(2, "f")
    && (forall k :: 3 <= k < n ==> e[k] == Dirent(2, Name(k)))
    && forall k :: n <= k < |e| ==> e[k].inum == 0
  }

  /** The blocks that the root still needs. */
  function Left(n: nat): (c: nat)
    requires n <= MAXENTRIES
  {
    if n < 32 then 140 else (MAXENTRIES - n) / 32 + if n <= 384 then 1 else 0
  }

  ghost predicate Going(d: Dirs, n: nat)
    reads d
  {
    && d.Ok() && |d.ino| == 3 && d.refs == [0, 0, 0]
    && n <= MAXENTRIES && IsDir(d.S(), ROOTINO) && Upto(d.ino[ROOTINO].entries, n)
    && d.ino[ROOTINO].nlink >= 1 && d.ino[2].typ == T_FILE && d.ino[2].nlink >= 1
    && NoHoles(d.S(), d.room) && d.room.free >= Left(n)
  }

  lemma NextName(e: seq<Dirent>, n: nat)
    requires Upto(e, n) && n <= MAXENTRIES
    ensures Absent(e, Name(n)) && Place(e) == n && (n == |e| <==> n >= 32)
    ensures var f := if n == |e| then e + [Dirent(2, Name(n))] else e[n := Dirent(2, Name(n))];
            n < MAXENTRIES ==> Upto(f, n + 1)
  {
    hide Name, Place;
    assert |Name(n)| == 3 by { NameSize(n); }
    forall k | 0 <= k < |e|
      ensures !Matches(e[k], Name(n))
    {
      if 3 <= k < n {
        NamesDiffer(k, n);
      }
    }
    PlaceIs(e, n);
  }

  lemma NameSize(n: nat)
    ensures |Name(n)| == 3
  {
  }

  /** Linking the next name costs what it should and leaves the root one larger. */
  lemma NextLink(s: State, room: Room, n: nat)
    requires |s.ino| == 3 && IsDir(s, ROOTINO) && Upto(s.ino[ROOTINO].entries, n) && n <= MAXENTRIES
    requires s.ino[2].typ == T_FILE && NoHoles(s, room) && |room.slots| == 3 && room.free >= Left(n)
    ensures var e := s.ino[ROOTINO].entries;
            && Absent(e, Name(n)) && Place(e) == n
            && (LinkStops(e, room, ROOTINO, Name(n)) <==> n == MAXENTRIES)
            && (n < MAXENTRIES ==>
                  var t, room1 := Linked(s, ROOTINO, n, Name(n), 2), Reached(room, ROOTINO, 0, Enlarged(e));
                  && t.ino[ROOTINO].nlink == s.ino[ROOTINO].nlink && IsDir(t, ROOTINO)
                  && Upto(t.ino[ROOTINO].entries, n + 1)
                  && t.ino[2].typ == T_FILE && t.ino[2].nlink == s.ino[2].nlink + 1
                  && NoHoles(t, room1) && room1.free >= Left(n + 1))
  {
    hide Name, Place, Absent, NoHoles, Affords, Reached, Span, Upto, LinkStops, Compact;
    var e := s.ino[ROOTINO].entries;
    NextName(e, n);
    RootSize(e, n);
    CompactAt(s, room, ROOTINO);
    CompactLinkStops(e, room, ROOTINO, Name(n));
    if n < MAXENTRIES {
      LinkedCompact(s, room, ROOTINO, Name(n), 2);
      Unstopped(e, room, ROOTINO, Name(n));
      EnlargedCompact(e, room, ROOTINO);
      assert n >= 32 ==> Left(n + 1) == Left(n) - Price(n);
    }
  }

  lemma RootSize(e: seq<Dirent>, n: nat)
    requires Upto(e, n) && n <= MAXENTRIES
    ensures |e| <= MAXENTRIES && n <= |e| && |e| == if n < 32 then 32 else n
  {
  }

  lemma Unstopped(e: seq<Dirent>, room: Room, dp: nat, name: string)
    requires dp < |room.slots| && Absent(e, name) && !LinkStops(e, room, dp, name)
    ensures Enlarged(e) <= MAXENTRIES && Affords(room, dp, 0, Enlarged(e))
  {
  }

  /** One more name. */
  method More(d: Dirs, n: nat) returns (r: Outcome<nat>)
    requires Going(d, n)
    modifies d
    ensures r.Panicked? <==> n == MAXENTRIES
    ensures !r.Panicked? ==> Going(d, n + 1)
  {
    hide Inv, Name, Place, Absent, NoHoles, Affords, Reached, Span, Upto, LinkStops, RoomOk, Linked, Enlarged, Vacant,
         Scanned;
    RoomSize(d.ino, d.room);
    NextLink(d.S(), d.room, n);
    d.Iget(2);
    d.Iget(ROOTINO);
    r := d.Link(2, Some(ROOTINO), Name(n));
  }

  method Begin(free: nat) returns (d: Dirs)
    requires free >= 140
    ensures fresh(d) && Going(d, 3)
  {
    hide Inv, NoHoles, RoomOk, Span, Name;
    var room := Room([{}, Span(0, 3), {}], free);
    assert |MkfsRoot(["f"])| == 32;
    d := new Dirs(3, ["f"], room);
    FirstRoot(room);
  }

  lemma FirstRoot(room: Room)
    requires |room.slots| == 3 && room.slots[ROOTINO] == Span(0, 3)
    ensures var ino := MkfsInodes(3, ["f"]); Upto(ino[ROOTINO].entries, 3) && NoHoles(State(ino, multiset{}), room)
  {
    hide Span;
    MkfsCompact(["f"], room);
  }

  /** 4477 links fill the root; the next one panics. */
  method FillRoot(free: nat) returns (r: Outcome<nat>, n: nat)
    requires free >= 140
    ensures r.Panicked? && n == MAXENTRIES
  {
    hide Going;
    var d := Begin(free);
    n := 3;
    GoingSize(d, n);
    r := More(d, n);
    while !r.Panicked?
      invariant fresh(d) && 3 <= n <= MAXENTRIES && (r.Panicked? <==> n == MAXENTRIES)
      invariant !r.Panicked? ==> Going(d, n + 1)
      decreases MAXENTRIES - n
    {
      n := n + 1;
      r := More(d, n);
    }
  }

  lemma GoingSize(d: Dirs, n: nat)
    requires Going(d, n)
    ensures n <= MAXENTRIES
  {
  }
}
