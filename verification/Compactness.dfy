/**
Directories without holes: no call makes one, and the volume of mkfs has one exactly if the names in its
root fill whole blocks.  Where there is none, reading a directory costs nothing, unlink never stops for
want of blocks, and link and create stop exactly when the new entry, or the new directory, has no room.
*/
module Compactness {
  import opened Prelude
  import opened Rooms
  import opened LinkCounts
  import opened Directories

  /** A call changes the entries of at most the directory d, and of i, which is new or gone. */
  lemma KeptElsewhere(s: State, room: Room, t: State, room': Room, d: nat, i: nat)
    requires NoHoles(s, room) && |t.ino| == |s.ino| && |room'.slots| == |room.slots|
    requires forall j: nat :: IsDir(t, j) && j != d && j != i ==>
               IsDir(s, j) && |t.ino[j].entries| == |s.ino[j].entries|
    requires forall j :: 0 <= j < |room.slots| && j != d && j != i ==> room'.slots[j] == room.slots[j]
    requires IsDir(t, d) ==> Compact(room', d, |t.ino[d].entries|)
    requires IsDir(t, i) ==> Compact(room', i, |t.ino[i].entries|)
    ensures NoHoles(t, room')
  {
    hide Span;
    forall j: nat | IsDir(t, j)
      ensures Compact(room', j, |t.ino[j].entries|)
    {
      if j != d && j != i {
        assert Compact(room, j, |s.ino[j].entries|);
      }
    }
  }

  lemma ReleasedCompact(s: State, room: Room, i: nat, r: nat)
    requires NoHoles(s, room) && i < |s.ino| == |room.slots|
    ensures NoHoles(Released(s, i, r), Freed(s, room, i, r))
  {
    hide NoHoles, Compact;
    if s.ino[i].nlink == 0 && r == 1 {
      KeptElsewhere(s, room, Free(s, i), Emptied(room, i), i, i);
    }
  }

  /** The directory is large enough for the new entry, which goes to the first vacant place. */
  lemma EnlargedCompact(e: seq<Dirent>, room: Room, dp: nat)
    requires Compact(room, dp, |e|) && Enlarged(e) <= MAXENTRIES && Affords(room, dp, 0, Enlarged(e))
    ensures var r := Reached(room, dp, 0, Enlarged(e));
            Compact(r, dp, Enlarged(e)) && r.free == room.free - if Place(e) == |e| then Price(|e|) else 0
  {
    hide Affords;
    if Place(e) == |e| {
      NextEntryCost(room, dp, |e|);
    } else {
      CompactReads(room, dp, |e|, 0, |e|);
    }
  }

  lemma LinkedCompact(s: State, room: Room, dp: nat, name: string, i: nat)
    requires NoHoles(s, room) && IsDir(s, dp) && i < |s.ino| == |room.slots| && s.ino[i].typ != T_DIR
    requires Absent(s.ino[dp].entries, name) && !LinkStops(s.ino[dp].entries, room, dp, name)
    ensures var e := s.ino[dp].entries;
            NoHoles(Linked(s, dp, Place(e), name, i), Reached(room, dp, 0, Enlarged(e)))
  {
    hide NoHoles, Compact, Affords, Absent, Place, Scanned, Span;
    var e := s.ino[dp].entries;
    CompactAt(s, room, dp);
    EnlargedCompact(e, room, dp);
    KeptElsewhere(s, room, Linked(s, dp, Place(e), name, i), Reached(room, dp, 0, Enlarged(e)), dp, dp);
  }

  lemma CompactAt(s: State, room: Room, d: nat)
    requires NoHoles(s, room) && IsDir(s, d)
    ensures Compact(room, d, |s.ino[d].entries|)
  {
  }

  /** The first two entries of a new directory take a block and leave no hole. */
  lemma DotsCompact(room: Room, i: nat)
    requires i < |room.slots| && room.slots[i] == {}
    ensures Affords(room, i, 0, 2) <==> room.free >= 1
    ensures Affords(room, i, 0, 2) ==>
              Compact(Reached(room, i, 0, 2), i, 2) && Reached(room, i, 0, 2).free == room.free - 1
  {
    hide Span;
    DotsCost(room, i);
    assert {} + Span(0, 2) == Span(0, 2);
  }

  lemma CreatedCompact(s: State, room: Room, dp: nat, name: string, i: nat, typ: int)
    requires NoHoles(s, room) && IsDir(s, dp) && i < |s.ino| == |room.slots| && i != dp && room.slots[i] == {}
    requires Absent(s.ino[dp].entries, name) && !NewStops(s.ino[dp].entries, room, dp, name, i, typ)
    ensures var e := s.ino[dp].entries;
            var r := Reached(WithDots(room, i, typ), dp, 0, Enlarged(e));
            && NoHoles(Created(s, dp, Place(e), name, i, typ), r)
            && r.free == room.free - (if typ == T_DIR then 1 else 0) - if Place(e) == |e| then Price(|e|) else 0
  {
    hide NoHoles, Compact, Affords, Absent, Place, Scanned, Span;
    var e := s.ino[dp].entries;
    CompactAt(s, room, dp);
    DotsCompact(room, i);
    var room1 := WithDots(room, i, typ);
    SameSlots(room, room1, dp, |e|);
    EnlargedCompact(e, room1, dp);
    var room2 := Reached(room1, dp, 0, Enlarged(e));
    if typ == T_DIR {
      SameSlots(room1, room2, i, 2);
    }
    KeptElsewhere(s, room, Created(s, dp, Place(e), name, i, typ), room2, dp, i);
  }

  lemma SameSlots(room: Room, room': Room, d: nat, n: nat)
    requires d < |room.slots| && d < |room'.slots| && room.slots[d] == room'.slots[d]
    ensures Compact(room, d, n) <==> Compact(room', d, n)
  {
  }

  lemma UnnamedCompact(s: State, room: Room, dp: nat, k: nat)
    requires NoHoles(s, room) && IsDir(s, dp) && k < |s.ino[dp].entries| && s.ino[dp].entries[k].inum < |s.ino|
    ensures NoHoles(Unnamed(s, dp, k), room)
  {
    hide NoHoles, Compact;
    CompactAt(s, room, dp);
    KeptElsewhere(s, room, Unnamed(s, dp, k), room, dp, dp);
  }

  /* ---- what the calls need ---- */

  /** unlink reads, and reading costs nothing. */
  lemma UnlinkCostsNothing(s: State, room: Room, dp: nat, name: string)
    requires NoHoles(s, room) && IsDir(s, dp) && |s.ino| == |room.slots| && Inv(s)
    ensures !UnlinkStops(s, room, dp, name) && Looked(s, room, dp, name) == room
  {
    hide NoHoles, Compact, Absent, Affords, Reached, Inv, Scanned, UsedScan, Target;
    var e := s.ino[dp].entries;
    CompactAt(s, room, dp);
    CompactReads(room, dp, |e|, 0, Scanned(e, name));
    if !Absent(e, name) {
      var i := Target(e, name);
      if IsDir(s, i) {
        CompactAt(s, room, i);
        DotsOf(s, i);
        UsedScanBound(s.ino[i].entries, 2);
        CompactReads(room, i, |s.ino[i].entries|, 2, UsedScan(s.ino[i].entries, 2));
      }
    }
  }

  lemma {:induction false} UsedScanBound(e: seq<Dirent>, k: nat)
    requires k <= |e|
    ensures k <= UsedScan(e, k) <= |e|
    decreases |e| - k
  {
    if k < |e| {
      UsedScanBound(e, k + 1);
    }
  }

  /**
  create of a new name needs a free inode, a block for the dots of a directory, and what one more entry
  costs where none is vacant.
  */
  lemma CreateNeeds(s: State, room: Room, dp: nat, name: string, typ: int)
    requires NoHoles(s, room) && RoomOk(s.ino, room) && IsDir(s, dp)
    ensures CreateStops(s, room, dp, name, typ) <==>
              var e := s.ino[dp].entries;
              if !Absent(e, name) then name == ".." && Dangling(s, dp)
              else
                || FirstFree(s.ino) == |s.ino|
                || (Place(e) == |e| == MAXENTRIES)
                || room.free < (if typ == T_DIR then 1 else 0) + (if Place(e) == |e| then Price(|e|) else 0)
  {
    hide NoHoles, Compact, Absent, Affords, Reached, Scanned, LinkStops, Dangling, Place;
    var e := s.ino[dp].entries;
    CompactAt(s, room, dp);
    CompactReads(room, dp, |e|, 0, Scanned(e, name));
    var i := FirstFree(s.ino);
    if Absent(e, name) && i < |s.ino| {
      DotsCompact(room, i);
      SlotsKept(room, i, dp);
      var room1 := WithDots(room, i, typ);
      SameSlots(room, room1, dp, |e|);
      CompactLinkStops(e, room1, dp, name);
    }
  }

  /** What create leaves, and what it costs. */
  lemma CreateLeaves(s: State, room: Room, dp: nat, name: string, typ: int)
    requires NoHoles(s, room) && RoomOk(s.ino, room) && IsDir(s, dp) && Absent(s.ino[dp].entries, name)
    requires !CreateStops(s, room, dp, name, typ)
    ensures var e, i := s.ino[dp].entries, FirstFree(s.ino);
            var r := NewRoom(room, e, dp, name, i, typ);
            && NoHoles(Created(s, dp, Place(e), name, i, typ), r)
            && r.free == room.free - (if typ == T_DIR then 1 else 0) - if Place(e) == |e| then Price(|e|) else 0
  {
    hide NoHoles, Compact, Absent, Affords, Reached, Scanned, NewStops, Place, Created, WithDots;
    var e := s.ino[dp].entries;
    CompactAt(s, room, dp);
    CompactReads(room, dp, |e|, 0, Scanned(e, name));
    CreatedCompact(s, room, dp, name, FirstFree(s.ino), typ);
  }

  /* ---- where holes come from, and where they go ---- */

  /** mkfs gives the root a block too many in its size when its names fill whole blocks. */
  lemma MkfsCompact(names: seq<string>, room: Room)
    requires ROOTINO < |room.slots| && room.slots[ROOTINO] == Span(0, 2 + |names|) && |MkfsRoot(names)| <= MAXENTRIES
    ensures Compact(room, ROOTINO, |MkfsRoot(names)|) <==> (2 + |names|) % 32 != 0
  {
    hide Span;
    assert |MkfsRoot(names)| == ((2 + |names|) / 32 + 1) * 32;
    WholeBlocks(2 + |names|);
  }

  /** A search that reads everything fills the holes. */
  lemma ScanFills(room: Room, d: nat, n: nat)
    requires d < |room.slots| && room.slots[d] <= Span(0, n) && Affords(room, d, 0, n)
    ensures Compact(Reached(room, d, 0, n), d, n)
  {
    hide Span;
    assert room.slots[d] + Span(0, n) == Span(0, n);
  }

  lemma SlotsKept(room: Room, i: nat, d: nat)
    requires i < |room.slots| && d < |room.slots| && i != d
    ensures Affords(room, i, 0, 2) ==> Reached(room, i, 0, 2).slots[d] == room.slots[d]
  {
  }
}
