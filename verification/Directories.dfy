/**
Directories: dirlookup, dirlink, isdirempty, ialloc, create, link, unlink and iput, with the blocks that
they take and give back.  Path lookup is not part of this: the calls get the directory that nameiparent
returned, with its reference.
*/
module Directories {
  import opened Prelude
  import opened LinkCounts
  import opened Rooms

  /** Entry k is the first one in use with this name. */
  ghost predicate IsEntry(e: seq<Dirent>, name: string, k: nat) {
    k < |e| && Matches(e[k], name) && forall l :: 0 <= l < k ==> !Matches(e[l], name)
  }

  predicate Matches(de: Dirent, name: string) {
    de.inum != 0 && de.name == name
  }

  predicate Absent(e: seq<Dirent>, name: string) {
    forall l :: 0 <= l < |e| ==> !Matches(e[l], name)
  }

  /** How many entries dirlookup reads: up to the name, or all. */
  function Scanned(e: seq<Dirent>, name: string): (m: nat)
    ensures m <= |e| && (Absent(e, name) ==> m == |e|)
    ensures forall k: nat :: IsEntry(e, name, k) ==> m == k + 1
  {
    if e == [] then 0
    else if Matches(e[0], name) then 1
    else
      var m := 1 + Scanned(e[1..], name);
      assert forall l :: 1 <= l < |e| ==> e[l] == e[1..][l - 1];
      assert forall k: nat :: IsEntry(e, name, k) ==> k > 0 && IsEntry(e[1..], name, k - 1);
      m
  }

  /** Where isdirempty stops: behind the first entry in use from k on, or at the end. */
  function UsedScan(e: seq<Dirent>, k: nat): (m: nat)
    ensures k <= m
    decreases |e| - k
  {
    if k >= |e| then k else if e[k].inum != 0 then k + 1 else UsedScan(e, k + 1)
  }

  /** Where dirlink puts a new entry: the first vacant place from k on. */
  function VacantFrom(e: seq<Dirent>, k: nat): (m: nat)
    requires k <= |e|
    ensures k <= m <= |e| && (m < |e| ==> e[m].inum == 0) && forall l :: k <= l < m ==> e[l].inum != 0
    decreases |e| - k
  {
    if k == |e| || e[k].inum == 0 then k else VacantFrom(e, k + 1)
  }

  function Place(e: seq<Dirent>): (m: nat)
    ensures m <= |e| && (m < |e| ==> e[m].inum == 0) && forall l :: 0 <= l < m ==> e[l].inum != 0
  {
    VacantFrom(e, 0)
  }

  /** How many entries there are with a new one. */
  function Enlarged(e: seq<Dirent>): (n: nat) {
    if Place(e) == |e| then |e| + 1 else |e|
  }

  /**
  dirlink panics: an entry cannot be read or written for want of blocks, or the directory has its largest
  size and no vacant entry.
  */
  predicate LinkStops(e: seq<Dirent>, room: Room, dp: nat, name: string)
    requires dp < |room.slots|
  {
    || !Affords(room, dp, 0, Scanned(e, name))
    || (Absent(e, name) && (Enlarged(e) > MAXENTRIES || !Affords(room, dp, 0, Enlarged(e))))
  }

  /** Where there are no holes, this means: no vacant entry, and the largest size or no block to be had. */
  lemma CompactLinkStops(e: seq<Dirent>, room: Room, dp: nat, name: string)
    requires Compact(room, dp, |e|) && |e| <= MAXENTRIES
    ensures LinkStops(e, room, dp, name) <==>
              && Absent(e, name) && Place(e) == |e|
              && (|e| == MAXENTRIES || room.free < Price(|e|))
  {
    hide Absent, Scanned;
    CompactReads(room, dp, |e|, 0, Scanned(e, name));
    CompactReads(room, dp, |e|, 0, |e|);
    if |e| < MAXENTRIES {
      NextEntryCost(room, dp, |e|);
    }
  }

  /** A directory of the largest size without a vacant entry takes no name, however much is free. */
  lemma FullDirectory(e: seq<Dirent>, room: Room, dp: nat, name: string)
    requires dp < |room.slots| && |e| == MAXENTRIES && Absent(e, name) && forall k :: 0 <= k < |e| ==> e[k].inum != 0
    ensures LinkStops(e, room, dp, name)
  {
    assert Place(e) == |e|;
  }

  /** Every directory holds exactly the slots of its entries. */
  ghost predicate NoHoles(s: State, room: Room) {
    forall d: nat :: IsDir(s, d) ==> Compact(room, d, |s.ino[d].entries|)
  }

  /** What iput gives back: with the last reference of an inode without links, everything. */
  function Freed(s: State, room: Room, i: nat, r: nat): (t: Room)
    requires i < |s.ino| && i < |room.slots|
    ensures |t.slots| == |room.slots|
  {
    if s.ino[i].nlink == 0 && r == 1 then Emptied(room, i) else room
  }

  /** What iput leaves when it drops one of r references to inode i: without links the last one frees it. */
  function Released(s: State, i: nat, r: nat): (t: State)
    requires i < |s.ino|
    ensures |t.ino| == |s.ino| && t.pending == s.pending
  {
    if s.ino[i].nlink == 0 && r == 1 then Free(s, i) else s
  }

  /** A new name for i in dp. */
  function Linked(s: State, dp: nat, k: nat, name: string, i: nat): (t: State)
    requires dp < |s.ino| && i < |s.ino| && k <= |s.ino[dp].entries|
    ensures |t.ino| == |s.ino|
  {
    Enter(Bump(s, i), dp, k, name, i)
  }

  /** The name at k in dp is gone, with the links that it stood for. */
  function Unnamed(s: State, dp: nat, k: nat): (t: State)
    requires dp < |s.ino| && k < |s.ino[dp].entries| && s.ino[dp].entries[k].inum < |s.ino|
    ensures |t.ino| == |s.ino|
  {
    var i := s.ino[dp].entries[k].inum;
    Drop(if IsDir(s, i) then Drop(Clear(s, dp, k), dp) else Clear(s, dp, k), i)
  }

  /** A new inode i with a name in dp. */
  function Created(s: State, dp: nat, k: nat, name: string, i: nat, typ: int): (t: State)
    requires dp < |s.ino| && i < |s.ino| && dp != i && k <= |s.ino[dp].entries|
    ensures |t.ino| == |s.ino|
  {
    var a := Alloc(s, i, typ, dp);
    Enter(if typ == T_DIR then Bump(a, dp) else a, dp, k, name, i)
  }

  function Less(refs: seq<nat>, i: nat): (r: seq<nat>)
    requires i < |refs| && refs[i] > 0
  {
    refs[i := refs[i] - 1]
  }

  /** The inodes that are free hold nothing, and no directory is larger than a file can be. */
  ghost predicate RoomOk(ino: seq<Inode>, room: Room) {
    && |room.slots| == |ino|
    && forall i :: 0 <= i < |ino| ==> |ino[i].entries| <= MAXENTRIES && (ino[i].typ == 0 ==> room.slots[i] == {})
  }

  /** The first free inode, from i on. */
  function FreeFrom(ino: seq<Inode>, i: nat): (r: nat)
    requires i <= |ino|
    ensures i <= r <= |ino| && (r < |ino| ==> ino[r].typ == 0) && forall j :: i <= j < r ==> ino[j].typ != 0
    decreases |ino| - i
  {
    if i == |ino| || ino[i].typ == 0 then i else FreeFrom(ino, i + 1)
  }

  function FirstFree(ino: seq<Inode>): (r: nat)
    requires |ino| > 0
    ensures 1 <= r <= |ino|
  {
    FreeFrom(ino, 1)
  }

  /** The new directory i has written its dots. */
  function WithDots(room: Room, i: nat, typ: int): (r: Room)
    requires i < |room.slots|
    ensures |r.slots| == |room.slots|
  {
    if typ == T_DIR && Affords(room, i, 0, 2) then Reached(room, i, 0, 2) else room
  }

  /**
  create panics: for want of a block for the directory or for the dots of a new one, in a full directory,
  without a free inode, or at a ".." that leads nowhere.
  */
  ghost predicate CreateStops(s: State, room: Room, dp: nat, name: string, typ: int)
    requires dp < |s.ino| == |room.slots|
  {
    var e := s.ino[dp].entries;
    || !Affords(room, dp, 0, Scanned(e, name))
    || if !Absent(e, name) then name == ".." && Dangling(s, dp)
       else
         || FirstFree(s.ino) == |s.ino|
         || NewStops(e, Reached(room, dp, 0, Scanned(e, name)), dp, name, FirstFree(s.ino), typ)
  }

  predicate NewStops(e: seq<Dirent>, room: Room, dp: nat, name: string, i: nat, typ: int)
    requires dp < |room.slots| && i < |room.slots|
  {
    (typ == T_DIR && !Affords(room, i, 0, 2)) || LinkStops(e, WithDots(room, i, typ), dp, name)
  }

  /** The inode that a name stands for. */
  function Target(e: seq<Dirent>, name: string): (i: nat)
    requires !Absent(e, name)
  {
    assert exists k: nat :: IsEntry(e, name, k) by { SomeEntry(e, name); }
    e[Scanned(e, name) - 1].inum
  }

  lemma SomeEntry(e: seq<Dirent>, name: string)
    requires !Absent(e, name)
    ensures exists k: nat :: IsEntry(e, name, k)
  {
    var l: nat :| l < |e| && Matches(e[l], name);
    var k := FirstMatch(e, name, l);
  }

  lemma {:induction false} FirstMatch(e: seq<Dirent>, name: string, l: nat) returns (k: nat)
    requires l < |e| && Matches(e[l], name)
    ensures IsEntry(e, name, k)
    decreases l
  {
    if forall j :: 0 <= j < l ==> !Matches(e[j], name) {
      k := l;
    } else {
      var j: nat :| j < l && Matches(e[j], name);
      k := FirstMatch(e, name, j);
    }
  }

  /** unlink panics: an entry of the directory, or of the one to be removed, cannot be read for want of blocks. */
  ghost predicate UnlinkStops(s: State, room: Room, dp: nat, name: string)
    requires dp < |s.ino| == |room.slots|
  {
    var e := s.ino[dp].entries;
    && name != "." && name != ".."
    && (!Affords(room, dp, 0, Scanned(e, name))
        || (!Absent(e, name) && IsDir(s, Target(e, name))
            && !Affords(Reached(room, dp, 0, Scanned(e, name)), Target(e, name), 2,
                        UsedScan(s.ino[Target(e, name)].entries, 2))))
  }

  /** What has been read when unlink comes to its decision. */
  ghost function Looked(s: State, room: Room, dp: nat, name: string): (r: Room)
    requires dp < |s.ino| == |room.slots| && !UnlinkStops(s, room, dp, name)
    ensures |r.slots| == |room.slots|
  {
    var e := s.ino[dp].entries;
    if name == "." || name == ".." then room
    else
      var room1 := Reached(room, dp, 0, Scanned(e, name));
      if !Absent(e, name) && IsDir(s, Target(e, name))
      then Reached(room1, Target(e, name), 2, UsedScan(s.ino[Target(e, name)].entries, 2))
      else room1
  }

  class Dirs {
    var ino: seq<Inode>
    var refs: seq<nat>
    var room: Room
    ghost var pending: multiset<nat>

    ghost function S(): (s: State)
      reads this
    {
      State(ino, pending)
    }

    ghost predicate Ok()
      reads this
    {
      Inv(S()) && |refs| == |ino| && RoomOk(ino, room)
    }

    /** The volume of mkfs, with these files in the root. */
    constructor (n: nat, names: seq<string>, room: Room)
      requires n > ROOTINO + |names| && |MkfsRoot(names)| <= MAXENTRIES && |room.slots| == n
      requires forall i :: 0 <= i < n && (i == 0 || i >= 2 + |names|) ==> room.slots[i] == {}
      ensures Ok() && ino == MkfsInodes(n, names) && refs == seq(n, _ => 0) && pending == multiset{}
      ensures this.room == room
    {
      ino := MkfsInodes(n, names);
      refs := seq(n, _ => 0);
      pending := multiset{};
      this.room := room;
      new;
      MkfsInv(n, names);
    }

    /** iget and idup: one more reference. */
    method Iget(i: nat)
      requires Ok() && i < |ino|
      modifies this`refs
      ensures Ok() && refs == old(refs)[i := old(refs)[i] + 1]
    {
      refs := refs[i := refs[i] + 1];
    }

    /** The blocks behind readi or writei of entry k: false, for the panic of balloc, when they are not to be had. */
    method Touch(d: nat, k: nat) returns (ok: bool)
      requires Ok() && d < |ino| && ino[d].typ != 0
      modifies this`room
      ensures Ok() && (ok <==> Affords(old(room), d, k, k + 1))
      ensures room == if ok then Reached(old(room), d, k, k + 1) else old(room)
    {
      hide Inv, Span;
      if !Affords(room, d, k, k + 1) {
        return false;
      }
      room := Reached(room, d, k, k + 1);
      return true;
    }

    /** dirlookup: the place of the first entry in use with this name. */
    method Dirlookup(dp: nat, name: string) returns (r: Outcome<nat>)
      requires Ok() && IsDir(S(), dp)
      modifies this`room
      ensures Ok()
      ensures r.Panicked? <==> !Affords(old(room), dp, 0, Scanned(ino[dp].entries, name))
      ensures !r.Panicked? ==> room == Reached(old(room), dp, 0, Scanned(ino[dp].entries, name))
      ensures r.Done? ==> IsEntry(ino[dp].entries, name, r.value)
      ensures r.Refused? ==> Absent(ino[dp].entries, name)
    {
      hide Inv, RoomOk, Affords, Reached;
      RoomSize(ino, room);
      ghost var e, room0 := ino[dp].entries, room;
      ReachedNone(room, dp, 0);
      var k := 0;
      while k < |ino[dp].entries|
        invariant 0 <= k <= Scanned(e, name) && Ok() && |room.slots| == |ino|
        invariant Affords(room0, dp, 0, k) && room == Reached(room0, dp, 0, k)
        invariant forall l :: 0 <= l < k ==> !Matches(e[l], name)
        decreases |e| - k
      {
        ScansOn(e, name, k);
        ReachedMore(room0, dp, 0, k, k + 1);
        var ok := Touch(dp, k);
        if !ok {
          if Affords(room0, dp, 0, Scanned(e, name)) {
            AffordsLess(room0, dp, 0, k + 1, Scanned(e, name));
          }
          return Panicked;
        }
        if ino[dp].entries[k].inum != 0 && ino[dp].entries[k].name == name {
          return Done(k);
        }
        ScansOn(e, name, k);
        k := k + 1;
      }
      return Refused;
    }

    /**
    dirlink: refused when the name is there; otherwise the first vacant place gets the entry.  It panics
    exactly if that place cannot be had.
    */
    method Dirlink(dp: nat, name: string, i: nat) returns (r: Outcome<nat>)
      requires Ok() && IsDir(S(), dp) && MayEnter(S(), dp, i)
      modifies this`ino, this`pending, this`room
      ensures r.Panicked? <==> LinkStops(old(ino)[dp].entries, old(room), dp, name)
      ensures !r.Panicked? ==> Ok() && (r.Done? <==> Absent(old(ino)[dp].entries, name))
      ensures r.Refused? ==> S() == old(S()) && room == Reached(old(room), dp, 0, Scanned(ino[dp].entries, name))
      ensures r.Done? ==>
                && r.value == Place(old(ino)[dp].entries) && Vacant(old(S()), dp, r.value)
                && S() == Enter(old(S()), dp, r.value, name, i)
                && room == Reached(old(room), dp, 0, Enlarged(old(ino)[dp].entries))
    {
      hide Inv, MayEnter, RoomOk, Affords, Reached, Absent;
      RoomSize(ino, room);
      ghost var e, room0 := ino[dp].entries, room;
      var found := Dirlookup(dp, name);
      if found.Panicked? {
        return Panicked;
      }
      if found.Done? {
        EntryPresent(e, name, found.value);
        return Refused;
      }
      DotsOf(S(), dp);
      ghost var room1 := room;
      var k := 0;
      while k < |ino[dp].entries|
        modifies this`room
        invariant 0 <= k <= |e| && Ok() && room == room1
        invariant forall l :: 0 <= l < k ==> e[l].inum != 0
      {
        ReachedAgain(room0, dp, 0, |e|, k, k + 1);
        var ok := Touch(dp, k);
        if ino[dp].entries[k].inum == 0 {
          break;
        }
        k := k + 1;
      }
      PlaceIs(e, k);
      r := Write(dp, k, room0, name);
      if r.Panicked? {
        return;
      }
      PutEntry(dp, k, name, i);
      return Done(k);
    }

    /** The entry itself. */
    method PutEntry(dp: nat, k: nat, name: string, i: nat)
      requires dp < |ino| && k == Place(ino[dp].entries) && Enlarged(ino[dp].entries) <= MAXENTRIES
      requires Vacant(S(), dp, k) && MayEnter(S(), dp, i) && Ok()
      modifies this`ino, this`pending
      ensures Ok() && S() == Enter(old(S()), dp, k, name, i)
    {
      hide Inv, MayEnter, RoomOk;
      EnterInv(S(), dp, k, name, i);
      pending := pending - Share(S(), dp, i);
      var f := ino[dp].entries;
      f := if k == |f| then f + [Dirent(i, name)] else f[k := Dirent(i, name)];
      ino := ino[dp := Inode(ino[dp].typ, ino[dp].nlink, f)];
      GrownRoom(old(ino), ino, room, dp);
    }

    /** The writei of dirlink at its place: refused by writei, and so a panic, at the largest size. */
    method Write(dp: nat, k: nat, ghost room0: Room, ghost name: string) returns (r: Outcome<nat>)
      requires Ok() && IsDir(S(), dp) && Absent(ino[dp].entries, name) && k == Place(ino[dp].entries)
      requires |room0.slots| == |ino| && Affords(room0, dp, 0, |ino[dp].entries|)
      requires room == Reached(room0, dp, 0, |ino[dp].entries|)
      modifies this`room
      ensures Ok() && !r.Refused? && (r.Panicked? <==> LinkStops(ino[dp].entries, room0, dp, name))
      ensures r.Done? ==> Enlarged(ino[dp].entries) <= MAXENTRIES
      ensures r.Done? ==> r.value == k && room == Reached(room0, dp, 0, Enlarged(ino[dp].entries))
    {
      hide Inv, RoomOk, Affords, Reached, Absent;
      RoomSize(ino, room);
      RoomLimit(ino, room, dp);
      ghost var e := ino[dp].entries;
      if (k + 1) * DIRENT > MAXENTRIES * DIRENT {
        return Panicked;
      }
      if k < |e| {
        ReachedAgain(room0, dp, 0, |e|, k, k + 1);
      } else {
        ReachedMore(room0, dp, 0, k, k + 1);
      }
      var ok := Touch(dp, k);
      return if ok then Done(k) else Panicked;
    }

    /** isdirempty: nothing behind the two dots. */
    method Isdirempty(d: nat) returns (r: Outcome<bool>)
      requires Ok() && d < |ino| && ino[d].typ != 0
      modifies this`room
      ensures Ok() && !r.Refused? && (r.Panicked? <==> !Affords(old(room), d, 2, UsedScan(ino[d].entries, 2)))
      ensures r.Done? ==> room == Reached(old(room), d, 2, UsedScan(ino[d].entries, 2))
      ensures r.Done? ==> (r.value <==> forall k :: 2 <= k < |ino[d].entries| ==> ino[d].entries[k].inum == 0)
    {
      hide Inv, RoomOk, Affords, Reached;
      RoomSize(ino, room);
      ghost var e, room0 := ino[d].entries, room;
      ReachedNone(room, d, 2);
      var k := 2;
      while k < |ino[d].entries|
        invariant 2 <= k && UsedScan(e, 2) == UsedScan(e, k) && Ok() && |room.slots| == |ino|
        invariant Affords(room0, d, 2, k) && room == Reached(room0, d, 2, k)
        invariant forall l :: 2 <= l < k && l < |e| ==> e[l].inum == 0
        decreases |e| - k
      {
        ReachedMore(room0, d, 2, k, k + 1);
        var ok := Touch(d, k);
        if !ok {
          if Affords(room0, d, 2, UsedScan(e, 2)) {
            AffordsLess(room0, d, 2, k + 1, UsedScan(e, 2));
          }
          return Panicked;
        }
        if ino[d].entries[k].inum != 0 {
          return Done(false);
        }
        k := k + 1;
      }
      return Done(true);
    }

    /** The search of ialloc: the first free inode, from inode 1 on. */
    method FindFree() returns (r: Option<nat>)
      requires |ino| > 0
      ensures r.Some? <==> FirstFree(ino) < |ino|
      ensures r.Some? ==> r.value == FirstFree(ino) && ino[r.value].typ == 0
    {
      var i := 1;
      while i < |ino|
        invariant 1 <= i <= |ino|
        invariant FreeFrom(ino, 1) == FreeFrom(ino, i)
      {
        if ino[i].typ == 0 {
          return Some(i);
        }
        i := i + 1;
      }
      return None;
    }

    /** iput of an inode that has been locked: what it frees cannot be found from the root, and its blocks are free. */
    method Iput(i: nat)
      requires Ok() && i < |ino| && refs[i] >= 1 && ino[i].typ != 0
      modifies this`ino, this`refs, this`room
      ensures Ok() && refs == old(refs)[i := old(refs)[i] - 1]
      ensures S() == Released(old(S()), i, old(refs)[i]) && room == Freed(old(S()), old(room), i, old(refs)[i])
      ensures ino[i].typ == 0 ==> !Reachable(old(S()), i)
    {
      hide Inv, Reachable;
      if ino[i].nlink == 0 {
        var r := refs[i];
        if r == 1 {
          FreeInv(S(), i);
          FreeOnlyUnreachable(S(), i);
          room := Emptied(room, i);
          ino := ino[i := Inode(0, ino[i].nlink, [])];
        }
      }
      refs := refs[i := refs[i] - 1];
    }

    /**
    sys_link behind namei: the count goes up first and comes down again if the entry cannot be
    made.  The parent is what nameiparent gave for the new path.
    */
    method Link(i: nat, parent: Option<nat>, name: string) returns (r: Outcome<nat>)
      requires Ok() && i < |ino| && ino[i].typ != 0 && refs[i] >= 1
      requires ino[i].typ != T_DIR && parent.Some? ==> IsDir(S(), parent.value) && refs[parent.value] >= 1
      modifies this`ino, this`refs, this`pending, this`room
      ensures r.Panicked? <==>
                && old(ino)[i].typ != T_DIR && parent.Some?
                && LinkStops(old(ino)[parent.value].entries, old(room), parent.value, name)
      ensures !r.Panicked? ==> Ok() && pending == old(pending)
      ensures !r.Panicked? ==>
                refs == (if old(ino)[i].typ != T_DIR && parent.Some? then Less(old(refs), parent.value)
                         else old(refs))[i := old(refs)[i] - 1]
      ensures !r.Panicked? ==>
                (r.Done? <==> old(ino)[i].typ != T_DIR && parent.Some? && Absent(old(ino)[parent.value].entries, name))
      ensures r.Done? ==>
                var dp, e := parent.value, old(ino)[parent.value].entries;
                && r.value == Place(e) && Vacant(old(S()), dp, r.value)
                && var t := Linked(old(S()), dp, r.value, name, i);
                && S() == Released(Released(t, dp, old(refs)[dp]), i, old(refs)[i])
                && room == Freed(Released(t, dp, old(refs)[dp]),
                                 Freed(t, Reached(old(room), dp, 0, Enlarged(e)), dp, old(refs)[dp]), i, old(refs)[i])
      ensures r.Refused? && (old(ino)[i].typ == T_DIR || parent.None?) ==>
                S() == Released(old(S()), i, old(refs)[i]) && room == Freed(old(S()), old(room), i, old(refs)[i])
      ensures r.Refused? && old(ino)[i].typ != T_DIR && parent.Some? ==>
                var dp := parent.value;
                var room1 := Reached(old(room), dp, 0, Scanned(old(ino)[dp].entries, name));
                && S() == Released(Released(old(S()), dp, old(refs)[dp]), i, old(refs)[i])
                && room == Freed(Released(old(S()), dp, old(refs)[dp]), Freed(old(S()), room1, dp, old(refs)[dp]), i,
                                 old(refs)[i])
    {
      hide Inv, MayEnter, Vacant, Enter, Bump, Drop, Absent, Reachable, Linked, Matches, RoomOk, LinkStops, Affords,
           Reached, Emptied, Place, Enlarged;
      RoomSize(ino, room);
      ghost var s := S();
      if ino[i].typ == T_DIR {
        Iput(i);
        return Refused;
      }
      InUse(s, i);
      MoreLinks(i);
      Bumped(s, i);
      r := Refused;
      if parent.Some? {
        r := LinkIn(i, parent.value, name, s);
        if r.Done? {
          Iput(i);
        }
        if r.Done? || r.Panicked? {
          return;
        }
        UndoBump(s, parent.value, old(refs)[parent.value], i);
      } else {
        UndoBumpAlone(s, i);
      }
      FewerLinks(i);
      Iput(i);
    }

    /** The entry in the parent; s is what there was before the count went up. */
    method LinkIn(i: nat, dp: nat, name: string, ghost s: State) returns (r: Outcome<nat>)
      requires 0 < i < |s.ino| == |ino| == |refs| && s.ino[i].typ != 0 && s.ino[i].typ != T_DIR && refs[i] >= 1
      requires IsDir(s, dp) && IsDir(S(), dp) && refs[dp] >= 1 && S() == Bump(s, i) && Inv(s) && Ok()
      modifies this`ino, this`refs, this`pending, this`room
      ensures r.Panicked? <==> LinkStops(s.ino[dp].entries, old(room), dp, name)
      ensures !r.Panicked? ==> Ok() && refs == Less(old(refs), dp) && |ino| == |s.ino| && ino[i].typ != 0
      ensures !r.Panicked? ==> (r.Done? <==> Absent(s.ino[dp].entries, name))
      ensures r.Done? ==>
                var e := s.ino[dp].entries;
                && r.value == Place(e) && Vacant(s, dp, r.value) && pending == s.pending
                && var t := Linked(s, dp, r.value, name, i);
                && S() == Released(t, dp, old(refs)[dp])
                && room == Freed(t, Reached(old(room), dp, 0, Enlarged(e)), dp, old(refs)[dp])
      ensures r.Refused? ==>
                && S() == Released(Bump(s, i), dp, old(refs)[dp])
                && room == Freed(s, Reached(old(room), dp, 0, Scanned(s.ino[dp].entries, name)), dp, old(refs)[dp])
    {
      hide Inv, MayEnter, Vacant, Enter, Bump, Absent, Reachable, Linked, Matches, RoomOk, LinkStops, Affords, Reached,
           Emptied, Place, Enlarged, Scanned;
      RoomSize(ino, room);
      Bumped(s, i);
      BumpedMayEnter(s, dp, i);
      r := Dirlink(dp, name, i);
      if r.Panicked? {
        return;
      }
      RoomSize(ino, room);
      if r.Done? {
        BumpedVacant(s, dp, i, r.value);
        LinkedMeans(s, dp, r.value, name, i);
      }
      ReleasedOther(S(), dp, refs[dp], i);
      Iput(dp);
    }

    /**
    sys_unlink behind nameiparent.  The panic for a count below one is never reached; a directory
    is only removed when it is empty, and the count of its parent goes down for its "..".
    */
    method Unlink(dp: nat, name: string) returns (r: Outcome<nat>, ghost k: nat)
      requires Ok() && IsDir(S(), dp) && refs[dp] >= 1
      modifies this`ino, this`refs, this`pending, this`room
      ensures r.Panicked? <==> UnlinkStops(old(S()), old(room), dp, name)
      ensures !r.Panicked? ==> Ok() && pending == old(pending) && refs == Less(old(refs), dp)
      ensures !r.Panicked? ==> (r.Refused? <==> !MayUnlink(old(S()), dp, name))
      ensures r.Done? ==>
                && IsEntry(old(ino)[dp].entries, name, k) && Names(old(S()), dp, k, r.value) && r.value != dp
                && var t := Unnamed(old(S()), dp, k);
                && S() == Released(Released(t, dp, old(refs)[dp]), r.value, old(refs)[r.value] + 1)
                && room == Freed(Released(t, dp, old(refs)[dp]),
                                 Freed(t, Looked(old(S()), old(room), dp, name), dp, old(refs)[dp]), r.value,
                                 old(refs)[r.value] + 1)
      ensures r.Refused? ==>
                && S() == Released(old(S()), dp, old(refs)[dp])
                && room == Freed(old(S()), Looked(old(S()), old(room), dp, name), dp, old(refs)[dp])
    {
      hide Inv, Absent, Unnamed, MayUnlink, RoomOk, Affords, Reached, Emptied, UsedScan, Scanned, Target;
      RoomSize(ino, room);
      k := 0;
      ghost var s := S();
      if name == "." || name == ".." {
        NoUnlink(s, dp, name);
        Iput(dp);
        return Refused, 0;
      }
      var at := Dirlookup(dp, name);
      if at.Panicked? {
        return Panicked, 0;
      }
      if at.Refused? {
        NoUnlink(s, dp, name);
        Iput(dp);
        return Refused, 0;
      }
      k := at.value;
      EntryNames(s, dp, name, k);
      EntryPresent(s.ino[dp].entries, name, k);
      TargetIs(s.ino[dp].entries, name, k);
      UnlinkDecided(s, dp, name, k);
      r := UnlinkAt(dp, at.value);
    }

    /** sys_unlink of the entry at k, which dirlookup has found. */
    method UnlinkAt(dp: nat, k: nat) returns (r: Outcome<nat>)
      requires dp < |ino| && k < |ino[dp].entries| && Names(S(), dp, k, ino[dp].entries[k].inum)
      requires var i := ino[dp].entries[k].inum;
               i < |ino| == |refs| && i != dp && ino[i].typ != 0 && ino[i].nlink >= 1 && refs[dp] >= 1 && Ok()
      modifies this`ino, this`refs, this`pending, this`room
      ensures var i := old(ino)[dp].entries[k].inum;
              && (r.Panicked? <==> IsDir(old(S()), i) && !Affords(old(room), i, 2, UsedScan(old(ino)[i].entries, 2)))
              && (!r.Panicked? ==>
                    && Ok() && pending == old(pending) && refs == Less(old(refs), dp)
                    && (r.Refused? <==> NotEmpty(old(S()), i)))
              && (!r.Panicked? ==>
                    var room1 := if IsDir(old(S()), i) then Reached(old(room), i, 2, UsedScan(old(ino)[i].entries, 2))
                                 else old(room);
                    && (r.Refused? ==>
                          && S() == Released(old(S()), dp, old(refs)[dp])
                          && room == Freed(old(S()), room1, dp, old(refs)[dp]))
                    && (r.Done? ==>
                          var t := Unnamed(old(S()), dp, k);
                          && r.value == i && S() == Released(Released(t, dp, old(refs)[dp]), i, old(refs)[i] + 1)
                          && room == Freed(Released(t, dp, old(refs)[dp]), Freed(t, room1, dp, old(refs)[dp]), i,
                                           old(refs)[i] + 1)))
    {
      hide Inv, Unnamed, RoomOk, Affords, Reached, Emptied, UsedScan;
      RoomSize(ino, room);
      var i := ino[dp].entries[k].inum;
      refs := refs[i := refs[i] + 1];
      if ino[i].nlink < 1 {
        return Panicked;
      }
      if ino[i].typ == T_DIR {
        var empty := Isdirempty(i);
        if empty.Panicked? {
          return Panicked;
        }
        RoomSize(ino, room);
        if !empty.value {
          Iput(i);
          Iput(dp);
          return Refused;
        }
      }
      Remove(dp, k, i);
      return Done(i);
    }

    /** The rest of sys_unlink, when nothing stands against it; the entry to be cleared has been read. */
    method Remove(dp: nat, k: nat, i: nat)
      requires Ok() && Names(S(), dp, k, i) && i < |ino| && i != dp && ino[i].typ != 0 && refs[dp] >= 1 && refs[i] >= 1
      modifies this`ino, this`refs, this`pending, this`room
      ensures Ok() && pending == old(pending)
      ensures var t := Unnamed(old(S()), dp, k);
              && S() == Released(Released(t, dp, old(refs)[dp]), i, old(refs)[i])
              && room == Freed(Released(t, dp, old(refs)[dp]), Freed(t, old(room), dp, old(refs)[dp]), i, old(refs)[i])
      ensures refs == Less(old(refs), dp)[i := old(refs)[i] - 1]
    {
      hide Inv, Clear, Drop, Unnamed, Reachable, RoomOk, Emptied, Released, Freed;
      RoomSize(ino, room);
      UnnamedSteps(S(), dp, k, i);
      ClearEntry(dp, k);
      if ino[i].typ == T_DIR {
        FewerLinks(dp);
      }
      DropAfterRelease(S(), dp, refs[dp], i);
      DropFreed(S(), room, dp, refs[dp], i);
      Iput(dp);
      FewerLinks(i);
      Iput(i);
    }

    /** The entry is overwritten with zeros. */
    method ClearEntry(dp: nat, k: nat)
      requires Ok() && IsDir(S(), dp) && 2 <= k < |ino[dp].entries| && ino[dp].entries[k].inum != 0
      modifies this`ino, this`pending
      ensures Ok() && S() == Clear(old(S()), dp, k)
    {
      hide Inv;
      ClearInv(S(), dp, k, ino[dp].entries[k].inum);
      pending := pending + Share(S(), dp, ino[dp].entries[k].inum);
      ino := ino[dp := Inode(ino[dp].typ, ino[dp].nlink, ino[dp].entries[k := Dirent(0, "")])];
    }

    /**
    create behind nameiparent.  An existing plain file is returned; anything else with that name
    is refused.  dirlink never finds the name taken.
    */
    method Create(dp: nat, name: string, typ: int) returns (r: Outcome<nat>, ghost k: nat)
      requires Ok() && IsDir(S(), dp) && refs[dp] >= 1 && typ != 0
      modifies this`ino, this`refs, this`pending, this`room
      ensures r.Panicked? <==> CreateStops(old(S()), old(room), dp, name, typ)
      ensures !r.Panicked? ==> Ok() && pending == old(pending)
      ensures r.Done? && Absent(old(ino)[dp].entries, name) ==>
                var e, i := old(ino)[dp].entries, r.value;
                && i == FirstFree(old(ino)) < |old(ino)| && old(ino)[i].typ == 0
                && k == Place(e) && Vacant(old(S()), dp, k)
                && S() == Released(Created(old(S()), dp, k, name, i, typ), dp, old(refs)[dp])
                && room == Freed(Created(old(S()), dp, k, name, i, typ), NewRoom(old(room), e, dp, name, i, typ), dp,
                                 old(refs)[dp])
      ensures !r.Panicked? && !Absent(old(ino)[dp].entries, name) ==>
                && IsEntry(old(ino)[dp].entries, name, k)
                && WasThere(old(S()), Reached(old(room), dp, 0, Scanned(old(ino)[dp].entries, name)), old(refs), dp, k,
                            typ, r, S(), room, refs)
      ensures r.Done? ==> |refs| == |old(refs)| && refs == Less(old(refs), dp)[r.value := old(refs)[r.value] + 1]
      ensures r.Refused? ==> !Absent(old(ino)[dp].entries, name)
    {
      hide Inv, Absent, Created, Dangling, RoomOk, Affords, Reached, Emptied, Place, Enlarged, FirstFree, NewStops,
           Scanned, WasThere, Vacant;
      RoomSize(ino, room);
      k := 0;
      var at := Dirlookup(dp, name);
      if at.Panicked? {
        return Panicked, 0;
      }
      RoomSize(ino, room);
      if at.Done? {
        k := at.value;
        EntryPresent(ino[dp].entries, name, k);
        r := Existing(dp, name, typ, at.value);
        return;
      }
      DotDotPresent(S(), dp);
      r := New(dp, name, typ);
      k := Place(old(ino)[dp].entries);
    }

    /** create when the name is not there. */
    method New(dp: nat, name: string, typ: int) returns (r: Outcome<nat>)
      requires |refs| == |ino| == |room.slots| && IsDir(S(), dp) && refs[dp] >= 1 && typ != 0
      requires Absent(ino[dp].entries, name) && Ok()
      modifies this`ino, this`refs, this`pending, this`room
      ensures var i := FirstFree(old(ino));
              && !r.Refused?
              && (r.Panicked? <==> i == |old(ino)| || NewStops(old(ino)[dp].entries, old(room), dp, name, i, typ))
              && (r.Done? ==>
                    var e := old(ino)[dp].entries;
                    && r.value == i && Ok() && pending == old(pending) && old(ino)[i].typ == 0
                    && refs == Less(old(refs), dp)[i := old(refs)[i] + 1]
                    && i != dp && Vacant(old(S()), dp, Place(e))
                    && var t := Created(old(S()), dp, Place(e), name, i, typ);
                    && S() == Released(t, dp, old(refs)[dp])
                    && room == Freed(t, Reached(WithDots(old(room), i, typ), dp, 0, Enlarged(e)), dp, old(refs)[dp]))
    {
      hide Inv, Absent, Alloc, Bump, Enter, MayEnter, Vacant, Created, NamePos, RoomOk, Affords, Reached, Emptied,
           Place, Enlarged, FirstFree, LinkStops, Scanned;
      ghost var s := S();
      InUse(s, dp);
      var free := FindFree();
      if free.None? {
        return Panicked;
      }
      var i := free.value;
      refs := refs[i := refs[i] + 1];
      AllocMeans(s, i, typ, dp);
      var begun := Begin(i, typ, dp);
      if !begun {
        return Panicked;
      }
      if typ == T_DIR {
        MoreLinks(dp);
        Bumped(Alloc(s, i, typ, dp), dp);
      }
      AllocMayEnter(s, i, typ, dp);
      var ok := Dirlink(dp, name, i);
      if !ok.Done? {
        return Panicked;
      }
      CreatedSteps(s, dp, ok.value, name, i, typ);
      RoomSize(ino, room);
      Iput(dp);
      return Done(i);
    }

    /** create when the name is there. */
    method Existing(dp: nat, name: string, typ: int, k: nat) returns (r: Outcome<nat>)
      requires Ok() && IsDir(S(), dp) && refs[dp] >= 1 && IsEntry(ino[dp].entries, name, k)
      modifies this`ino, this`refs, this`room
      ensures r.Panicked? <==> name == ".." && Dangling(old(S()), dp)
      ensures !r.Panicked? ==> Ok() && pending == old(pending)
      ensures !r.Panicked? ==> WasThere(old(S()), old(room), old(refs), dp, k, typ, r, S(), room, refs)
      ensures r.Done? ==> |refs| == |old(refs)| && r.value < |refs| && r.value != dp
      ensures r.Done? ==> refs == Less(old(refs), dp)[r.value := old(refs)[r.value] + 1]
    {
      hide Inv, Reachable, Dangling, RoomOk, Emptied;
      RoomSize(ino, room);
      EntryInUse(S(), dp, name, k);
      var i := ino[dp].entries[k].inum;
      refs := refs[i := refs[i] + 1];
      Iput(dp);
      if ino[i].typ == 0 {
        return Panicked;
      }
      if typ == T_FILE && ino[i].typ == T_FILE {
        return Done(i);
      }
      Iput(i);
      return Refused;
    }

    /**
    The inode that ialloc marks and create fills in, with the two dots of a directory; false, for the
    panic of balloc, when there is no block for them.
    */
    method Begin(i: nat, typ: int, dp: nat) returns (ok: bool)
      requires Ok() && 0 < i < |ino| && ino[i].typ == 0 && typ != 0 && 0 < dp < |ino|
      modifies this`ino, this`pending, this`room
      ensures ok <==> typ != T_DIR || Affords(old(room), i, 0, 2)
      ensures ok ==> Ok() && S() == Alloc(old(S()), i, typ, dp) && room == WithDots(old(room), i, typ)
    {
      hide Inv, Span;
      AllocInv(S(), i, typ, dp);
      if typ == T_DIR {
        if !Affords(room, i, 0, 2) {
          return false;
        }
        room := Reached(room, i, 0, 2);
      }
      ino := ino[i := Inode(typ, 1, if typ == T_DIR then [Dirent(i, "."), Dirent(dp, "..")] else [])];
      pending := pending + multiset{i};
      return true;
    }

    /** nlink++ and iupdate. */
    method MoreLinks(i: nat)
      requires Ok() && i < |ino| && ino[i].typ != 0
      modifies this`ino, this`pending
      ensures Ok() && S() == Bump(old(S()), i)
    {
      hide Inv;
      BumpInv(S(), i);
      ino := ino[i := Inode(ino[i].typ, ino[i].nlink + 1, ino[i].entries)];
      pending := pending + multiset{i};
    }

    /** nlink-- and iupdate. */
    method FewerLinks(i: nat)
      requires Ok() && i < |ino| && i in pending
      modifies this`ino, this`pending
      ensures Ok() && S() == Drop(old(S()), i)
    {
      hide Inv;
      DropInv(S(), i);
      ino := ino[i := Inode(ino[i].typ, ino[i].nlink - 1, ino[i].entries)];
      pending := pending - multiset{i};
    }
  }

  /** The blocks after create has entered the new inode i. */
  function NewRoom(room: Room, e: seq<Dirent>, dp: nat, name: string, i: nat, typ: int): (r: Room)
    requires dp < |room.slots| && i < |room.slots| && Absent(e, name) && Affords(room, dp, 0, Scanned(e, name))
    requires !NewStops(e, Reached(room, dp, 0, Scanned(e, name)), dp, name, i, typ)
    ensures |r.slots| == |room.slots|
  {
    Reached(WithDots(Reached(room, dp, 0, Scanned(e, name)), i, typ), dp, 0, Enlarged(e))
  }

  /** What create does with an inode that has the name already. */
  ghost predicate WasThere(s: State, room: Room, refs: seq<nat>, dp: nat, k: nat, typ: int, r: Outcome<nat>, s': State,
                        room': Room, refs': seq<nat>) {
    && dp < |s.ino| == |room.slots| == |refs| && k < |s.ino[dp].entries| && s.ino[dp].entries[k].inum < |s.ino|
    && refs[dp] >= 1
    && var i := s.ino[dp].entries[k].inum;
    var s1, room1 := Released(s, dp, refs[dp]), Freed(s, room, dp, refs[dp]);
    && (r.Done? <==> typ == T_FILE && s.ino[i].typ == T_FILE)
    && (r.Done? ==> r.value == i && s' == s1 && room' == room1)
    && (r.Refused? ==> refs' == Less(refs, dp))
    && (r.Refused? && i == dp ==> s' == s1 && room' == room1)
    && (r.Refused? && i != dp ==> s' == Released(s1, i, refs[i] + 1) && room' == Freed(s1, room1, i, refs[i] + 1))
  }

  lemma RoomSize(ino: seq<Inode>, room: Room)
    requires RoomOk(ino, room)
    ensures |room.slots| == |ino|
  {
  }

  lemma RoomLimit(ino: seq<Inode>, room: Room, d: nat)
    requires RoomOk(ino, room) && d < |ino|
    ensures |ino[d].entries| <= MAXENTRIES
  {
  }

  lemma ScansOn(e: seq<Dirent>, name: string, k: nat)
    requires k < |e| && forall l :: 0 <= l < k ==> !Matches(e[l], name)
    ensures k < Scanned(e, name) && (Matches(e[k], name) ==> IsEntry(e, name, k))
    ensures !Matches(e[k], name) ==> k + 1 <= Scanned(e, name)
  {
    if Absent(e, name) {
    } else {
      SomeEntry(e, name);
    }
  }

  lemma PlaceIs(e: seq<Dirent>, k: nat)
    requires k <= |e| && (k < |e| ==> e[k].inum == 0) && forall l :: 0 <= l < k ==> e[l].inum != 0
    ensures k == Place(e)
  {
  }

  lemma TargetIs(e: seq<Dirent>, name: string, k: nat)
    requires IsEntry(e, name, k) && !Absent(e, name)
    ensures Target(e, name) == e[k].inum
  {
  }

  lemma GrownRoom(ino: seq<Inode>, r: seq<Inode>, room: Room, d: nat)
    requires RoomOk(ino, room) && d < |ino| && |r| == |ino|
    requires r[d].typ == ino[d].typ && |r[d].entries| <= MAXENTRIES
    requires forall i :: 0 <= i < |ino| && i != d ==> r[i] == ino[i]
    ensures RoomOk(r, room)
  {
  }

  lemma DropFreed(m: State, room: Room, dp: nat, r: nat, i: nat)
    requires dp < |m.ino| && i < |m.ino| && i != dp && dp < |room.slots|
    ensures Freed(Drop(m, i), room, dp, r) == Freed(m, room, dp, r)
  {
  }

  /** A directory with names behind its dots. */
  ghost predicate NotEmpty(s: State, d: nat) {
    IsDir(s, d) && !forall k :: 2 <= k < |s.ino[d].entries| ==> s.ino[d].entries[k].inum == 0
  }

  /** The name is there, is none of the dots, and does not stand for a directory with names in it. */
  ghost predicate MayUnlink(s: State, dp: nat, name: string) {
    && dp < |s.ino| && name != "." && name != ".."
    && exists k: nat :: IsEntry(s.ino[dp].entries, name, k) && !NotEmpty(s, s.ino[dp].entries[k].inum)
  }

  lemma NoUnlink(s: State, dp: nat, name: string)
    requires dp < |s.ino| && (name == "." || name == ".." || Absent(s.ino[dp].entries, name))
    ensures !MayUnlink(s, dp, name)
  {
  }

  lemma UnlinkDecided(s: State, dp: nat, name: string, k: nat)
    requires dp < |s.ino| && name != "." && name != ".." && IsEntry(s.ino[dp].entries, name, k)
    ensures var i := s.ino[dp].entries[k].inum;
            MayUnlink(s, dp, name) <==>
              !(IsDir(s, i) && !forall l :: 2 <= l < |s.ino[i].entries| ==> s.ino[i].entries[l].inum == 0)
  {
    if MayUnlink(s, dp, name) {
      var l: nat :| IsEntry(s.ino[dp].entries, name, l) && !NotEmpty(s, s.ino[dp].entries[l].inum);
      assert l == k;
    }
  }

  lemma InUse(s: State, i: nat)
    requires Inv(s) && i < |s.ino| && s.ino[i].typ != 0
    ensures i > 0
  {
  }

  lemma DotDotPresent(s: State, d: nat)
    requires Inv(s) && IsDir(s, d)
    ensures !Absent(s.ino[d].entries, "..")
  {
    assert Dots(s, d);
  }

  lemma EntryPresent(e: seq<Dirent>, name: string, k: nat)
    requires IsEntry(e, name, k)
    ensures !Absent(e, name)
  {
  }

  /** The ".." of a directory leads to an inode that is no longer in use. */
  ghost predicate Dangling(s: State, d: nat) {
    && d < |s.ino| && |s.ino[d].entries| >= 2
    && var i := s.ino[d].entries[1].inum;
    i < |s.ino| && s.ino[i].typ == 0
  }

  /** Only ".." may lead to an inode that is no longer in use. */
  lemma EntryInUse(s: State, dp: nat, name: string, k: nat)
    requires Inv(s) && IsDir(s, dp) && IsEntry(s.ino[dp].entries, name, k)
    ensures var i := s.ino[dp].entries[k].inum;
            && i < |s.ino| && (name != ".." ==> s.ino[i].typ != 0 && (i == dp || s.ino[i].nlink >= 1))
            && (s.ino[i].typ == 0 <==> name == ".." && Dangling(s, dp))
    ensures !Absent(s.ino[dp].entries, name)
  {
    assert Dots(s, dp);
    var i := s.ino[dp].entries[k].inum;
    if k >= 2 {
      assert Names(s, dp, k, i);
      assert (dp, k) in NamePos(s, i);
      assert Counted(s, i);
    }
  }

  lemma AllocMeans(s: State, i: nat, typ: int, dp: nat)
    requires Inv(s) && 0 < i < |s.ino| && s.ino[i].typ == 0 && typ != 0 && IsDir(s, dp)
    ensures var a := Alloc(s, i, typ, dp);
            && |a.ino| == |s.ino| && a.ino[dp] == s.ino[dp] && a.ino[i].typ == typ && i != dp
  {
  }

  /** The new inode has just the links that its entry needs. */
  lemma AllocMayEnter(s: State, i: nat, typ: int, dp: nat)
    requires Inv(s) && 0 < i < |s.ino| && s.ino[i].typ == 0 && typ != 0 && IsDir(s, dp) && dp > 0
    ensures var a := Alloc(s, i, typ, dp);
            dp < |a.ino| && MayEnter(if typ == T_DIR then Bump(a, dp) else a, dp, i)
  {
    hide Counted, Tree, Allocated;
    assert Rooted(s);
    var a := Alloc(s, i, typ, dp);
    AllocInv(s, i, typ, dp);
    var b := if typ == T_DIR then Bump(a, dp) else a;
    SameNamesSets(a, b, i);
    assert Share(b, dp, i) == if typ == T_DIR then multiset{i} + multiset{dp} else multiset{i};
  }

  lemma CreatedSteps(s: State, dp: nat, k: nat, name: string, i: nat, typ: int)
    requires 0 < i < |s.ino| && i != dp && IsDir(s, dp)
    requires var a := Alloc(s, i, typ, dp);
             dp < |a.ino| && Vacant(if typ == T_DIR then Bump(a, dp) else a, dp, k)
    ensures Vacant(s, dp, k)
    ensures var a := Alloc(s, i, typ, dp);
            var r := Enter(if typ == T_DIR then Bump(a, dp) else a, dp, k, name, i);
            && r == Created(s, dp, k, name, i, typ) && r.pending == s.pending && |r.ino| == |s.ino|
            && r.ino[dp].typ == T_DIR
  {
  }

  /** Whatever is not called "." or ".." lies behind the dots and names an inode in use, with a count. */
  lemma EntryNames(s: State, dp: nat, name: string, k: nat)
    requires Inv(s) && IsDir(s, dp) && name != "." && name != ".." && IsEntry(s.ino[dp].entries, name, k)
    ensures k >= 2
    ensures var i := s.ino[dp].entries[k].inum;
            && Names(s, dp, k, i) && i < |s.ino| && s.ino[i].typ != 0 && s.ino[i].nlink >= 1 && i != dp
  {
    assert Dots(s, dp);
    var i := s.ino[dp].entries[k].inum;
    assert Names(s, dp, k, i);
    assert (dp, k) in NamePos(s, i);
    assert Counted(s, i);
  }

  lemma UnnamedSteps(s: State, dp: nat, k: nat, i: nat)
    requires Names(s, dp, k, i) && i < |s.ino| && i != dp
    ensures var c := Clear(s, dp, k);
            && |c.ino| == |s.ino| && c.ino[i] == s.ino[i] && (IsDir(s, i) ==> dp in c.pending)
            && c.ino[dp].typ == T_DIR
            && var m := if IsDir(s, i) then Drop(c, dp) else c;
            && |m.ino| == |s.ino| && m.ino[i] == s.ino[i] && m.ino[dp].typ == T_DIR && i in m.pending
            && Drop(m, i) == Unnamed(s, dp, k) && Unnamed(s, dp, k).pending == s.pending
            && Unnamed(s, dp, k).ino[i].typ == s.ino[i].typ
  {
  }

  /** Dropping the link of i and giving back dp may be done in either order. */
  lemma DropAfterRelease(m: State, dp: nat, r: nat, i: nat)
    requires dp < |m.ino| && i < |m.ino| && i != dp && i in m.pending
    ensures var t := Released(m, dp, r);
            && |t.ino| == |m.ino| && i in t.pending && t.ino[i] == m.ino[i]
            && |Drop(m, i).ino| == |m.ino| && Drop(t, i) == Released(Drop(m, i), dp, r)
            && Drop(t, i).ino[i].typ == m.ino[i].typ
  {
    assert Drop(Released(m, dp, r), i).ino == Released(Drop(m, i), dp, r).ino;
  }

  lemma Bumped(s: State, i: nat)
    requires i < |s.ino|
    ensures var r := Bump(s, i);
            && |r.ino| == |s.ino| && i in r.pending
            && (forall j: nat :: j < |s.ino| ==> r.ino[j].typ == s.ino[j].typ && r.ino[j].entries == s.ino[j].entries)
            && forall j: nat :: j < |s.ino| && j != i ==> r.ino[j] == s.ino[j]
  {
  }

  lemma LinkedMeans(s: State, dp: nat, k: nat, name: string, i: nat)
    requires Inv(s) && Vacant(s, dp, k) && 0 < i < |s.ino| && s.ino[i].typ != 0 && s.ino[i].typ != T_DIR
    ensures var r := Linked(s, dp, k, name, i);
            && r == Enter(Bump(s, i), dp, k, name, i) && |r.ino| == |s.ino| && r.pending == s.pending
            && r.ino[i] == Inode(s.ino[i].typ, s.ino[i].nlink + 1, s.ino[i].entries)
            && k < |r.ino[dp].entries| && r.ino[dp].entries[k] == Dirent(i, name) && r.ino[dp].typ == T_DIR
            && forall j: nat :: j < |s.ino| && j != i && j != dp ==> r.ino[j] == s.ino[j]
  {
    hide Inv;
  }

  lemma ReleasedOther(s: State, dp: nat, r: nat, i: nat)
    requires dp < |s.ino| && i < |s.ino| && i != dp
    ensures var t := Released(s, dp, r); |t.ino| == |s.ino| && t.ino[i] == s.ino[i] && t.pending == s.pending
  {
  }

  /** Taking the count back leaves no trace, also when the directory has gone in between. */
  lemma UndoBump(s: State, dp: nat, r: nat, i: nat)
    requires dp < |s.ino| && i < |s.ino| && i != dp
    ensures var t := Released(Bump(s, i), dp, r);
            |t.ino| == |s.ino| && i in t.pending && Drop(t, i) == Released(s, dp, r)
  {
    UndoPending(s.pending, i);
    var n := s.ino[i];
    var up := Inode(n.typ, n.nlink + 1, n.entries);
    assert Inode(up.typ, up.nlink - 1, up.entries) == n;
    BackAgain(s.ino, i, up);
    if s.ino[dp].nlink == 0 && r == 1 {
      BackAround(s.ino, i, up, dp, Inode(0, s.ino[dp].nlink, []));
    }
  }

  lemma BackAgain<T>(q: seq<T>, i: nat, x: T)
    requires i < |q|
    ensures q[i := x][i := q[i]] == q
  {
  }

  lemma BackAround<T>(q: seq<T>, i: nat, x: T, j: nat, f: T)
    requires i < |q| && j < |q| && i != j
    ensures q[i := x][j := f][i := q[i]] == q[j := f]
  {
  }

  lemma UndoPending(p: multiset<nat>, i: nat)
    ensures p + multiset{i} - multiset{i} == p
  {
  }

  lemma UndoBumpAlone(s: State, i: nat)
    requires i < |s.ino|
    ensures Drop(Bump(s, i), i) == s
  {
    UndoPending(s.pending, i);
    assert Drop(Bump(s, i), i).ino == s.ino;
  }

  lemma DotsOf(s: State, d: nat)
    requires Inv(s) && IsDir(s, d)
    ensures |s.ino[d].entries| >= 2 && s.ino[d].entries[0].inum != 0 && s.ino[d].entries[1].inum != 0
  {
    assert Dots(s, d);
  }

  lemma BumpedMayEnter(s: State, dp: nat, i: nat)
    requires Inv(s) && 0 < i < |s.ino| && s.ino[i].typ != 0 && s.ino[i].typ != T_DIR
    ensures MayEnter(Bump(s, i), dp, i)
  {
    assert Share(Bump(s, i), dp, i) == multiset{i};
  }

  lemma BumpedVacant(s: State, dp: nat, i: nat, k: nat)
    requires i < |s.ino| && Vacant(Bump(s, i), dp, k)
    ensures Vacant(s, dp, k)
  {
  }
}
