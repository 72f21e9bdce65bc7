/**
The runs of `LinkRuns` with the blocks that the directories take and give back, while files grow and
shrink beside them.  No block is lost, directories have no holes, and so what a step needs can be told
from the sizes alone.
*/
module DirRuns {
  import opened Prelude
  import opened Rooms
  import opened LinkCounts
  import opened Directories
  import opened LinkRuns
  import opened Compactness

  datatype Volume = Volume(w: World, room: Room)

  datatype Act =
    | Step(p: nat, e: Event)
    | Resize(i: nat, slots: set<nat>, free: nat)      // writei and itrunc of a file

  /* ---- no block is lost ---- */

  /** The blocks that are held. */
  ghost function Held(slots: seq<set<nat>>): (n: nat) {
    if slots == [] then 0 else |slots[0]| + Held(slots[1..])
  }

  lemma {:induction false} HeldUpdate(slots: seq<set<nat>>, i: nat, t: set<nat>)
    requires i < |slots|
    ensures Held(slots[i := t]) + |slots[i]| == Held(slots) + |t|
  {
    if i == 0 {
      assert slots[0 := t][1..] == slots[1..];
    } else {
      HeldUpdate(slots[1..], i - 1, t);
      assert slots[i := t][1..] == slots[1..][i - 1 := t];
    }
  }

  ghost function Total(room: Room): (n: nat) {
    room.free + Held(room.slots)
  }

  lemma ReachedTotal(room: Room, d: nat, a: nat, b: nat)
    requires d < |room.slots| && Affords(room, d, a, b)
    ensures Total(Reached(room, d, a, b)) == Total(room)
  {
    hide Span, Held;
    var s, more := room.slots[d], Span(a, b);
    HeldUpdate(room.slots, d, s + more);
    UnionSize(s, more - s);
    assert s + (more - s) == s + more;
  }

  lemma EmptiedTotal(room: Room, i: nat)
    requires i < |room.slots|
    ensures Total(Emptied(room, i)) == Total(room)
  {
    hide Held;
    HeldUpdate(room.slots, i, {});
  }

  /* ---- the steps ---- */

  /** The step does not stop for want of blocks. */
  ghost predicate Affordable(s: State, room: Room, pc: Pc, e: Event)
    requires Starts(s, pc, e) && |s.ino| == |room.slots|
  {
    match e
    case LinkEnter(_, name) => !LinkStops(s.ino[pc.dp].entries, room, pc.dp, name)
    case UnlinkLook(name, _) => !UnlinkStops(s, room, pc.dp, name)
    case CreateAlloc(i, typ, name) =>
      && pc.dp < |s.ino| && Affords(room, pc.dp, 0, Scanned(s.ino[pc.dp].entries, name))
      && (typ == T_DIR ==> Affords(Reached(room, pc.dp, 0, Scanned(s.ino[pc.dp].entries, name)), i, 0, 2))
    case CreateEnter(_) => !LinkStops(s.ino[pc.dp].entries, room, pc.dp, pc.name)
    case _ => true
  }

  ghost function RoomAfter(s: State, room: Room, pc: Pc, e: Event): (r: Room)
    requires Starts(s, pc, e) && |s.ino| == |room.slots| && Affordable(s, room, pc, e)
    ensures |r.slots| == |room.slots|
  {
    match e
    case Reclaim(i) => Emptied(room, i)
    case LinkEnter(_, name) => After(s.ino[pc.dp].entries, room, pc.dp, name)
    case UnlinkLook(name, _) => Looked(s, room, pc.dp, name)
    case CreateAlloc(i, typ, name) => WithDots(Reached(room, pc.dp, 0, Scanned(s.ino[pc.dp].entries, name)), i, typ)
    case CreateEnter(_) => After(s.ino[pc.dp].entries, room, pc.dp, pc.name)
    case _ => room
  }

  /** What dirlink has reached. */
  function After(e: seq<Dirent>, room: Room, dp: nat, name: string): (r: Room)
    requires dp < |room.slots| && !LinkStops(e, room, dp, name)
    ensures |r.slots| == |room.slots|
  {
    Reached(room, dp, 0, if Absent(e, name) then Enlarged(e) else Scanned(e, name))
  }

  ghost predicate Can(v: Volume, a: Act) {
    match a
    case Step(p, e) =>
      && Enabled(v.w, p, e) && Starts(S(v.w), v.w.procs[p].pc, e) && |v.w.ino| == |v.room.slots|
      && Affordable(S(v.w), v.room, v.w.procs[p].pc, e)
    case Resize(i, slots, free) =>
      && IsFile(S(v.w), i) && i < |v.room.slots|
      && |slots| + free == |v.room.slots[i]| + v.room.free
  }

  ghost function Perform(v: Volume, a: Act): (r: Volume)
    requires Can(v, a)
  {
    match a
    case Step(p, e) => Volume(Next(v.w, p, e), RoomAfter(S(v.w), v.room, v.w.procs[p].pc, e))
    case Resize(i, slots, free) => Volume(v.w, Room(v.room.slots[i := slots], free))
  }

  ghost predicate VolumeInv(v: Volume) {
    WorldInv(v.w) && RoomOk(v.w.ino, v.room) && NoHoles(S(v.w), v.room)
  }

  ghost predicate Fitting(s: State, room: Room) {
    RoomOk(s.ino, room) && NoHoles(s, room)
  }

  /** All but the inodes d and i have kept their types, sizes and blocks. */
  ghost predicate SameBut(s: State, room: Room, t: State, room': Room, d: nat, i: nat) {
    && |t.ino| == |s.ino| == |room.slots| == |room'.slots|
    && forall j: nat :: j < |s.ino| && j != d && j != i ==>
        && t.ino[j].typ == s.ino[j].typ && |t.ino[j].entries| == |s.ino[j].entries|
        && room'.slots[j] == room.slots[j]
  }

  ghost predicate FittingAt(t: State, room: Room, d: nat) {
    d < |t.ino| == |room.slots| ==>
      && |t.ino[d].entries| <= MAXENTRIES && (t.ino[d].typ == 0 ==> room.slots[d] == {})
      && (IsDir(t, d) ==> Compact(room, d, |t.ino[d].entries|))
  }

  lemma StillFitting(s: State, room: Room, t: State, room': Room, d: nat, i: nat)
    requires Fitting(s, room) && SameBut(s, room, t, room', d, i) && FittingAt(t, room', d) && FittingAt(t, room', i)
    ensures Fitting(t, room')
  {
    hide Compact;
    forall j: nat | j < |t.ino|
      ensures FittingAt(t, room', j)
    {
      if j != d && j != i && IsDir(t, j) {
        CompactAt(s, room, j);
        SameSlots(room, room', j, |s.ino[j].entries|);
      }
    }
    forall j: nat | IsDir(t, j)
      ensures Compact(room', j, |t.ino[j].entries|)
    {
      assert FittingAt(t, room', j);
    }
  }

  lemma FittingThere(s: State, room: Room, d: nat)
    requires Fitting(s, room)
    ensures FittingAt(s, room, d) && |s.ino| == |room.slots|
  {
    hide Compact;
    if IsDir(s, d) {
      CompactAt(s, room, d);
    }
  }

  /* ---- every step keeps it ---- */

  lemma EnterFitting(s: State, room: Room, dp: nat, name: string, i: nat)
    requires Fitting(s, room) && IsDir(s, dp) && dp < |room.slots| && Absent(s.ino[dp].entries, name)
    requires !LinkStops(s.ino[dp].entries, room, dp, name)
    ensures var e := s.ino[dp].entries;
            Fitting(Enter(s, dp, Place(e), name, i), After(e, room, dp, name))
  {
    hide Fitting, Compact, Affords, Absent, Place, Scanned, Span;
    var e := s.ino[dp].entries;
    FittingThere(s, room, dp);
    EnlargedCompact(e, room, dp);
    StillFitting(s, room, Enter(s, dp, Place(e), name, i), After(e, room, dp, name), dp, dp);
  }

  lemma AllocFitting(s: State, room: Room, dp: nat, name: string, i: nat, typ: int)
    requires Fitting(s, room) && IsDir(s, dp) && i < |s.ino| == |room.slots| && s.ino[i].typ == 0 && typ != 0
    requires Affords(room, dp, 0, Scanned(s.ino[dp].entries, name))
    requires typ == T_DIR ==> Affords(Reached(room, dp, 0, Scanned(s.ino[dp].entries, name)), i, 0, 2)
    ensures Fitting(Alloc(s, i, typ, dp), WithDots(Reached(room, dp, 0, Scanned(s.ino[dp].entries, name)), i, typ))
  {
    hide Fitting, Compact, Affords, Scanned, Span, Reached;
    FittingThere(s, room, dp);
    FittingThere(s, room, i);
    CompactReads(room, dp, |s.ino[dp].entries|, 0, Scanned(s.ino[dp].entries, name));
    DotsCompact(room, i);
    DotsElsewhere(room, i);
    StillFitting(s, room, Alloc(s, i, typ, dp), WithDots(room, i, typ), i, i);
  }

  lemma DotsElsewhere(room: Room, i: nat)
    requires i < |room.slots|
    ensures Affords(room, i, 0, 2) ==>
              forall j :: 0 <= j < |room.slots| && j != i ==> Reached(room, i, 0, 2).slots[j] == room.slots[j]
  {
  }

  lemma FreeFitting(s: State, room: Room, i: nat)
    requires Fitting(s, room) && i < |s.ino| == |room.slots|
    ensures Fitting(Free(s, i), Emptied(room, i))
  {
    hide Fitting, Compact;
    StillFitting(s, room, Free(s, i), Emptied(room, i), i, i);
  }

  /** The other steps leave types, sizes and blocks as they are. */
  lemma SameFitting(s: State, room: Room, pc: Pc, e: Event)
    requires Fitting(s, room) && |s.ino| == |room.slots| && Starts(s, pc, e)
    requires !e.Reclaim? && !e.LinkEnter? && !e.CreateAlloc? && !e.CreateEnter?
    ensures Fitting(Effect(s, pc, e), room)
  {
    hide Fitting;
    StillFitting(s, room, Effect(s, pc, e), room, |s.ino|, |s.ino|);
  }

  lemma StepFitting(w: World, room: Room, p: nat, e: Event)
    requires WorldInv(w) && Enabled(w, p, e) && Starts(S(w), w.procs[p].pc, e)
    requires Fitting(S(w), room) && |w.ino| == |room.slots| && Affordable(S(w), room, w.procs[p].pc, e)
    ensures Fitting(Effect(S(w), w.procs[p].pc, e), RoomAfter(S(w), room, w.procs[p].pc, e))
  {
    hide Inv, Owing, Uses, LockFree, OnlyRef, Absent, IsEntry, NotEmpty, Fitting, Affords, Reached, Scanned, LinkStops,
         UnlinkStops, Looked, Place, Enter, Alloc, Free, Emptied, After, WithDots, Bump, Drop, Clear, Nameless, Locks;
    var s, pc := S(w), w.procs[p].pc;
    assert ProcOk(s, w.procs[p]);
    match e
    case Reclaim(i) => FreeFitting(s, room, i);
    case LinkEnter(_, name) => EnterFitting(s, room, pc.dp, name, pc.i);
    case UnlinkLook(name, _) => LookFitting(s, room, pc.dp, name);
    case CreateAlloc(i, typ, name) => AllocFitting(s, room, pc.dp, name, i, typ);
    case CreateEnter(_) =>
      NamelessMeans(s, pc);
      EnterFitting(s, room, pc.dp, pc.name, pc.i);
    case _ => SameFitting(s, room, pc, e);
  }

  lemma LookFitting(s: State, room: Room, dp: nat, name: string)
    requires Fitting(s, room) && IsDir(s, dp) && |s.ino| == |room.slots| && Inv(s)
    ensures !UnlinkStops(s, room, dp, name) && Looked(s, room, dp, name) == room
  {
    hide Inv, UnlinkStops, Looked;
    UnlinkCostsNothing(s, room, dp, name);
  }

  lemma StepTotal(s: State, room: Room, pc: Pc, e: Event)
    requires Starts(s, pc, e) && |s.ino| == |room.slots| && Affordable(s, room, pc, e)
    ensures Total(RoomAfter(s, room, pc, e)) == Total(room)
  {
    hide Total, Affords, Reached, Scanned, Absent, Emptied, Enlarged, UsedScan, Target;
    match e
    case Reclaim(i) => EmptiedTotal(room, i);
    case LinkEnter(_, name) => AfterTotal(s.ino[pc.dp].entries, room, pc.dp, name);
    case UnlinkLook(name, _) => LookedTotal(s, room, pc.dp, name);
    case CreateAlloc(i, typ, name) =>
      var m := Scanned(s.ino[pc.dp].entries, name);
      ReachedTotal(room, pc.dp, 0, m);
      if typ == T_DIR {
        ReachedTotal(Reached(room, pc.dp, 0, m), i, 0, 2);
      }
    case CreateEnter(_) => AfterTotal(s.ino[pc.dp].entries, room, pc.dp, pc.name);
    case _ =>
  }

  lemma AfterTotal(e: seq<Dirent>, room: Room, dp: nat, name: string)
    requires dp < |room.slots| && !LinkStops(e, room, dp, name)
    ensures Total(After(e, room, dp, name)) == Total(room)
  {
    hide Total, Affords, Reached, Scanned, Absent, Enlarged;
    ReachedTotal(room, dp, 0, if Absent(e, name) then Enlarged(e) else Scanned(e, name));
  }

  lemma LookedTotal(s: State, room: Room, dp: nat, name: string)
    requires dp < |s.ino| == |room.slots| && !UnlinkStops(s, room, dp, name)
    ensures Total(Looked(s, room, dp, name)) == Total(room)
  {
    hide Total, Affords, Reached, Scanned, Absent, UsedScan, Target;
    if name != "." && name != ".." {
      var e := s.ino[dp].entries;
      ReachedTotal(room, dp, 0, Scanned(e, name));
      if !Absent(e, name) && IsDir(s, Target(e, name)) {
        ReachedTotal(Reached(room, dp, 0, Scanned(e, name)), Target(e, name), 2,
                     UsedScan(s.ino[Target(e, name)].entries, 2));
      }
    }
  }

  lemma ActInv(v: Volume, a: Act)
    requires VolumeInv(v) && Can(v, a)
    ensures VolumeInv(Perform(v, a)) && Total(Perform(v, a).room) == Total(v.room)
  {
    hide WorldInv, Enabled, Effect, RoomOk, NoHoles, Affordable, RoomAfter, Held, Starts, Next;
    match a
    case Step(p, e) =>
      EnabledIndex(v.w, p, e);
      StepFitting(v.w, v.room, p, e);
      StepTotal(S(v.w), v.room, v.w.procs[p].pc, e);
      NextState(v.w, p, e);
      NextInv(v.w, p, e);
    case Resize(i, slots, free) =>
      HeldUpdate(v.room.slots, i, slots);
      ResizeFitting(S(v.w), v.room, i, slots, free);
  }

  lemma ResizeFitting(s: State, room: Room, i: nat, slots: set<nat>, free: nat)
    requires Fitting(s, room) && IsFile(s, i) && i < |room.slots|
    ensures Fitting(s, Room(room.slots[i := slots], free))
  {
    hide Fitting;
    FittingThere(s, room, i);
    StillFitting(s, room, s, Room(room.slots[i := slots], free), i, i);
  }

  /* ---- every run ---- */

  ghost predicate Acts(v: Volume, acts: seq<Act>)
    decreases |acts|
  {
    acts == [] || (Can(v, acts[0]) && Acts(Perform(v, acts[0]), acts[1..]))
  }

  ghost function Run(v: Volume, acts: seq<Act>): (r: Volume)
    requires Acts(v, acts)
    decreases |acts|
  {
    if acts == [] then v else Run(Perform(v, acts[0]), acts[1..])
  }

  /** Over every run: no block is lost and no directory gets a hole. */
  lemma {:induction false} RunCompact(v: Volume, acts: seq<Act>)
    requires VolumeInv(v) && Acts(v, acts)
    ensures VolumeInv(Run(v, acts)) && Total(Run(v, acts).room) == Total(v.room)
    decreases |acts|
  {
    hide VolumeInv, Total, Can, Perform;
    if acts != [] {
      ActInv(v, acts[0]);
      RunCompact(Perform(v, acts[0]), acts[1..]);
    }
  }

  /**
  A step that the code takes never stops for want of blocks, except: link and create for an entry where
  none is vacant, and create for the dots of a directory.
  */
  lemma StepNeeds(v: Volume, p: nat, e: Event)
    requires VolumeInv(v) && Enabled(v.w, p, e) && Starts(S(v.w), v.w.procs[p].pc, e) && |v.w.ino| == |v.room.slots|
    ensures var pc := v.w.procs[p].pc;
            Affordable(S(v.w), v.room, pc, e) <==>
              match e
              case LinkEnter(_, _) => EntryFits(v.w.ino[pc.dp].entries, v.room.free)
              case CreateEnter(_) => EntryFits(v.w.ino[pc.dp].entries, v.room.free)
              case CreateAlloc(_, typ, _) => typ == T_DIR ==> v.room.free >= 1
              case _ => true
  {
    hide Inv, Owing, Uses, LockFree, OnlyRef, Absent, IsEntry, NotEmpty, Affords, Reached, Scanned, LinkStops,
         UnlinkStops, Place, Compact;
    var s, pc := S(v.w), v.w.procs[p].pc;
    assert ProcOk(s, v.w.procs[p]);
    assert Fitting(s, v.room);
    hide NoHoles, RoomOk;
    match e
    case LinkEnter(k, name) => EntryNeeds(s, v.room, pc.dp, name);
    case UnlinkLook(name, _) => LookFitting(s, v.room, pc.dp, name);
    case CreateAlloc(i, typ, name) =>
      FittingThere(s, v.room, pc.dp);
      FittingThere(s, v.room, i);
      CompactReads(v.room, pc.dp, |s.ino[pc.dp].entries|, 0, Scanned(s.ino[pc.dp].entries, name));
      DotsCompact(v.room, i);
    case CreateEnter(k) => EntryNeeds(s, v.room, pc.dp, pc.name);
    case _ =>
  }

  predicate EntryFits(e: seq<Dirent>, free: nat) {
    Place(e) < |e| || Price(|e|) <= free
  }

  lemma EntryNeeds(s: State, room: Room, dp: nat, name: string)
    requires Fitting(s, room) && IsDir(s, dp) && Absent(s.ino[dp].entries, name)
    requires Place(s.ino[dp].entries) < MAXENTRIES
    ensures dp < |room.slots|
    ensures !LinkStops(s.ino[dp].entries, room, dp, name) <==> EntryFits(s.ino[dp].entries, room.free)
  {
    hide Absent, Fitting, LinkStops, Compact;
    FittingThere(s, room, dp);
    CompactLinkStops(s.ino[dp].entries, room, dp, name);
  }

  /** Processes that have done nothing yet, on the volume of mkfs. */
  lemma Start(n: nat, names: seq<string>, procs: seq<Proc>, room: Room)
    requires n > ROOTINO + |names| && |MkfsRoot(names)| <= MAXENTRIES && |room.slots| == n
    requires forall p :: 0 <= p < |procs| ==> procs[p].pc == Idle
    requires room.slots[ROOTINO] == Span(0, 2 + |names|)
    requires forall i :: 0 <= i < n && (i == 0 || i >= 2 + |names|) ==> room.slots[i] == {}
    ensures VolumeInv(Volume(World(MkfsInodes(n, names), procs), room)) <==> (2 + |names|) % 32 != 0
  {
    hide WorldInv, Compact, Span;
    LinkRuns.Start(n, names, procs);
    MkfsCompact(names, room);
    assert IsDir(S(World(MkfsInodes(n, names), procs)), ROOTINO);
  }
}
