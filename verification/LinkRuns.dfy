/**
link, unlink, create and iput, called by any number of processes at once.  Each process has its own
place in its call, its own references and its own changes of nlink that are not yet matched by an
entry.  A step is guarded only by what the code tests when it takes it and by the locks it needs;
that a call still has what it counted on is proved, not assumed.
*/
module LinkRuns {
  import opened Rooms
  import opened LinkCounts
  import opened Directories

  datatype Pc =
    | Idle
    | Linking(i: nat)                                        // link: nlink is up, nameiparent is next
    | LinkAt(i: nat, dp: nat)                                // link: nameiparent has returned dp
    | Undoing(i: nat)                                        // link: nlink has to come down again
    | AtParent(dp: nat)                                      // unlink and create: nameiparent has returned dp
    | Unlinking(dp: nat, k: nat, i: nat)                     // unlink: both locked, nothing stands against it
    | Cleared(dp: nat, i: nat, dir: bool)                    // unlink: the entry is gone
    | Dropping(i: nat)                                       // unlink: dp has been released
    | Creating(dp: nat, i: nat, name: string)                // create: the new inode is filled in, both locked
    | Naming(dp: nat, i: nat, name: string, dir: bool)       // create: the ".." has been counted

  datatype Proc = Proc(pc: Pc, refs: multiset<nat>)

  datatype World = World(ino: seq<Inode>, procs: seq<Proc>)

  /** unlink and create hold two locks for a while. */
  predicate HoldsBoth(pc: Pc) {
    pc.Unlinking? || pc.Cleared? || pc.Creating? || pc.Naming?
  }

  /** The inodes whose locks a process holds between its steps. */
  function Locks(pc: Pc): (r: set<nat>) {
    if HoldsBoth(pc) then {pc.dp, pc.i} else if pc.Dropping? then {pc.i} else {}
  }

  /** The references that the call still needs. */
  function Uses(pc: Pc): (r: multiset<nat>) {
    if pc.Idle? then multiset{}
    else if pc.AtParent? then multiset{pc.dp}
    else if HoldsBoth(pc) || pc.LinkAt? then multiset{pc.dp} + multiset{pc.i}
    else multiset{pc.i}
  }

  /** The process has counted a link of i and not entered it, or cleared its entry and not discounted it. */
  predicate Owes(pc: Pc) {
    !(pc.Idle? || pc.AtParent? || pc.Unlinking?)
  }

  /** The same for the link of dp that the ".." of a directory stands for. */
  predicate OwesParent(pc: Pc) {
    (pc.Cleared? || pc.Naming?) && pc.dir
  }

  function Owed(pc: Pc): (r: multiset<nat>) {
    if OwesParent(pc) then multiset{pc.i} + multiset{pc.dp} else if Owes(pc) then multiset{pc.i} else multiset{}
  }

  ghost function Owing(procs: seq<Proc>): (r: multiset<nat>) {
    if procs == [] then multiset{} else Owed(procs[0].pc) + Owing(procs[1..])
  }

  ghost function S(w: World): (s: State) {
    State(w.ino, Owing(w.procs))
  }

  lemma {:induction false} OwingUpdate(procs: seq<Proc>, p: nat, q: Proc)
    requires p < |procs|
    ensures Owed(procs[p].pc) <= Owing(procs)
    ensures Owing(procs[p := q]) == Owing(procs) - Owed(procs[p].pc) + Owed(q.pc)
  {
    hide Owed;
    if p == 0 {
      assert procs[0 := q][1..] == procs[1..];
    } else {
      OwingUpdate(procs[1..], p - 1, q);
      assert procs[p := q][1..] == procs[1..][p - 1 := q];
    }
  }

  /* ---- what a process may rely on ---- */

  predicate IsFile(s: State, i: nat) {
    i < |s.ino| && s.ino[i].typ != 0 && s.ino[i].typ != T_DIR
  }

  /** The new inode i waits for its name in dp. */
  ghost predicate Nameless(s: State, dp: nat, i: nat, name: string) {
    && IsDir(s, dp) && 0 < i < |s.ino| && i != dp && s.ino[i].typ != 0 && Absent(s.ino[dp].entries, name)
    && (IsDir(s, i) ==>
          NamePos(s, i) == {} && i != ROOTINO && |s.ino[i].entries| >= 2 && s.ino[i].entries[1].inum == dp)
  }

  ghost predicate PcOk(s: State, pc: Pc) {
    match pc
    case Idle => true
    case Linking(i) => IsFile(s, i)
    case LinkAt(i, dp) => IsFile(s, i) && IsDir(s, dp)
    case Undoing(i) => IsFile(s, i)
    case AtParent(dp) => IsDir(s, dp)
    case Unlinking(dp, k, i) => Names(s, dp, k, i) && i < |s.ino| && i != dp && s.ino[i].typ != 0
    case Cleared(dp, i, dir) => IsDir(s, dp) && i < |s.ino| && i != dp && s.ino[i].typ != 0 && (dir <==> IsDir(s, i))
    case Dropping(i) => i < |s.ino| && s.ino[i].typ != 0
    case Creating(dp, i, name) => Nameless(s, dp, i, name)
    case Naming(dp, i, name, dir) => Nameless(s, dp, i, name) && (dir <==> IsDir(s, i))
  }

  ghost predicate ProcOk(s: State, q: Proc) {
    Uses(q.pc) <= q.refs && PcOk(s, q.pc)
  }

  ghost predicate Apart(procs: seq<Proc>) {
    forall p, q :: 0 <= p < |procs| && 0 <= q < |procs| && p != q ==> Locks(procs[p].pc) !! Locks(procs[q].pc)
  }

  ghost predicate WorldInv(w: World) {
    && Inv(S(w)) && Apart(w.procs)
    && forall p :: 0 <= p < |w.procs| ==> ProcOk(S(w), w.procs[p])
  }

  /* ---- the steps ---- */

  datatype Event =
    | Get(i: nat)
    | Put(i: nat)
    | Reclaim(i: nat)
    | LinkCount(i: nat)
    | LinkParent(dp: nat)
    | LinkEnter(k: nat, name: string)
    | LinkGiveUp
    | LinkUndo
    | Parent(dp: nat)
    | Leave
    | UnlinkLook(name: string, k: nat)
    | UnlinkClear
    | UnlinkCount
    | UnlinkDrop
    | CreateAlloc(i: nat, typ: int, name: string)
    | CreateCount
    | CreateEnter(k: nat)

  /** No other process holds the lock of i. */
  ghost predicate LockFree(w: World, p: nat, i: nat) {
    forall q :: 0 <= q < |w.procs| && q != p ==> i !in Locks(w.procs[q].pc)
  }

  /** The only reference to i is one of this process: ip->ref is 1. */
  ghost predicate OnlyRef(w: World, p: nat, i: nat)
    requires p < |w.procs|
  {
    w.procs[p].refs[i] == 1 && forall q :: 0 <= q < |w.procs| && q != p ==> i !in w.procs[q].refs
  }

  /** A reference that the call of this process does not need. */
  predicate Spare(q: Proc, i: nat) {
    Uses(q.pc) + multiset{i} <= q.refs
  }

  /** Where dirlink puts a new entry: the first vacant place, unless the directory has its largest size. */
  predicate FirstEmpty(e: seq<Dirent>, k: nat) {
    k == Place(e) && k < MAXENTRIES
  }

  ghost predicate Enabled(w: World, p: nat, e: Event) {
    p < |w.procs| &&
    var q, s := w.procs[p], S(w);
    match e
    case Get(i) => i < |w.ino|
    case Put(i) => Spare(q, i)
    case Reclaim(i) => i < |w.ino| && Spare(q, i) && OnlyRef(w, p, i) && LockFree(w, p, i)
                       && w.ino[i].typ != 0 && w.ino[i].nlink == 0
    case LinkCount(i) => q.pc.Idle? && i in q.refs && LockFree(w, p, i) && IsFile(s, i)
    case LinkParent(dp) => q.pc.Linking? && LockFree(w, p, dp) && IsDir(s, dp)
    case LinkEnter(k, name) => q.pc.LinkAt? && LockFree(w, p, q.pc.dp) && q.pc.dp < |w.ino|
                               && Absent(w.ino[q.pc.dp].entries, name) && FirstEmpty(w.ino[q.pc.dp].entries, k)
    case LinkGiveUp => q.pc.Linking? || q.pc.LinkAt?
    case LinkUndo => q.pc.Undoing? && LockFree(w, p, q.pc.i)
    case Parent(dp) => q.pc.Idle? && LockFree(w, p, dp) && IsDir(s, dp)
    case Leave => q.pc.AtParent?
    case UnlinkLook(name, k) => q.pc.AtParent? && LockFree(w, p, q.pc.dp) && q.pc.dp < |w.ino|
                                && name != "." && name != ".." && IsEntry(w.ino[q.pc.dp].entries, name, k)
                                && LockFree(w, p, w.ino[q.pc.dp].entries[k].inum)
                                && !NotEmpty(s, w.ino[q.pc.dp].entries[k].inum)
    case UnlinkClear => q.pc.Unlinking?
    case UnlinkCount => q.pc.Cleared?
    case UnlinkDrop => q.pc.Dropping?
    case CreateAlloc(i, typ, name) => q.pc.AtParent? && LockFree(w, p, q.pc.dp) && q.pc.dp < |w.ino|
                                      && Absent(w.ino[q.pc.dp].entries, name)
                                      && 0 < i < |w.ino| && w.ino[i].typ == 0 && typ != 0
    case CreateCount => q.pc.Creating?
    case CreateEnter(k) => q.pc.Naming? && q.pc.dp < |w.ino| && FirstEmpty(w.ino[q.pc.dp].entries, k)
  }

  /** The place of the process is one that the step starts from, and what it touches exists. */
  predicate Starts(s: State, pc: Pc, e: Event) {
    match e
    case Get(i) => true
    case Put(i) => true
    case Reclaim(i) => i < |s.ino|
    case LinkCount(i) => pc.Idle? && i < |s.ino|
    case LinkParent(dp) => pc.Linking?
    case LinkEnter(k, _) => pc.LinkAt? && pc.dp < |s.ino| && k <= |s.ino[pc.dp].entries|
    case LinkGiveUp => pc.Linking? || pc.LinkAt?
    case LinkUndo => pc.Undoing? && pc.i < |s.ino|
    case Parent(dp) => pc.Idle?
    case Leave => pc.AtParent?
    case UnlinkLook(_, k) => pc.AtParent? && pc.dp < |s.ino| && k < |s.ino[pc.dp].entries|
    case UnlinkClear => pc.Unlinking? && pc.dp < |s.ino| && pc.k < |s.ino[pc.dp].entries|
    case UnlinkCount => pc.Cleared? && pc.dp < |s.ino|
    case UnlinkDrop => pc.Dropping? && pc.i < |s.ino|
    case CreateAlloc(i, _, _) => pc.AtParent? && i < |s.ino|
    case CreateCount => pc.Creating? && pc.dp < |s.ino|
    case CreateEnter(k) => pc.Naming? && pc.dp < |s.ino| && k <= |s.ino[pc.dp].entries|
  }

  lemma EnabledStarts(w: World, p: nat, e: Event)
    requires WorldInv(w) && Enabled(w, p, e)
    ensures Starts(S(w), w.procs[p].pc, e)
  {
    hide Inv, Owing, LockFree, OnlyRef;
    assert ProcOk(S(w), w.procs[p]);
  }

  /** What happens to the inodes; the counts of pending links follow from the places of the processes. */
  ghost function Effect(s: State, pc: Pc, e: Event): (r: State)
    requires Starts(s, pc, e)
  {
    match e
    case Reclaim(i) => Free(s, i)
    case LinkCount(i) => Bump(s, i)
    case LinkEnter(k, name) => Enter(s, pc.dp, k, name, pc.i)
    case LinkUndo => Drop(s, pc.i)
    case UnlinkClear => Clear(s, pc.dp, pc.k)
    case UnlinkCount => if pc.dir then Drop(s, pc.dp) else s
    case UnlinkDrop => Drop(s, pc.i)
    case CreateAlloc(i, typ, _) => Alloc(s, i, typ, pc.dp)
    case CreateCount => if IsDir(s, pc.i) then Bump(s, pc.dp) else s
    case CreateEnter(k) => Enter(s, pc.dp, k, pc.name, pc.i)
    case _ => s
  }

  ghost function Moved(s: State, q: Proc, e: Event): (r: Proc)
    requires Starts(s, q.pc, e)
  {
    match e
    case Get(i) => Proc(q.pc, q.refs + multiset{i})
    case Put(i) => Proc(q.pc, q.refs - multiset{i})
    case Reclaim(i) => Proc(q.pc, q.refs - multiset{i})
    case LinkCount(i) => Proc(Linking(i), q.refs)
    case LinkParent(dp) => Proc(LinkAt(q.pc.i, dp), q.refs + multiset{dp})
    case LinkEnter(_, _) => Proc(Idle, q.refs)
    case LinkGiveUp => Proc(Undoing(q.pc.i), q.refs)
    case LinkUndo => Proc(Idle, q.refs)
    case Parent(dp) => Proc(AtParent(dp), q.refs + multiset{dp})
    case Leave => Proc(Idle, q.refs)
    case UnlinkLook(_, k) =>
      var i := s.ino[q.pc.dp].entries[k].inum;
      Proc(Unlinking(q.pc.dp, k, i), q.refs + multiset{i})
    case UnlinkClear => Proc(Cleared(q.pc.dp, q.pc.i, IsDir(s, q.pc.i)), q.refs)
    case UnlinkCount => Proc(Dropping(q.pc.i), q.refs)
    case UnlinkDrop => Proc(Idle, q.refs)
    case CreateAlloc(i, _, name) => Proc(Creating(q.pc.dp, i, name), q.refs + multiset{i})
    case CreateCount => Proc(Naming(q.pc.dp, q.pc.i, q.pc.name, IsDir(s, q.pc.i)), q.refs)
    case CreateEnter(_) => Proc(Idle, q.refs)
  }

  ghost function Next(w: World, p: nat, e: Event): (r: World)
    requires Enabled(w, p, e)
  {
    if !Starts(S(w), w.procs[p].pc, e) then w
    else World(Effect(S(w), w.procs[p].pc, e).ino, w.procs[p := Moved(S(w), w.procs[p], e)])
  }

  /* ---- the counts that a step leaves are those that the places of the processes call for ---- */

  /** How many links of j the process owes. */
  function OwedAt(pc: Pc, j: nat): (n: nat) {
    One(Owes(pc) && pc.i == j) + One(OwesParent(pc) && pc.dp == j)
  }

  lemma OwedCount(pc: Pc, j: nat)
    ensures Owed(pc)[j] == OwedAt(pc, j)
  {
  }

  function One(yes: bool): (n: nat) {
    if yes then 1 else 0
  }

  lemma BumpCount(s: State, i: nat, typ: int, dp: nat, j: nat)
    requires i < |s.ino|
    ensures Bump(s, i).pending[j] == s.pending[j] + One(i == j)
    ensures Alloc(s, i, typ, dp).pending[j] == s.pending[j] + One(i == j)
  {
  }

  lemma DropCount(s: State, i: nat, j: nat)
    requires i < |s.ino| && One(i == j) <= s.pending[j]
    ensures Drop(s, i).pending[j] == s.pending[j] - One(i == j)
  {
  }

  lemma EnterCount(s: State, d: nat, k: nat, name: string, i: nat, j: nat)
    requires d < |s.ino| && k <= |s.ino[d].entries| && One(i == j) + One(IsDir(s, i) && d == j) <= s.pending[j]
    ensures Enter(s, d, k, name, i).pending[j] == s.pending[j] - One(i == j) - One(IsDir(s, i) && d == j)
  {
  }

  lemma ClearCount(s: State, d: nat, k: nat, i: nat, j: nat)
    requires d < |s.ino| && k < |s.ino[d].entries| && s.ino[d].entries[k].inum == i
    ensures Clear(s, d, k).pending[j] == s.pending[j] + One(i == j) + One(IsDir(s, i) && d == j)
  {
  }

  /** What a step does to pending is what it does to the debts of its process. */
  ghost predicate Balanced(s: State, q: Proc, e: Event, j: nat)
    requires Starts(s, q.pc, e)
  {
    Effect(s, q.pc, e).pending[j] + OwedAt(q.pc, j) == s.pending[j] + OwedAt(Moved(s, q, e).pc, j)
  }

  lemma LinkDebts(s: State, q: Proc, e: Event, j: nat)
    requires e.LinkCount? || e.LinkEnter? || e.LinkUndo? || e.LinkParent? || e.LinkGiveUp?
    requires Starts(s, q.pc, e) && PcOk(s, q.pc) && OwedAt(q.pc, j) <= s.pending[j]
    ensures Balanced(s, q, e, j)
  {
    hide Absent, NamePos, Share, Bump, Drop, Alloc, Enter, Clear;
    match e
    case LinkCount(i) => BumpCount(s, i, 0, 0, j);
    case LinkEnter(k, name) => EnterCount(s, q.pc.dp, k, name, q.pc.i, j);
    case LinkUndo => DropCount(s, q.pc.i, j);
    case LinkParent(_) =>
    case LinkGiveUp =>
  }

  lemma UnlinkDebts(s: State, q: Proc, e: Event, j: nat)
    requires e.UnlinkLook? || e.UnlinkClear? || e.UnlinkCount? || e.UnlinkDrop?
    requires Starts(s, q.pc, e) && PcOk(s, q.pc) && OwedAt(q.pc, j) <= s.pending[j]
    ensures Balanced(s, q, e, j)
  {
    hide Absent, NamePos, Share, Bump, Drop, Alloc, Enter, Clear;
    match e
    case UnlinkLook(_, _) =>
    case UnlinkClear => ClearCount(s, q.pc.dp, q.pc.k, q.pc.i, j);
    case UnlinkCount =>
      if q.pc.dir {
        DropCount(s, q.pc.dp, j);
      }
    case UnlinkDrop => DropCount(s, q.pc.i, j);
  }

  lemma CreateDebts(s: State, q: Proc, e: Event, j: nat)
    requires e.CreateAlloc? || e.CreateCount? || e.CreateEnter?
    requires Starts(s, q.pc, e) && PcOk(s, q.pc) && OwedAt(q.pc, j) <= s.pending[j]
    ensures Balanced(s, q, e, j)
  {
    hide Absent, NamePos, Share, Bump, Drop, Alloc, Enter, Clear;
    match e
    case CreateAlloc(i, typ, _) => BumpCount(s, i, typ, q.pc.dp, j);
    case CreateCount => BumpCount(s, q.pc.dp, 0, 0, j);
    case CreateEnter(k) => EnterCount(s, q.pc.dp, k, q.pc.name, q.pc.i, j);
  }

  lemma SameDebts(s: State, q: Proc, e: Event, j: nat)
    requires Starts(s, q.pc, e) && PcOk(s, q.pc) && OwedAt(q.pc, j) <= s.pending[j]
    ensures Balanced(s, q, e, j)
  {
    hide PcOk;
    if e.LinkCount? || e.LinkEnter? || e.LinkUndo? || e.LinkParent? || e.LinkGiveUp? {
      LinkDebts(s, q, e, j);
    } else if e.UnlinkLook? || e.UnlinkClear? || e.UnlinkCount? || e.UnlinkDrop? {
      UnlinkDebts(s, q, e, j);
    } else if e.CreateAlloc? || e.CreateCount? || e.CreateEnter? {
      CreateDebts(s, q, e, j);
    }
  }

  lemma NextPending(procs: seq<Proc>, p: nat, q: Proc, r: multiset<nat>)
    requires p < |procs| && Owed(procs[p].pc) <= Owing(procs)
    requires Owing(procs[p := q]) == Owing(procs) - Owed(procs[p].pc) + Owed(q.pc)
    requires forall j: nat :: r[j] + OwedAt(procs[p].pc, j) == Owing(procs)[j] + OwedAt(q.pc, j)
    ensures Owing(procs[p := q]) == r
  {
    hide Owed, OwedAt, Owing;
    forall j: nat
      ensures Owing(procs[p := q])[j] == r[j]
    {
      OwedCount(procs[p].pc, j);
      OwedCount(q.pc, j);
    }
  }

  lemma NextState(w: World, p: nat, e: Event)
    requires p < |w.procs| && WorldInv(w) && Enabled(w, p, e) && Starts(S(w), w.procs[p].pc, e)
    ensures S(Next(w, p, e)) == Effect(S(w), w.procs[p].pc, e)
  {
    hide Inv, PcOk, Effect, Moved, Enabled, Owed, OwedAt, Uses;
    var q := w.procs[p];
    assert ProcOk(S(w), q);
    OwingUpdate(w.procs, p, Moved(S(w), q, e));
    forall j: nat
      ensures Effect(S(w), q.pc, e).pending[j] + OwedAt(q.pc, j) == S(w).pending[j] + OwedAt(Moved(S(w), q, e).pc, j)
    {
      OwedCount(q.pc, j);
      SameDebts(S(w), q, e, j);
    }
    NextPending(w.procs, p, Moved(S(w), q, e), Effect(S(w), q.pc, e).pending);
  }

  /* ---- every step keeps the counts safe ---- */

  lemma SomeDebt(s: State, pc: Pc)
    requires Owed(pc) <= s.pending
    ensures Owes(pc) ==> pc.i in s.pending
    ensures OwesParent(pc) ==> pc.dp in s.pending
  {
    if Owes(pc) {
      OwedCount(pc, pc.i);
    }
    if OwesParent(pc) {
      OwedCount(pc, pc.dp);
    }
  }

  lemma ShareOwed(s: State, pc: Pc)
    requires PcOk(s, pc) && (pc.LinkAt? || pc.Naming?)
    ensures Share(s, pc.dp, pc.i) == Owed(pc)
  {
    hide Nameless;
    if pc.LinkAt? {
      assert !IsDir(s, pc.i);
    } else if pc.dir {
      assert IsDir(s, pc.i);
    } else {
      assert !IsDir(s, pc.i);
    }
  }

  /**
  A call that has come to dirlink still has the links that its entry stands for, and a new directory has
  no name yet.
  */
  lemma StillMayEnter(s: State, pc: Pc)
    requires Inv(s) && PcOk(s, pc) && Owed(pc) <= s.pending && (pc.LinkAt? || pc.Naming?)
    ensures MayEnter(s, pc.dp, pc.i)
  {
    hide Counted, Tree, Allocated, NamePos;
    ShareOwed(s, pc);
    hide Owed, Share;
  }

  lemma EmptyIsVacant(s: State, d: nat, k: nat)
    requires Inv(s) && IsDir(s, d) && FirstEmpty(s.ino[d].entries, k)
    ensures Vacant(s, d, k)
  {
    hide Inv;
    DotsOf(s, d);
  }

  lemma EffectInv(w: World, p: nat, e: Event)
    requires p < |w.procs| && WorldInv(w) && Enabled(w, p, e) && Starts(S(w), w.procs[p].pc, e)
    ensures Inv(Effect(S(w), w.procs[p].pc, e))
  {
    hide Inv, Owing, Owed, LockFree, OnlyRef, Absent, Nameless, IsEntry, NotEmpty, Bump, Drop, Alloc, Enter, Clear,
         Free;
    var s, q := S(w), w.procs[p];
    assert ProcOk(s, q);
    OwingUpdate(w.procs, p, q);
    SomeDebt(s, q.pc);
    match e
    case Reclaim(i) => FreeInv(s, i);
    case LinkCount(i) => BumpInv(s, i);
    case LinkEnter(k, name) =>
      StillMayEnter(s, q.pc);
      EmptyIsVacant(s, q.pc.dp, k);
      EnterInv(s, q.pc.dp, k, name, q.pc.i);
    case LinkUndo => DropInv(s, q.pc.i);
    case UnlinkClear => ClearInv(s, q.pc.dp, q.pc.k, q.pc.i);
    case UnlinkCount =>
      if q.pc.dir {
        DropInv(s, q.pc.dp);
      }
    case UnlinkDrop => DropInv(s, q.pc.i);
    case CreateAlloc(i, typ, _) =>
      InUse(s, q.pc.dp);
      AllocInv(s, i, typ, q.pc.dp);
    case CreateCount => BumpParent(s, q.pc);
    case CreateEnter(k) =>
      NamelessMeans(s, q.pc);
      StillMayEnter(s, q.pc);
      EmptyIsVacant(s, q.pc.dp, k);
      EnterInv(s, q.pc.dp, k, q.pc.name, q.pc.i);
    case _ =>
  }

  lemma NamelessMeans(s: State, pc: Pc)
    requires PcOk(s, pc) && (pc.Creating? || pc.Naming?)
    ensures IsDir(s, pc.dp) && 0 < pc.i < |s.ino| && pc.i != pc.dp && s.ino[pc.i].typ != 0
    ensures Absent(s.ino[pc.dp].entries, pc.name)
  {
  }

  lemma BumpParent(s: State, pc: Pc)
    requires Inv(s) && PcOk(s, pc) && pc.Creating?
    ensures pc.dp < |s.ino| && Inv(Bump(s, pc.dp))
  {
    NamelessMeans(s, pc);
    BumpInv(s, pc.dp);
  }

  /* ---- no step disturbs what another process relies on ---- */

  lemma PcSameNames(s: State, r: State, pc: Pc)
    requires SameNames(s, r) && PcOk(s, pc)
    ensures PcOk(r, pc)
  {
    hide NamePos, SubPos;
    if pc.Creating? || pc.Naming? {
      NamelessMeans(s, pc);
      SameNamesSets(s, r, pc.i);
    }
  }

  lemma PcAlloc(s: State, i: nat, typ: int, dp: nat, pc: Pc)
    requires Inv(s) && 0 < i < |s.ino| && s.ino[i].typ == 0 && typ != 0 && 0 < dp < |s.ino| && PcOk(s, pc)
    ensures PcOk(Alloc(s, i, typ, dp), pc)
  {
    hide Inv, NamePos, SubPos;
    if pc.Creating? || pc.Naming? {
      NamelessMeans(s, pc);
      AllocSets(s, i, typ, dp, pc.i);
    }
  }

  lemma PcEnter(s: State, d: nat, k: nat, name: string, i: nat, pc: Pc)
    requires Vacant(s, d, k) && 0 < i < |s.ino| && PcOk(s, pc) && d !in Locks(pc) && (IsDir(s, i) ==> i !in Locks(pc))
    ensures PcOk(Enter(s, d, k, name, i), pc)
  {
    hide NamePos, SubPos;
    if pc.Creating? || pc.Naming? {
      NamelessMeans(s, pc);
      EnterSets(s, d, k, name, i, pc.i);
    }
  }

  lemma PcClear(s: State, d: nat, k: nat, i: nat, pc: Pc)
    requires Names(s, d, k, i) && PcOk(s, pc) && d !in Locks(pc)
    ensures PcOk(Clear(s, d, k), pc)
  {
    hide NamePos, SubPos;
    if pc.Creating? || pc.Naming? {
      NamelessMeans(s, pc);
      ClearSets(s, d, k, i, pc.i);
    }
  }

  lemma PcFree(s: State, i: nat, pc: Pc)
    requires Inv(s) && i < |s.ino| && s.ino[i].typ != 0 && s.ino[i].nlink <= 0 && PcOk(s, pc) && i !in Uses(pc)
    ensures PcOk(Free(s, i), pc)
  {
    hide Inv, NamePos, SubPos;
    if pc.Creating? || pc.Naming? {
      NamelessMeans(s, pc);
      FreeSets(s, i, pc.i);
    }
  }

  lemma UsesIn(q: Proc, s: State, i: nat)
    requires ProcOk(s, q) && i !in q.refs
    ensures i !in Uses(q.pc)
  {
    hide PcOk;
    assert Uses(q.pc)[i] <= q.refs[i];
  }

  lemma OthersOk(w: World, p: nat, e: Event, r: nat)
    requires p < |w.procs| && WorldInv(w) && Enabled(w, p, e) && Starts(S(w), w.procs[p].pc, e) && r < |w.procs|
    requires r != p
    ensures PcOk(Effect(S(w), w.procs[p].pc, e), w.procs[r].pc)
  {
    hide Inv, Owing, Owed, Absent, Nameless, IsEntry, NotEmpty, Bump, Drop, Alloc, Enter, Clear, Free, NamePos;
    var s, q, pc := S(w), w.procs[p], w.procs[r].pc;
    assert ProcOk(s, q) && ProcOk(s, w.procs[r]);
    assert Locks(q.pc) !! Locks(pc);
    match e
    case Reclaim(i) =>
      UsesIn(w.procs[r], s, i);
      PcFree(s, i, pc);
    case LinkCount(i) => PcBump(s, i, pc);
    case LinkEnter(k, name) =>
      EmptyIsVacant(s, q.pc.dp, k);
      InUse(s, q.pc.i);
      PcEnter(s, q.pc.dp, k, name, q.pc.i, pc);
    case LinkUndo => PcDrop(s, q.pc.i, pc);
    case UnlinkClear => PcClear(s, q.pc.dp, q.pc.k, q.pc.i, pc);
    case UnlinkCount =>
      if q.pc.dir {
        PcDrop(s, q.pc.dp, pc);
      }
    case UnlinkDrop => PcDrop(s, q.pc.i, pc);
    case CreateAlloc(i, typ, _) =>
      InUse(s, q.pc.dp);
      PcAlloc(s, i, typ, q.pc.dp, pc);
    case CreateCount =>
      if IsDir(s, q.pc.i) {
        PcBump(s, q.pc.dp, pc);
      }
    case CreateEnter(k) =>
      NamelessMeans(s, q.pc);
      EmptyIsVacant(s, q.pc.dp, k);
      PcEnter(s, q.pc.dp, k, q.pc.name, q.pc.i, pc);
    case _ =>
  }

  lemma PcBump(s: State, i: nat, pc: Pc)
    requires i < |s.ino| && PcOk(s, pc)
    ensures PcOk(Bump(s, i), pc)
  {
    PcSameNames(s, Bump(s, i), pc);
  }

  lemma PcDrop(s: State, i: nat, pc: Pc)
    requires i < |s.ino| && PcOk(s, pc)
    ensures PcOk(Drop(s, i), pc)
  {
    PcSameNames(s, Drop(s, i), pc);
  }

  /* ---- the process that moves ---- */

  function UsesAt(pc: Pc, j: nat): (n: nat) {
    One(!pc.Idle? && !pc.AtParent? && pc.i == j) + One((pc.AtParent? || pc.LinkAt? || HoldsBoth(pc)) && pc.dp == j)
  }

  lemma UsesCount(pc: Pc, j: nat)
    ensures Uses(pc)[j] == UsesAt(pc, j)
  {
  }

  lemma RefsCount(refs: multiset<nat>, i: nat, j: nat)
    ensures (refs + multiset{i})[j] == refs[j] + One(i == j)
    ensures i in refs ==> (refs - multiset{i})[j] == refs[j] - One(i == j)
  {
  }

  lemma MoverUsesAt(s: State, q: Proc, e: Event, j: nat)
    requires Starts(s, q.pc, e) && UsesAt(q.pc, j) <= q.refs[j]
    requires e.Put? || e.Reclaim? ==> e.i in q.refs && UsesAt(q.pc, j) + One(e.i == j) <= q.refs[j]
    requires e.LinkCount? ==> e.i in q.refs
    ensures var r := Moved(s, q, e); UsesAt(r.pc, j) <= r.refs[j]
  {
    match e
    case Get(i) => RefsCount(q.refs, i, j);
    case Put(i) => RefsCount(q.refs, i, j);
    case Reclaim(i) => RefsCount(q.refs, i, j);
    case LinkParent(dp) => RefsCount(q.refs, dp, j);
    case Parent(dp) => RefsCount(q.refs, dp, j);
    case UnlinkLook(_, k) => RefsCount(q.refs, s.ino[q.pc.dp].entries[k].inum, j);
    case CreateAlloc(i, _, _) => RefsCount(q.refs, i, j);
    case _ =>
  }

  lemma SpareCount(q: Proc, i: nat, j: nat)
    requires Spare(q, i)
    ensures i in q.refs && UsesAt(q.pc, j) + One(i == j) <= q.refs[j]
  {
    hide Uses, UsesAt;
    UsesCount(q.pc, j);
    RefsCount(Uses(q.pc), i, j);
    RefsCount(Uses(q.pc), i, i);
    assert (Uses(q.pc) + multiset{i})[i] <= q.refs[i];
  }

  lemma MoverUses(w: World, p: nat, e: Event)
    requires p < |w.procs| && WorldInv(w) && Enabled(w, p, e) && Starts(S(w), w.procs[p].pc, e)
    ensures var r := Moved(S(w), w.procs[p], e); Uses(r.pc) <= r.refs
  {
    hide Inv, Owing, Owed, PcOk, LockFree, OnlyRef, Absent, IsEntry, NotEmpty, Uses, UsesAt, Moved, Spare;
    var s, q := S(w), w.procs[p];
    assert ProcOk(s, q);
    var r := Moved(s, q, e);
    forall j: nat
      ensures Uses(r.pc)[j] <= r.refs[j]
    {
      UsesCount(q.pc, j);
      UsesCount(r.pc, j);
      if e.Put? || e.Reclaim? {
        SpareCount(q, e.i, j);
      }
      MoverUsesAt(s, q, e, j);
    }
  }

  lemma MoverLocks(w: World, p: nat, e: Event, r: nat)
    requires p < |w.procs| && WorldInv(w) && Enabled(w, p, e) && Starts(S(w), w.procs[p].pc, e) && r < |w.procs|
    requires r != p
    ensures Locks(Moved(S(w), w.procs[p], e).pc) !! Locks(w.procs[r].pc)
  {
    hide Inv, Owing, Owed, Uses, Absent, IsEntry, NotEmpty, OnlyRef, Nameless;
    var s, q := S(w), w.procs[p];
    assert ProcOk(s, q) && ProcOk(s, w.procs[r]);
    assert Locks(q.pc) !! Locks(w.procs[r].pc);
    if e.CreateAlloc? {
      LockedInUse(s, w.procs[r].pc);
    }
  }

  lemma LockedInUse(s: State, pc: Pc)
    requires PcOk(s, pc)
    ensures forall i :: i in Locks(pc) ==> i < |s.ino| && s.ino[i].typ != 0
  {
  }

  lemma MoverOk(w: World, p: nat, e: Event)
    requires p < |w.procs| && WorldInv(w) && Enabled(w, p, e) && Starts(S(w), w.procs[p].pc, e)
    ensures PcOk(Effect(S(w), w.procs[p].pc, e), Moved(S(w), w.procs[p], e).pc)
  {
    hide Inv, Owing, Owed, Absent, Nameless, NotEmpty, Bump, Drop, Alloc, Enter, Clear, Free, NamePos, IsEntry,
         LockFree, OnlyRef, FirstEmpty, Uses, Locks;
    var s, q := S(w), w.procs[p];
    assert ProcOk(s, q);
    match e
    case Reclaim(i) => SpareUnused(w, p, i);
      PcFree(s, i, q.pc);
    case LinkCount(i) => PcBump(s, i, Linking(i));
    case UnlinkLook(name, k) => EntryNames(s, q.pc.dp, name, k);
    case UnlinkClear => ClearedOk(s, q.pc.dp, q.pc.k, q.pc.i);
    case UnlinkCount =>
      if q.pc.dir {
        PcDrop(s, q.pc.dp, Dropping(q.pc.i));
      }
    case CreateAlloc(i, typ, name) => NewNameless(s, q.pc.dp, i, typ, name);
    case CreateCount =>
      CountedNameless(s, q.pc);
    case _ =>
  }

  /** The last reference is not one that the call needs. */
  lemma SpareUnused(w: World, p: nat, i: nat)
    requires p < |w.procs| && OnlyRef(w, p, i) && Spare(w.procs[p], i)
    ensures i !in Uses(w.procs[p].pc)
  {
    hide Uses, UsesAt;
    SpareCount(w.procs[p], i, i);
    UsesCount(w.procs[p].pc, i);
  }

  lemma ClearedOk(s: State, dp: nat, k: nat, i: nat)
    requires Names(s, dp, k, i) && i < |s.ino| && i != dp && s.ino[i].typ != 0
    ensures PcOk(Clear(s, dp, k), Cleared(dp, i, IsDir(s, i)))
  {
  }

  lemma NewNameless(s: State, dp: nat, i: nat, typ: int, name: string)
    requires Inv(s) && IsDir(s, dp) && 0 < i < |s.ino| && s.ino[i].typ == 0 && typ != 0
    requires Absent(s.ino[dp].entries, name)
    ensures PcOk(Alloc(s, i, typ, dp), Creating(dp, i, name))
  {
    hide Inv, NamePos, Absent;
    InUse(s, dp);
    AllocInv(s, i, typ, dp);
    RootInUse(s);
  }

  lemma RootInUse(s: State)
    requires Inv(s)
    ensures IsDir(s, ROOTINO)
  {
  }

  lemma CountedNameless(s: State, pc: Pc)
    requires PcOk(s, pc) && pc.Creating?
    ensures pc.dp < |s.ino|
    ensures PcOk(if IsDir(s, pc.i) then Bump(s, pc.dp) else s, Naming(pc.dp, pc.i, pc.name, IsDir(s, pc.i)))
  {
    hide NamePos, Absent;
    var n := Naming(pc.dp, pc.i, pc.name, IsDir(s, pc.i));
    assert PcOk(s, n);
    if IsDir(s, pc.i) {
      PcBump(s, pc.dp, n);
    }
  }

  /* ---- every run ---- */

  lemma NextInv(w: World, p: nat, e: Event)
    requires WorldInv(w) && Enabled(w, p, e)
    ensures WorldInv(Next(w, p, e))
  {
    hide Inv, PcOk, Uses, Locks, Owed, Owing, Effect, Moved, Starts, Enabled;
    EnabledIndex(w, p, e);
    EnabledStarts(w, p, e);
    NextState(w, p, e);
    EffectInv(w, p, e);
    MoverOk(w, p, e);
    MoverUses(w, p, e);
    var r := Next(w, p, e);
    forall j | 0 <= j < |w.procs|
      ensures ProcOk(S(r), r.procs[j])
    {
      if j != p {
        assert ProcOk(S(w), w.procs[j]);
        OthersOk(w, p, e, j);
      }
    }
    forall j | 0 <= j < |w.procs| && j != p
      ensures Locks(r.procs[p].pc) !! Locks(r.procs[j].pc)
    {
      MoverLocks(w, p, e, j);
    }
  }

  lemma EnabledIndex(w: World, p: nat, e: Event)
    requires Enabled(w, p, e)
    ensures p < |w.procs|
  {
  }

  datatype Move = Move(p: nat, e: Event)

  ghost predicate Possible(w: World, moves: seq<Move>)
    decreases |moves|
  {
    moves == [] || (Enabled(w, moves[0].p, moves[0].e) && Possible(Next(w, moves[0].p, moves[0].e), moves[1..]))
  }

  ghost function Exec(w: World, moves: seq<Move>): (r: World)
    requires Possible(w, moves)
    decreases |moves|
  {
    if moves == [] then w else Exec(Next(w, moves[0].p, moves[0].e), moves[1..])
  }

  /**
  Over every run: each count is at least the number of entries that can be found, an inode that a
  process reclaims cannot be found, unlink never meets a count below one, and the dirlink of create
  never finds its name taken.
  */
  lemma {:induction false} RunSafety(w: World, moves: seq<Move>, p: nat, i: nat)
    requires WorldInv(w) && Possible(w, moves)
    ensures var r := Exec(w, moves);
            && WorldInv(r)
            && (0 < i < |r.ino| && r.ino[i].typ != 0 ==> |Found(S(r), i)| <= r.ino[i].nlink)
            && (Enabled(r, p, Reclaim(i)) ==> !Reachable(S(r), i))
            && (p < |r.procs| && r.procs[p].pc.Unlinking? ==>
                  r.procs[p].pc.i < |r.ino| && r.ino[r.procs[p].pc.i].nlink >= 1)
            && (p < |r.procs| && r.procs[p].pc.Naming? ==>
                  r.procs[p].pc.dp < |r.ino| && Absent(r.ino[r.procs[p].pc.dp].entries, r.procs[p].pc.name))
    decreases |moves|
  {
    hide WorldInv, Found, Reachable, Enabled, Next, Absent;
    if moves == [] {
      Safe(w, p, i);
    } else {
      NextInv(w, moves[0].p, moves[0].e);
      RunSafety(Next(w, moves[0].p, moves[0].e), moves[1..], p, i);
    }
  }

  lemma Safe(r: World, p: nat, i: nat)
    requires WorldInv(r)
    ensures 0 < i < |r.ino| && r.ino[i].typ != 0 ==> |Found(S(r), i)| <= r.ino[i].nlink
    ensures Enabled(r, p, Reclaim(i)) ==> !Reachable(S(r), i)
    ensures p < |r.procs| && r.procs[p].pc.Unlinking? ==> r.procs[p].pc.i < |r.ino| && r.ino[r.procs[p].pc.i].nlink >= 1
    ensures p < |r.procs| && r.procs[p].pc.Naming? ==>
              r.procs[p].pc.dp < |r.ino| && Absent(r.ino[r.procs[p].pc.dp].entries, r.procs[p].pc.name)
  {
    hide Inv, Found, Reachable, Absent, Uses, Owing, LockFree, OnlyRef;
    if 0 < i < |r.ino| && r.ino[i].typ != 0 {
      LinkCountSafety(S(r), i);
    }
    if i < |r.ino| && r.ino[i].nlink <= 0 {
      FreeOnlyUnreachable(S(r), i);
    }
    if p < |r.procs| {
      assert ProcOk(S(r), r.procs[p]);
      if r.procs[p].pc.Unlinking? {
        NamedCounted(S(r), r.procs[p].pc.dp, r.procs[p].pc.k, r.procs[p].pc.i);
      }
    }
  }

  lemma NamedCounted(s: State, d: nat, k: nat, i: nat)
    requires Inv(s) && Names(s, d, k, i)
    ensures i < |s.ino| && s.ino[i].nlink >= 1
  {
    assert (d, k) in NamePos(s, i);
    assert Counted(s, i);
  }

  /** Processes that have done nothing yet, on the volume of mkfs. */
  lemma Start(n: nat, names: seq<string>, procs: seq<Proc>)
    requires n > ROOTINO + |names| && forall p :: 0 <= p < |procs| ==> procs[p].pc == Idle
    ensures WorldInv(World(MkfsInodes(n, names), procs))
  {
    hide Inv, MkfsInodes;
    NothingOwed(procs);
    MkfsInv(n, names);
  }

  lemma {:induction false} NothingOwed(procs: seq<Proc>)
    requires forall p :: 0 <= p < |procs| ==> procs[p].pc == Idle
    ensures Owing(procs) == multiset{}
  {
    if procs != [] {
      NothingOwed(procs[1..]);
    }
  }
}
