/**
Link counts.  Directory entries give names to inodes; nlink must never fall below the number of
entries that can be found from the root, because an inode whose count is zero is freed with its
last reference.  Directories may be removed while a process still stands in them, and files may
be created there, so the count is a bound and not an equality.
*/
module LinkCounts {
  import opened Prelude

  const ROOTINO := 1
  const T_DIR := 1
  const T_FILE := 2

  datatype Dirent = Dirent(inum: nat, name: string)

  /** typ 0 marks a free inode.  A directory keeps "." in its first and ".." in its second entry. */
  datatype Inode = Inode(typ: int, nlink: int, entries: seq<Dirent>)

  /** Pending holds the changes of nlink that are made before, or after, the entry they stand for. */
  datatype State = State(ino: seq<Inode>, pending: multiset<nat>)

  predicate IsDir(s: State, d: nat) {
    d < |s.ino| && s.ino[d].typ == T_DIR
  }

  /** Entry k of directory d gives a name to inode i. */
  predicate Names(s: State, d: nat, k: nat, i: nat) {
    IsDir(s, d) && 2 <= k < |s.ino[d].entries| && s.ino[d].entries[k].inum == i && i != 0
  }

  /** All entries that give a name to inode i. */
  ghost function NamePos(s: State, i: nat): (r: set<(nat, nat)>) {
    set d: nat, k: nat | d < |s.ino| && k < |s.ino[d].entries| && Names(s, d, k, i) :: (d, k)
  }

  /** The entries of d that give a name to a directory. */
  ghost function SubPos(s: State, d: nat): (r: set<nat>)
    requires d < |s.ino|
  {
    set k: nat | && k < |s.ino[d].entries| && Names(s, d, k, s.ino[d].entries[k].inum)
                 && IsDir(s, s.ino[d].entries[k].inum)
  }

  ghost predicate Dots(s: State, d: nat)
    requires d < |s.ino|
  {
    var e := s.ino[d].entries;
    |e| >= 2 && e[0] == Dirent(d, ".") && e[1].name == ".." && 0 < e[1].inum < |s.ino|
  }

  ghost predicate Counted(s: State, i: nat)
    requires i < |s.ino|
  {
    s.ino[i].nlink >= |NamePos(s, i)| + |SubPos(s, i)| + s.pending[i] + if i == ROOTINO then 1 else 0
  }

  /** A directory has one name at most, in the directory that its ".." names. */
  ghost predicate Tree(s: State) {
    && (forall d: nat, k: nat, e: nat :: Names(s, d, k, e) && IsDir(s, e) ==>
          d != e && e != ROOTINO && |s.ino[e].entries| >= 2 && s.ino[e].entries[1].inum == d)
    && (forall d: nat, k: nat, l: nat, e: nat :: Names(s, d, k, e) && Names(s, d, l, e) && IsDir(s, e) ==> k == l)
  }

  ghost predicate Rooted(s: State) {
    && IsDir(s, ROOTINO) && |s.ino[ROOTINO].entries| >= 2 && s.ino[ROOTINO].entries[1].inum == ROOTINO
    && s.ino[0].typ == 0
    && forall d: nat :: IsDir(s, d) ==> Dots(s, d)
  }

  /** Names and pending links stand for inodes in use. */
  ghost predicate Allocated(s: State) {
    && (forall d: nat, k: nat, i: nat :: Names(s, d, k, i) ==> i < |s.ino| && s.ino[i].typ != 0)
    && (forall i: nat :: i in s.pending ==> i < |s.ino| && s.ino[i].typ != 0)
  }

  ghost predicate Inv(s: State) {
    && Rooted(s) && Allocated(s) && Tree(s)
    && (forall i: nat :: i < |s.ino| && s.ino[i].typ != 0 ==> Counted(s, i))
  }

  /* ---- the steps ---- */

  function Put(s: State, i: nat, n: Inode): (r: State)
    requires i < |s.ino|
  {
    State(s.ino[i := n], s.pending)
  }

  /** nlink++ for an entry to come. */
  function Bump(s: State, i: nat): (r: State)
    requires i < |s.ino|
  {
    State(s.ino[i := Inode(s.ino[i].typ, s.ino[i].nlink + 1, s.ino[i].entries)], s.pending + multiset{i})
  }

  /** nlink-- for an entry that is gone or has not come about. */
  function Drop(s: State, i: nat): (r: State)
    requires i < |s.ino|
  {
    State(s.ino[i := Inode(s.ino[i].typ, s.ino[i].nlink - 1, s.ino[i].entries)], s.pending - multiset{i})
  }

  /** A new inode with one link to come; a directory begins with its two dots. */
  function Alloc(s: State, i: nat, typ: int, dp: nat): (r: State)
    requires i < |s.ino|
  {
    var e := if typ == T_DIR then [Dirent(i, "."), Dirent(dp, "..")] else [];
    State(s.ino[i := Inode(typ, 1, e)], s.pending + multiset{i})
  }

  function SetEntry(s: State, d: nat, k: nat, de: Dirent): (r: State)
    requires d < |s.ino| && k <= |s.ino[d].entries|
  {
    var e := s.ino[d].entries;
    Put(s, d, Inode(s.ino[d].typ, s.ino[d].nlink, if k == |e| then e + [de] else e[k := de]))
  }

  /** What an entry for i in d accounts for: one link of i and, for the ".." of a directory, one of d. */
  function Share(s: State, d: nat, i: nat): (r: multiset<nat>) {
    if IsDir(s, i) then multiset{i} + multiset{d} else multiset{i}
  }

  function Enter(s: State, d: nat, k: nat, name: string, i: nat): (r: State)
    requires d < |s.ino| && k <= |s.ino[d].entries|
  {
    var t := SetEntry(s, d, k, Dirent(i, name));
    State(t.ino, t.pending - Share(s, d, i))
  }

  function Clear(s: State, d: nat, k: nat): (r: State)
    requires d < |s.ino| && k < |s.ino[d].entries|
  {
    var t := SetEntry(s, d, k, Dirent(0, ""));
    State(t.ino, t.pending + Share(s, d, s.ino[d].entries[k].inum))
  }

  function Free(s: State, i: nat): (r: State)
    requires i < |s.ino|
  {
    Put(s, i, Inode(0, s.ino[i].nlink, []))
  }

  /* ---- every step keeps the invariant ---- */

  /** States with the same names and directories. */
  ghost predicate SameNames(s: State, r: State) {
    && |r.ino| == |s.ino|
    && forall d: nat :: d < |s.ino| ==> r.ino[d].typ == s.ino[d].typ && r.ino[d].entries == s.ino[d].entries
  }

  lemma SameNamesSets(s: State, r: State, i: nat)
    requires SameNames(s, r) && i < |s.ino|
    ensures NamePos(r, i) == NamePos(s, i) && SubPos(r, i) == SubPos(s, i)
  {
    assert forall d: nat, k: nat :: Names(r, d, k, i) <==> Names(s, d, k, i);
    assert forall k: nat, e: nat :: Names(r, i, k, e) && IsDir(r, e) <==> Names(s, i, k, e) && IsDir(s, e);
  }

  lemma SameNamesInv(s: State, r: State)
    requires Inv(s) && SameNames(s, r)
    requires forall i: nat :: i < |s.ino| && s.ino[i].typ != 0 ==>
               r.ino[i].nlink - r.pending[i] >= s.ino[i].nlink - s.pending[i]
    requires forall i: nat :: i in r.pending ==> i < |s.ino| && s.ino[i].typ != 0
    ensures Inv(r)
  {
    hide NamePos, SubPos;
    assert forall d: nat, k: nat, i: nat :: Names(r, d, k, i) <==> Names(s, d, k, i);
    forall i: nat | i < |s.ino| && s.ino[i].typ != 0
      ensures Counted(r, i)
    {
      assert Counted(s, i);
      SameNamesSets(s, r, i);
    }
    forall d: nat | IsDir(r, d)
      ensures Dots(r, d)
    {
      assert IsDir(s, d) && Dots(s, d);
    }
  }

  lemma BumpInv(s: State, i: nat)
    requires Inv(s) && i < |s.ino| && s.ino[i].typ != 0
    ensures Inv(Bump(s, i))
  {
    PendingNamed(s);
    hide Inv, Counted;
    SameNamesInv(s, Bump(s, i));
  }

  lemma PendingNamed(s: State)
    requires Inv(s)
    ensures forall i: nat :: i in s.pending ==> i < |s.ino| && s.ino[i].typ != 0
  {
  }

  lemma DropInv(s: State, i: nat)
    requires Inv(s) && i in s.pending
    ensures i < |s.ino| && Inv(Drop(s, i))
  {
    PendingNamed(s);
    hide Inv, Counted;
    SameNamesInv(s, Drop(s, i));
  }

  /** A free inode has no name, so giving it a type changes no count. */
  lemma AllocInv(s: State, i: nat, typ: int, dp: nat)
    requires Inv(s) && 0 < i < |s.ino| && s.ino[i].typ == 0 && typ != 0 && 0 < dp < |s.ino|
    ensures Inv(Alloc(s, i, typ, dp)) && NamePos(Alloc(s, i, typ, dp), i) == {}
  {
    hide NamePos, SubPos, Tree;
    var r := Alloc(s, i, typ, dp);
    forall j: nat | j < |s.ino| && r.ino[j].typ != 0
      ensures Counted(r, j)
    {
      AllocSets(s, i, typ, dp, j);
      if j != i {
        assert Counted(s, j);
      }
    }
    forall d: nat | IsDir(r, d)
      ensures Dots(r, d)
    {
      assert d == i || (IsDir(s, d) && Dots(s, d));
    }
    AllocTree(s, i, typ, dp);
  }

  lemma AllocTree(s: State, i: nat, typ: int, dp: nat)
    requires Rooted(s) && Allocated(s) && Tree(s) && 0 < i < |s.ino| && s.ino[i].typ == 0 && typ != 0
    requires 0 < dp < |s.ino|
    ensures Tree(Alloc(s, i, typ, dp)) && Allocated(Alloc(s, i, typ, dp))
    ensures NamePos(Alloc(s, i, typ, dp), i) == {}
  {
    var r := Alloc(s, i, typ, dp);
    assert forall d: nat, k: nat, e: nat :: Names(r, d, k, e) <==> Names(s, d, k, e);
    assert forall d: nat, k: nat :: !Names(s, d, k, i);
  }

  lemma AllocSets(s: State, i: nat, typ: int, dp: nat, j: nat)
    requires Inv(s) && 0 < i < |s.ino| && s.ino[i].typ == 0 && typ != 0 && 0 < dp < |s.ino| && j < |s.ino|
    ensures var r := Alloc(s, i, typ, dp);
            && NamePos(r, j) == NamePos(s, j) && (j != i ==> SubPos(r, j) == SubPos(s, j))
            && NamePos(r, i) == {} && SubPos(r, i) == {}
  {
    hide Counted, Tree;
    var r := Alloc(s, i, typ, dp);
    assert forall d: nat, k: nat, e: nat :: Names(r, d, k, e) <==> Names(s, d, k, e);
    assert forall d: nat, k: nat :: !Names(s, d, k, i);
  }

  /** An empty place in d, or the place behind the last entry. */
  predicate Vacant(s: State, d: nat, k: nat) {
    && IsDir(s, d) && 2 <= k <= |s.ino[d].entries|
    && (k < |s.ino[d].entries| ==> s.ino[d].entries[k].inum == 0)
  }

  /** i may get a name in d: a directory only its first one, and only where its ".." leads. */
  ghost predicate MayEnter(s: State, d: nat, i: nat) {
    && 0 < i < |s.ino| && s.ino[i].typ != 0 && Share(s, d, i) <= s.pending
    && (IsDir(s, i) ==>
          NamePos(s, i) == {} && i != d && i != ROOTINO && |s.ino[i].entries| >= 2 && s.ino[i].entries[1].inum == d)
  }

  lemma EnterNames(s: State, d: nat, k: nat, name: string, i: nat)
    requires Vacant(s, d, k) && 0 < i < |s.ino|
    ensures var r := Enter(s, d, k, name, i);
            forall x: nat, l: nat, e: nat :: Names(r, x, l, e) <==> Names(s, x, l, e) || (x == d && l == k && e == i)
    ensures !exists e: nat :: Names(s, d, k, e)
  {
  }

  lemma EnterSets(s: State, d: nat, k: nat, name: string, i: nat, j: nat)
    requires Vacant(s, d, k) && 0 < i < |s.ino| && j < |s.ino|
    ensures var r := Enter(s, d, k, name, i);
            && NamePos(r, j) == NamePos(s, j) + (if j == i then {(d, k)} else {})
            && SubPos(r, j) == SubPos(s, j) + (if j == d && IsDir(s, i) then {k} else {})
    ensures (d, k) !in NamePos(s, i) && k !in SubPos(s, d)
  {
    EnterNames(s, d, k, name, i);
    var r := Enter(s, d, k, name, i);
    assert forall e: nat :: IsDir(r, e) <==> IsDir(s, e);
    hide Names, IsDir;
  }

  lemma EnterRooted(s: State, d: nat, k: nat, name: string, i: nat)
    requires Rooted(s) && Vacant(s, d, k)
    ensures Rooted(Enter(s, d, k, name, i))
  {
    var r := Enter(s, d, k, name, i);
    forall x: nat | IsDir(r, x)
      ensures Dots(r, x)
    {
      assert IsDir(s, x) && Dots(s, x);
    }
  }

  lemma EnterTree(s: State, d: nat, k: nat, name: string, i: nat)
    requires Allocated(s) && Tree(s) && Vacant(s, d, k) && MayEnter(s, d, i)
    ensures var r := Enter(s, d, k, name, i); Tree(r) && Allocated(r)
  {
    EnterNames(s, d, k, name, i);
    var r := Enter(s, d, k, name, i);
    assert forall x: nat, l: nat :: Names(s, x, l, i) ==> (x, l) in NamePos(s, i);
    assert forall e: nat :: e < |s.ino| ==> r.ino[e].typ == s.ino[e].typ;
  }

  lemma EnterInv(s: State, d: nat, k: nat, name: string, i: nat)
    requires Inv(s) && Vacant(s, d, k) && MayEnter(s, d, i)
    ensures Inv(Enter(s, d, k, name, i))
  {
    hide NamePos, SubPos, Rooted, Tree, Allocated;
    var r := Enter(s, d, k, name, i);
    EnterTree(s, d, k, name, i);
    EnterRooted(s, d, k, name, i);
    forall j: nat | j < |s.ino| && r.ino[j].typ != 0
      ensures Counted(r, j)
    {
      assert Counted(s, j);
      EnterSets(s, d, k, name, i, j);
    }
  }

  lemma ClearSets(s: State, d: nat, k: nat, i: nat, j: nat)
    requires Names(s, d, k, i) && j < |s.ino|
    ensures var r := Clear(s, d, k);
            && NamePos(r, j) == NamePos(s, j) - (if j == i then {(d, k)} else {})
            && SubPos(r, j) == SubPos(s, j) - (if j == d then {k} else {})
    ensures (d, k) in NamePos(s, i) && (k in SubPos(s, d) <==> IsDir(s, i))
  {
    ClearNames(s, d, k, i);
    var r := Clear(s, d, k);
    assert forall e: nat :: IsDir(r, e) <==> IsDir(s, e);
    assert (d, k) in NamePos(s, i);
    assert k in SubPos(s, d) <==> IsDir(s, i);
    hide Names, IsDir;
  }

  lemma ClearNames(s: State, d: nat, k: nat, i: nat)
    requires Names(s, d, k, i)
    ensures var r := Clear(s, d, k);
            forall x: nat, l: nat, e: nat :: Names(r, x, l, e) <==> Names(s, x, l, e) && !(x == d && l == k)
  {
  }

  lemma ClearTree(s: State, d: nat, k: nat, i: nat)
    requires Rooted(s) && Allocated(s) && Tree(s) && Names(s, d, k, i)
    ensures var r := Clear(s, d, k); Tree(r) && Allocated(r) && Rooted(r)
  {
    ClearNames(s, d, k, i);
    var r := Clear(s, d, k);
    forall x: nat | IsDir(r, x)
      ensures Dots(r, x)
    {
      assert IsDir(s, x) && Dots(s, x);
    }
  }

  lemma ClearInv(s: State, d: nat, k: nat, i: nat)
    requires Inv(s) && Names(s, d, k, i)
    ensures Inv(Clear(s, d, k))
  {
    hide NamePos, SubPos, Rooted, Tree, Allocated;
    var r := Clear(s, d, k);
    ClearTree(s, d, k, i);
    forall j: nat | j < |s.ino| && r.ino[j].typ != 0
      ensures Counted(r, j)
    {
      assert Counted(s, j);
      ClearSets(s, d, k, i, j);
    }
  }

  /** A count of zero means that nothing is left to find. */
  lemma Unlinked(s: State, i: nat)
    requires Inv(s) && i < |s.ino| && s.ino[i].typ != 0 && s.ino[i].nlink <= 0
    ensures i != ROOTINO && i !in s.pending && NamePos(s, i) == {} && SubPos(s, i) == {}
    ensures forall d: nat, k: nat :: !Names(s, d, k, i)
  {
    assert Counted(s, i);
    forall d: nat, k: nat
      ensures !Names(s, d, k, i)
    {
      assert Names(s, d, k, i) ==> (d, k) in NamePos(s, i);
    }
  }

  lemma FreeSets(s: State, i: nat, j: nat)
    requires Inv(s) && i < |s.ino| && s.ino[i].typ != 0 && s.ino[i].nlink <= 0 && j < |s.ino|
    ensures NamePos(Free(s, i), j) <= NamePos(s, j) && SubPos(Free(s, i), j) <= SubPos(s, j)
  {
    Unlinked(s, i);
  }

  lemma FreeTree(s: State, i: nat)
    requires Inv(s) && i < |s.ino| && s.ino[i].typ != 0 && s.ino[i].nlink <= 0
    ensures var r := Free(s, i); Tree(r) && Allocated(r) && Rooted(r)
  {
    Unlinked(s, i);
    hide Counted;
    var r := Free(s, i);
    assert forall d: nat, k: nat, e: nat :: Names(r, d, k, e) <==> Names(s, d, k, e) && d != i;
    forall x: nat | IsDir(r, x)
      ensures Dots(r, x)
    {
      assert IsDir(s, x) && Dots(s, x);
    }
  }

  lemma FreeInv(s: State, i: nat)
    requires Inv(s) && i < |s.ino| && s.ino[i].typ != 0 && s.ino[i].nlink <= 0
    ensures Inv(Free(s, i))
  {
    hide NamePos, SubPos, Rooted, Tree, Allocated;
    var r := Free(s, i);
    FreeTree(s, i);
    forall j: nat | j < |s.ino| && r.ino[j].typ != 0
      ensures Counted(r, j)
    {
      assert Counted(s, j);
      FreeSets(s, i, j);
      SubsetSize(NamePos(r, j), NamePos(s, j));
      SubsetSize(SubPos(r, j), SubPos(s, j));
    }
  }

  /* ---- what can be found from the root ---- */

  /** A way down from the root, directory by directory. */
  ghost predicate Path(s: State, p: seq<nat>) {
    && p != [] && p[0] == ROOTINO
    && forall m: nat, n: nat :: n == m + 1 && n < |p| ==> Step(s, p[m], p[n])
  }

  ghost predicate Step(s: State, d: nat, e: nat) {
    IsDir(s, d) && exists k: nat :: Names(s, d, k, e)
  }

  ghost predicate Reachable(s: State, i: nat) {
    exists p: seq<nat> :: Path(s, p) && p[|p| - 1] == i
  }

  /** Every entry but "." that names i in a directory that can be found. */
  ghost function Found(s: State, i: nat): (r: set<(nat, nat)>) {
    set d: nat, k: nat | d < |s.ino| && k < |s.ino[d].entries| && FoundAt(s, d, k, i) :: (d, k)
  }

  ghost predicate FoundAt(s: State, d: nat, k: nat, i: nat)
    requires d < |s.ino| && k < |s.ino[d].entries|
  {
    IsDir(s, d) && Reachable(s, d) && k >= 1 && s.ino[d].entries[k].inum == i
  }

  /** Below the root, what can be found has a name in a directory that can be found. */
  lemma LastStep(s: State, i: nat) returns (d: nat, k: nat)
    requires Reachable(s, i) && i != ROOTINO
    ensures Names(s, d, k, i) && Reachable(s, d)
  {
    var p: seq<nat> :| Path(s, p) && p[|p| - 1] == i;
    d := p[|p| - 2];
    assert Step(s, p[|p| - 2], p[|p| - 1]);
    k :| Names(s, d, k, i);
    var q := p[..|p| - 1];
    assert Path(s, q) && q[|q| - 1] == d;
  }

  ghost function DotDots(s: State, i: nat): (r: set<nat>) {
    set d: nat | && d < |s.ino| && IsDir(s, d) && Reachable(s, d)
                 && |s.ino[d].entries| >= 2 && s.ino[d].entries[1].inum == i
  }

  /** The ".." entries that lead to i belong to the directories named in i, and to the root. */
  lemma DotDotsBound(s: State, i: nat)
    requires Inv(s) && i < |s.ino|
    ensures |DotDots(s, i)| <= |SubPos(s, i)| + if i == ROOTINO then 1 else 0
  {
    var named := set k: nat | k in SubPos(s, i) :: s.ino[i].entries[k].inum;
    forall d: nat | d in DotDots(s, i) && d != ROOTINO
      ensures d in named
    {
      var p, k := LastStep(s, d);
      assert p == i;
      assert k in SubPos(s, i);
    }
    var root := if i == ROOTINO then {ROOTINO as nat} else {};
    assert DotDots(s, i) <= named + root;
    SubsetSize(DotDots(s, i), named + root);
    ImageSize(s, i, SubPos(s, i), named);
    assert |named + root| <= |named| + |root|;
  }

  lemma {:induction false} ImageSize(s: State, i: nat, a: set<nat>, b: set<nat>)
    requires i < |s.ino| && (forall k :: k in a ==> k < |s.ino[i].entries|)
    requires b == set k: nat | k in a :: s.ino[i].entries[k].inum
    ensures |b| <= |a|
  {
    if a != {} {
      var x :| x in a;
      var b' := set k: nat | k in a - {x} :: s.ino[i].entries[k].inum;
      ImageSize(s, i, a - {x}, b');
      assert b == b' + {s.ino[i].entries[x].inum};
    }
  }

  lemma {:induction false} PairSize(a: set<nat>, b: set<(nat, nat)>)
    requires b == set d: nat | d in a :: (d, 1)
    ensures |b| <= |a|
  {
    if a != {} {
      var x :| x in a;
      var b' := set d: nat | d in a - {x} :: (d, 1);
      PairSize(a - {x}, b');
      assert b == b' + {(x, 1)};
    }
  }

  /** The count of an inode is at least the number of entries that can be found for it. */
  lemma LinkCountSafety(s: State, i: nat)
    requires Inv(s) && 0 < i < |s.ino| && s.ino[i].typ != 0
    ensures |Found(s, i)| <= s.ino[i].nlink
  {
    assert Counted(s, i);
    var up := set d: nat | d in DotDots(s, i) :: (d, 1);
    FoundSplit(s, i, up);
    SubsetSize(Found(s, i), NamePos(s, i) + up);
    assert |NamePos(s, i) + up| <= |NamePos(s, i)| + |up|;
    PairSize(DotDots(s, i), up);
    DotDotsBound(s, i);
  }

  lemma FoundSplit(s: State, i: nat, up: set<(nat, nat)>)
    requires Inv(s) && 0 < i < |s.ino| && up == set d: nat | d in DotDots(s, i) :: (d, 1)
    ensures Found(s, i) <= NamePos(s, i) + up
  {
    forall d: nat, k: nat | (d, k) in Found(s, i)
      ensures (d, k) in NamePos(s, i) + up
    {
      if k == 1 {
        assert d in DotDots(s, i);
      } else {
        assert Names(s, d, k, i);
      }
    }
  }

  /** An inode that can be found is never freed: its count is positive. */
  lemma ReachableKept(s: State, i: nat)
    requires Inv(s) && Reachable(s, i)
    ensures i < |s.ino| && s.ino[i].typ != 0 && s.ino[i].nlink >= 1
  {
    if i == ROOTINO {
      assert Counted(s, i);
    } else {
      var d, k := LastStep(s, i);
      assert (d, k) in NamePos(s, i);
      assert Counted(s, i);
    }
  }

  /** An inode without links cannot be found. */
  lemma FreeOnlyUnreachable(s: State, i: nat)
    requires Inv(s) && i < |s.ino| && s.ino[i].nlink <= 0
    ensures !Reachable(s, i)
  {
    if Reachable(s, i) {
      ReachableKept(s, i);
    }
  }

  /* ---- mkfs ---- */

  const DIRENTS := 32

  /** The root directory with the files given to mkfs, filled up with empty entries to whole blocks. */
  function MkfsRoot(names: seq<string>): (e: seq<Dirent>) {
    var used := 2 + |names|;
    [Dirent(ROOTINO, "."), Dirent(ROOTINO, "..")] + seq(|names|, k requires 0 <= k < |names| => Dirent(2 + k, names[k]))
    + seq((used / DIRENTS + 1) * DIRENTS - used, _ => Dirent(0, ""))
  }

  /** The volume that mkfs leaves: the root, one inode for each file, and all other inodes free. */
  function MkfsInodes(n: nat, names: seq<string>): (ino: seq<Inode>)
    requires n > ROOTINO + |names|
  {
    seq(n, i requires 0 <= i < n =>
             if i == ROOTINO then Inode(T_DIR, 1, MkfsRoot(names))
             else if 2 <= i < 2 + |names| then Inode(T_FILE, 1, [])
             else Inode(0, 0, []))
  }

  lemma MkfsNames(n: nat, names: seq<string>, d: nat, k: nat, i: nat)
    requires n > ROOTINO + |names|
    ensures Names(State(MkfsInodes(n, names), multiset{}), d, k, i) <==> d == ROOTINO && k == i && 2 <= i < 2 + |names|
  {
    if d == ROOTINO && 2 <= k < |MkfsRoot(names)| {
      assert k >= 2 + |names| ==> MkfsRoot(names)[k] == Dirent(0, "");
    }
  }

  lemma MkfsInv(n: nat, names: seq<string>)
    requires n > ROOTINO + |names|
    ensures Inv(State(MkfsInodes(n, names), multiset{}))
  {
    var s := State(MkfsInodes(n, names), multiset{});
    forall d: nat, k: nat, i: nat
      ensures Names(s, d, k, i) <==> d == ROOTINO && k == i && 2 <= i < 2 + |names|
    {
      MkfsNames(n, names, d, k, i);
    }
    hide Names;
    assert SubPos(s, ROOTINO) == {} && NamePos(s, ROOTINO) == {};
    forall i: nat | 2 <= i < 2 + |names|
      ensures Counted(s, i)
    {
      assert NamePos(s, i) == {(ROOTINO as nat, i)} && SubPos(s, i) == {};
    }
  }
}
