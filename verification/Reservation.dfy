/**
Log space reservation: begin_op admits an operation only if the log can take the largest
transaction of every open operation; the claim is that an operation that lists at most
MAXOPBLOCKS new blocks is never refused by log_write.
*/
module Reservation {
  import opened Prelude
  import opened CrashRecovery

  const MAXOPBLOCKS := 10

  /** `ops` maps each open operation to the number of new blocks it has listed so far. */
  datatype LogState = LogState(blocks: seq<nat>, ops: map<nat, nat>, committing: bool)

  datatype Event =
    | Begin(op: nat)
    | Record(op: nat, blockno: nat)
    | End(op: nat)
    | CommitDone

  const START := LogState([], map[], false)

  /** log_write's test for "too big a transaction". */
  predicate Refuses(size: nat, s: LogState) {
    |s.blocks| >= LOGSIZE || |s.blocks| >= size - 1
  }

  /** begin_op's test. */
  predicate Admits(s: LogState) {
    !s.committing && |s.blocks| + (|s.ops| + 1) * MAXOPBLOCKS <= LOGSIZE
  }

  /** The step can happen; the operation stays within its budget of new blocks. */
  ghost predicate Enabled(size: nat, s: LogState, ev: Event) {
    match ev
    case Begin(op) => op !in s.ops && Admits(s)
    case Record(op, b) => op in s.ops && !Refuses(size, s) && (b in s.blocks || s.ops[op] < MAXOPBLOCKS)
    case End(op) => op in s.ops
    case CommitDone => s.committing
  }

  ghost function Next(s: LogState, ev: Event): (r: LogState) {
    match ev
    case Begin(op) => s.(ops := s.ops[op := 0])
    case Record(op, b) =>
      if b in s.blocks || op !in s.ops then s
      else s.(blocks := s.blocks + [b], ops := s.ops[op := s.ops[op] + 1])
    case End(op) => LogState(s.blocks, s.ops - {op}, s.ops - {op} == map[])
    case CommitDone => LogState([], s.ops, false)
  }

  /** The space that the open operations may still claim. */
  ghost function Allowance(ops: map<nat, nat>): (n: int)
  {
    if ops == map[] then 0
    else
      var k :| k in ops;
      MAXOPBLOCKS - ops[k] + Allowance(ops - {k})
  }

  /** The sum does not depend on the order in which the operations are taken. */
  lemma {:induction false} AllowanceWithout(ops: map<nat, nat>, k: nat)
    requires k in ops
    ensures Allowance(ops) == MAXOPBLOCKS - ops[k] + Allowance(ops - {k})
  {
    var j :| j in ops && Allowance(ops) == MAXOPBLOCKS - ops[j] + Allowance(ops - {j});
    if j != k {
      AllowanceWithout(ops - {j}, k);
      AllowanceWithout(ops - {k}, j);
      assert ops - {j} - {k} == ops - {k} - {j};
    }
  }

  lemma AllowanceSet(ops: map<nat, nat>, k: nat, v: nat)
    ensures Allowance(ops[k := v]) == MAXOPBLOCKS - v + Allowance(ops - {k})
  {
    AllowanceWithout(ops[k := v], k);
    assert ops[k := v] - {k} == ops - {k};
  }

  lemma {:induction false} AllowanceBound(ops: map<nat, nat>)
    requires forall k :: k in ops ==> ops[k] <= MAXOPBLOCKS
    ensures 0 <= Allowance(ops) <= |ops| * MAXOPBLOCKS
  {
    if ops != map[] {
      var k :| k in ops;
      AllowanceWithout(ops, k);
      AllowanceBound(ops - {k});
      assert ops.Keys == (ops - {k}).Keys + {k};
    }
  }

  /** Listed blocks plus everything the open operations may still list fit in the log. */
  ghost predicate Inv(s: LogState) {
    && (forall i, j :: 0 <= i < j < |s.blocks| ==> s.blocks[i] != s.blocks[j])
    && (forall op :: op in s.ops ==> s.ops[op] <= MAXOPBLOCKS)
    && |s.blocks| + Allowance(s.ops) <= LOGSIZE
    && (s.committing ==> s.ops == map[])
    && (!s.committing && s.ops == map[] ==> s.blocks == [])
  }

  lemma InvKept(size: nat, s: LogState, ev: Event)
    requires Inv(s) && Enabled(size, s, ev)
    ensures Inv(Next(s, ev))
  {
    match ev
    case Begin(op) =>
      AllowanceSet(s.ops, op, 0);
      assert s.ops - {op} == s.ops;
      AllowanceBound(s.ops);
    case Record(op, b) =>
      if b !in s.blocks {
        AllowanceWithout(s.ops, op);
        AllowanceSet(s.ops, op, s.ops[op] + 1);
      }
    case End(op) =>
      AllowanceWithout(s.ops, op);
    case CommitDone =>
      AllowanceBound(s.ops);
  }

  ghost predicate Possible(size: nat, evs: seq<Event>)
    decreases |evs|
  {
    |evs| == 0 ||
    (Possible(size, evs[..|evs| - 1]) && Enabled(size, Exec(evs[..|evs| - 1]), evs[|evs| - 1]))
  }

  ghost function Exec(evs: seq<Event>): (r: LogState) {
    if |evs| == 0 then START else Next(Exec(evs[..|evs| - 1]), evs[|evs| - 1])
  }

  /** Over every interleaving of operations that keep to their budgets. */
  lemma {:induction false} ReservationInvariant(size: nat, evs: seq<Event>)
    requires Possible(size, evs)
    ensures Inv(Exec(evs))
  {
    if |evs| != 0 {
      ReservationInvariant(size, evs[..|evs| - 1]);
      InvKept(size, Exec(evs[..|evs| - 1]), evs[|evs| - 1]);
    }
  }

  /** An open operation with budget left always finds a free entry in the list. */
  lemma RoomForNewBlock(s: LogState, op: nat)
    requires Inv(s) && op in s.ops && s.ops[op] < MAXOPBLOCKS
    ensures |s.blocks| < LOGSIZE
  {
    AllowanceWithout(s.ops, op);
    AllowanceBound(s.ops - {op});
  }

  /* ---- when the claim holds ---- */

  /** Three operations begin, and the first `k` new blocks are listed by them in turn. */
  ghost function Script(k: nat): (evs: seq<Event>) {
    if k == 0 then [Begin(0), Begin(1), Begin(2)]
    else Script(k - 1) + [Record((k - 1) / MAXOPBLOCKS, k - 1)]
  }

  ghost function Used(k: nat, op: nat): (n: nat) {
    if k <= op * MAXOPBLOCKS then 0 else Min(k - op * MAXOPBLOCKS, MAXOPBLOCKS)
  }

  ghost function ScriptState(k: nat): (s: LogState) {
    LogState(seq(k, i => i), map[0 := Used(k, 0), 1 := Used(k, 1), 2 := Used(k, 2)], false)
  }

  lemma ScriptBegins(size: nat)
    ensures Possible(size, Script(0)) && Exec(Script(0)) == ScriptState(0)
  {
    var e := [Begin(0), Begin(1), Begin(2)];
    assert e[..2] == [Begin(0), Begin(1)] && e[..2][..1] == [Begin(0)] && e[..2][..1][..0] == [];
    var m1: map<nat, nat> := map[0 := 0];
    var m2: map<nat, nat> := map[0 := 0, 1 := 0];
    assert m1.Keys == {0} && m2.Keys == {0, 1} && |m2.Keys| == 2;
    assert Exec([]) == START;
    assert Exec([Begin(0)]) == START.(ops := m1);
    assert Exec([Begin(0), Begin(1)]) == START.(ops := m2);
    assert seq(0, i => i) == [];
  }

  lemma {:induction false} ScriptRuns(size: nat, k: nat)
    requires k == 0 || (k <= LOGSIZE && k <= size - 1)
    ensures Possible(size, Script(k)) && Exec(Script(k)) == ScriptState(k)
  {
    if k == 0 {
      ScriptBegins(size);
    } else {
      ScriptRuns(size, k - 1);
      ScriptStep(size, k);
      assert Script(k)[..|Script(k)| - 1] == Script(k - 1);
    }
  }

  lemma ScriptStep(size: nat, k: nat)
    requires 0 < k <= LOGSIZE && k <= size - 1
    ensures Enabled(size, ScriptState(k - 1), Record((k - 1) / MAXOPBLOCKS, k - 1))
    ensures Next(ScriptState(k - 1), Record((k - 1) / MAXOPBLOCKS, k - 1)) == ScriptState(k)
  {
    var s := ScriptState(k - 1);
    var op := (k - 1) / MAXOPBLOCKS;
    assert s.blocks + [k - 1] == ScriptState(k).blocks;
    ScriptCounts(k, op);
    assert s.ops[op := s.ops[op] + 1] == ScriptState(k).ops;
  }

  lemma ScriptCounts(k: nat, op: nat)
    requires 0 < k <= LOGSIZE && op == (k - 1) / MAXOPBLOCKS
    ensures op < 3 && Used(k - 1, op) < MAXOPBLOCKS
    ensures forall j :: 0 <= j < 3 ==> Used(k, j) == if j == op then Used(k - 1, j) + 1 else Used(k - 1, j)
  {
    assert op == 0 || op == 1 || op == 2;
  }

  /** A run in which an operation with budget left is refused a new block. */
  ghost predicate RefusesWithinBudget(size: nat, evs: seq<Event>, op: nat, b: nat) {
    && Possible(size, evs)
    && op in Exec(evs).ops && Exec(evs).ops[op] < MAXOPBLOCKS
    && b !in Exec(evs).blocks
    && Refuses(size, Exec(evs))
  }

  /**
  The reservation protects every operation exactly when the log area has more than LOGSIZE
  blocks.  mkfs makes it LOGSIZE blocks, which is one too few.
  */
  lemma ReservationSufficient(size: nat)
    ensures size > LOGSIZE <==> forall evs, op, b :: !RefusesWithinBudget(size, evs, op, b)
  {
    if size > LOGSIZE {
      forall evs, op, b
        ensures !RefusesWithinBudget(size, evs, op, b)
      {
        if RefusesWithinBudget(size, evs, op, b) {
          ReservationInvariant(size, evs);
          RoomForNewBlock(Exec(evs), op);
        }
      }
    } else {
      var k := if size == 0 then 0 else size - 1;
      ScriptRuns(size, k);
      assert Used(k, 2) < MAXOPBLOCKS;
      assert RefusesWithinBudget(size, Script(k), 2, k);
    }
  }

  /** A run in which an open operation is refused a block that is listed already. */
  ghost predicate RefusesListed(size: nat, evs: seq<Event>, op: nat, b: nat) {
    Possible(size, evs) && op in Exec(evs).ops && b in Exec(evs).blocks && Refuses(size, Exec(evs))
  }

  /** However large the log area, some run fills the list, and then even a listed block is refused. */
  lemma AbsorptionRefused(size: nat)
    requires 2 <= size
    ensures exists evs, op, b :: RefusesListed(size, evs, op, b)
  {
    var k := if size - 1 < LOGSIZE then size - 1 else LOGSIZE;
    ScriptRuns(size, k);
    assert ScriptState(k).blocks[0] == 0;
    assert RefusesListed(size, Script(k), 0, 0);
  }
}
