/**
The write-ahead log as a protocol over single-block disk writes.  A disk block write is
atomic; a crash may fall between any two of them, inside a commit or inside a recovery.

The log area holds a header block (a count and that many home block numbers) followed by
the logged blocks.  `CommitWrites` and `RecoverWrites` list the disk writes that commit()
and recover_from_log() issue, in order; `Log` proves that the code issues exactly those.
*/
module CrashRecovery {
  import opened Blocks

  const LOGSIZE := 30

  type Disk = seq<Block>

  datatype Write = Write(blockno: nat, data: Block)

  /** The log's place on disk: the header at `start`, log blocks up to `start + size`. */
  datatype Area = Area(start: nat, size: nat) {
    predicate Holds(b: nat) {
      start <= b < start + size
    }

    /** A list of home blocks that fits the header and the log area. */
    ghost predicate Fits(d: Disk, blocks: seq<word>) {
      && start + size <= |d|
      && |blocks| <= LOGSIZE
      && |blocks| < size
      && forall t :: 0 <= t < |blocks| ==> blocks[t] < |d| && !Holds(blocks[t])
    }
  }

  /* ---- header block ---- */

  function PutBlocks(h: Block, blocks: seq<word>): (r: Block)
    requires |blocks| <= LOGSIZE
  {
    if |blocks| == 0 then h
    else SetWord(PutBlocks(h, blocks[..|blocks| - 1]), |blocks|, blocks[|blocks| - 1])
  }

  /** write_head: stores the count and the block numbers, and leaves the rest of the block. */
  function PutHeader(h: Block, blocks: seq<word>): (r: Block)
    requires |blocks| <= LOGSIZE
  {
    PutBlocks(SetWord(h, 0, |blocks|), blocks)
  }

  /** read_head: the block numbers listed in a header whose count is in range. */
  function HeaderBlocks(h: Block): (r: seq<word>)
    requires Word(h, 0) <= LOGSIZE
  {
    seq(Word(h, 0), i requires 0 <= i < LOGSIZE => Word(h, i + 1))
  }

  lemma {:induction false} PutBlocksWords(h: Block, blocks: seq<word>, i: nat)
    requires |blocks| <= LOGSIZE && i < WORDS
    ensures Word(PutBlocks(h, blocks), i) == if 1 <= i <= |blocks| then blocks[i - 1] else Word(h, i)
  {
    if |blocks| != 0 {
      var front := blocks[..|blocks| - 1];
      PutBlocksWords(h, front, i);
      WordSetWord(PutBlocks(h, front), |blocks|, blocks[|blocks| - 1], i);
    }
  }

  /** What write_head stores, read_head reads back. */
  lemma HeaderRoundTrip(h: Block, blocks: seq<word>)
    requires |blocks| <= LOGSIZE
    ensures Word(PutHeader(h, blocks), 0) == |blocks|
    ensures HeaderBlocks(PutHeader(h, blocks)) == blocks
  {
    var h0 := SetWord(h, 0, |blocks|);
    WordSetWord(h, 0, |blocks|, 0);
    PutBlocksWords(h0, blocks, 0);
    var r := PutHeader(h, blocks);
    forall i | 0 <= i < |blocks|
      ensures Word(r, i + 1) == blocks[i]
    {
      PutBlocksWords(h0, blocks, i + 1);
    }
  }

  /* ---- sequences of disk writes ---- */

  ghost predicate InRange(d: Disk, ws: seq<Write>) {
    forall t :: 0 <= t < |ws| ==> ws[t].blockno < |d|
  }

  /** The disk after the writes `ws`, in order. */
  ghost function ApplyAll(d: Disk, ws: seq<Write>): (r: Disk)
    requires InRange(d, ws)
    ensures |r| == |d|
  {
    if |ws| == 0 then d
    else
      var w := ws[|ws| - 1];
      ApplyAll(d, ws[..|ws| - 1])[w.blockno := w.data]
  }

  ghost predicate Writes(ws: seq<Write>, b: nat) {
    exists t :: 0 <= t < |ws| && ws[t].blockno == b
  }

  lemma {:induction false} ApplyUntouched(d: Disk, ws: seq<Write>, b: nat)
    requires InRange(d, ws) && b < |d| && !Writes(ws, b)
    ensures ApplyAll(d, ws)[b] == d[b]
  {
    if |ws| != 0 {
      var front := ws[..|ws| - 1];
      assert forall t :: 0 <= t < |front| ==> front[t] == ws[t];
      assert ws[|ws| - 1].blockno != b;
      ApplyUntouched(d, front, b);
    }
  }

  /** A block ends with the last data written to it, whatever the disk held before. */
  lemma {:induction false} ApplyAgree(d: Disk, e: Disk, ws: seq<Write>, b: nat)
    requires |d| == |e| && InRange(d, ws) && b < |d|
    requires d[b] == e[b] || Writes(ws, b)
    ensures ApplyAll(d, ws)[b] == ApplyAll(e, ws)[b]
  {
    if |ws| != 0 {
      var front := ws[..|ws| - 1];
      if ws[|ws| - 1].blockno != b {
        if d[b] != e[b] {
          var t :| 0 <= t < |ws| && ws[t].blockno == b;
          assert front[t].blockno == b;
        }
        ApplyAgree(d, e, front, b);
      }
    }
  }

  lemma {:induction false} ApplyConcat(d: Disk, us: seq<Write>, vs: seq<Write>)
    requires InRange(d, us) && InRange(d, vs)
    ensures InRange(d, us + vs)
    ensures ApplyAll(d, us + vs) == ApplyAll(ApplyAll(d, us), vs)
  {
    if |vs| == 0 {
      assert us + vs == us;
    } else {
      ApplyConcat(d, us, vs[..|vs| - 1]);
      assert (us + vs)[..|us + vs| - 1] == us + vs[..|vs| - 1];
    }
  }

  lemma ApplySnoc(d: Disk, ws: seq<Write>, w: Write)
    requires InRange(d, ws) && w.blockno < |d|
    ensures InRange(d, ws + [w])
    ensures ApplyAll(d, ws + [w]) == ApplyAll(d, ws)[w.blockno := w.data]
  {
    assert (ws + [w])[..|ws|] == ws;
  }

  lemma ApplyNext(d: Disk, ws: seq<Write>, t: nat)
    requires InRange(d, ws) && t < |ws|
    ensures ApplyAll(d, ws[..t + 1]) == ApplyAll(d, ws[..t])[ws[t].blockno := ws[t].data]
  {
    assert ws[..t + 1][..t] == ws[..t];
  }

  /* ---- commit and recovery ---- */

  /** The current contents of the listed blocks. */
  ghost function Vals(mem: Disk, blocks: seq<word>): (vals: seq<Block>)
    requires forall t :: 0 <= t < |blocks| ==> blocks[t] < |mem|
  {
    seq(|blocks|, t requires 0 <= t < |blocks| => mem[blocks[t]])
  }

  /** write_log: the new contents go to the log blocks. */
  ghost function LogWrites(a: Area, vals: seq<Block>): (ws: seq<Write>) {
    seq(|vals|, t requires 0 <= t < |vals| => Write(a.start + 1 + t, vals[t]))
  }

  /** install_trans: the logged contents go to their home blocks. */
  ghost function InstallWrites(blocks: seq<word>, vals: seq<Block>): (ws: seq<Write>)
    requires |blocks| == |vals|
  {
    seq(|blocks|, t requires 0 <= t < |blocks| => Write(blocks[t], vals[t]))
  }

  ghost function HeadWrite(a: Area, h: Block, blocks: seq<word>): (w: Write)
    requires |blocks| <= LOGSIZE
  {
    Write(a.start, PutHeader(h, blocks))
  }

  /** The disk writes of commit(), in order, for a non-empty transaction. */
  ghost function CommitWrites(a: Area, h: Block, blocks: seq<word>, vals: seq<Block>): (ws: seq<Write>)
    requires |blocks| == |vals| && |blocks| <= LOGSIZE
  {
    LogWrites(a, vals) + [HeadWrite(a, h, blocks)] + InstallWrites(blocks, vals)
    + [HeadWrite(a, PutHeader(h, blocks), [])]
  }

  /** The log's committed contents as found on disk. */
  ghost function Logged(a: Area, d: Disk, n: nat): (vals: seq<Block>)
    requires a.start + n < |d|
  {
    seq(n, t requires 0 <= t < n => d[a.start + 1 + t])
  }

  /** A disk whose header describes a transaction that fits. */
  ghost predicate Recoverable(a: Area, d: Disk) {
    && a.start < |d|
    && Word(d[a.start], 0) <= LOGSIZE
    && a.Fits(d, HeaderBlocks(d[a.start]))
  }

  ghost predicate Empty(a: Area, d: Disk) {
    && 0 < a.size && a.start + a.size <= |d|
    && Word(d[a.start], 0) == 0
  }

  /** The disk writes of recover_from_log(), in order. */
  ghost function RecoverWrites(a: Area, d: Disk): (ws: seq<Write>)
    requires Recoverable(a, d)
    ensures InRange(d, ws)
  {
    var blocks := HeaderBlocks(d[a.start]);
    InstallWrites(blocks, Logged(a, d, |blocks|)) + [HeadWrite(a, d[a.start], [])]
  }

  /** The disk that a completed recovery leaves. */
  ghost function Recovered(a: Area, d: Disk): (r: Disk)
    requires Recoverable(a, d)
    ensures |r| == |d|
  {
    ApplyAll(d, RecoverWrites(a, d))
  }

  /** The two disks agree on every block outside the log area. */
  ghost predicate SameHome(a: Area, d: Disk, e: Disk) {
    |d| == |e| && forall b :: 0 <= b < |d| && !a.Holds(b) ==> d[b] == e[b]
  }

  /** The disk with the whole transaction applied to the home blocks. */
  ghost function Overlay(d: Disk, blocks: seq<word>, vals: seq<Block>): (r: Disk)
    requires |blocks| == |vals| && forall t :: 0 <= t < |blocks| ==> blocks[t] < |d|
    ensures |r| == |d|
  {
    ApplyAll(d, InstallWrites(blocks, vals))
  }

  /** The transaction's result holds the current contents at the listed blocks and the old ones elsewhere. */
  lemma {:induction false} OverlayAt(d: Disk, mem: Disk, blocks: seq<word>, b: nat)
    requires |mem| == |d| && b < |d|
    requires forall t :: 0 <= t < |blocks| ==> blocks[t] < |d|
    ensures Overlay(d, blocks, Vals(mem, blocks))[b] == if b in blocks then mem[b] else d[b]
  {
    var ws := InstallWrites(blocks, Vals(mem, blocks));
    if |blocks| != 0 {
      var front := blocks[..|blocks| - 1];
      OverlayAt(d, mem, front, b);
      assert ws[..|blocks| - 1] == InstallWrites(front, Vals(mem, front));
      assert blocks == front + [blocks[|blocks| - 1]];
    }
  }

  lemma InstallWritesTo(blocks: seq<word>, vals: seq<Block>, k: nat, b: nat)
    requires |blocks| == |vals| && k <= |blocks|
    ensures Writes(InstallWrites(blocks, vals)[..k], b) <==> exists t :: 0 <= t < k && blocks[t] == b
  {
    var ws := InstallWrites(blocks, vals);
    assert forall t :: 0 <= t < k ==> ws[..k][t].blockno == blocks[t];
    if t :| 0 <= t < k && blocks[t] == b {
      assert ws[..k][t].blockno == b;
    }
  }

  lemma EmptyRecovers(a: Area, d: Disk)
    requires Empty(a, d)
    ensures Recoverable(a, d)
    ensures SameHome(a, Recovered(a, d), d)
    ensures Empty(a, Recovered(a, d))
  {
    var ws := RecoverWrites(a, d);
    assert ws == [HeadWrite(a, d[a.start], [])];
    assert ApplyAll(d, ws) == d[a.start := PutHeader(d[a.start], [])] by {
      assert ws[..0] == [];
      assert ApplyAll(d, []) == d;
    }
    HeaderRoundTrip(d[a.start], []);
  }

  /** Reading the header and the log finds the transaction that commit wrote there. */
  lemma CommittedWrites(a: Area, d: Disk, h: Block, blocks: seq<word>, vals: seq<Block>)
    requires a.Fits(d, blocks) && |vals| == |blocks|
    requires d[a.start] == PutHeader(h, blocks)
    requires forall t :: 0 <= t < |blocks| ==> d[a.start + 1 + t] == vals[t]
    ensures Recoverable(a, d)
    ensures RecoverWrites(a, d) == InstallWrites(blocks, vals) + [HeadWrite(a, PutHeader(h, blocks), [])]
  {
    HeaderRoundTrip(h, blocks);
    assert Logged(a, d, |blocks|) == vals;
  }

  /**
  A disk that holds the whole committed transaction in its log, and that has any mixture of
  installed and not yet installed home blocks, recovers to the transaction's result.
  */
  lemma CommittedRecovers(a: Area, base: Disk, d: Disk, h: Block, blocks: seq<word>, vals: seq<Block>)
    requires a.Fits(base, blocks) && |vals| == |blocks| && |d| == |base|
    requires d[a.start] == PutHeader(h, blocks)
    requires forall t :: 0 <= t < |blocks| ==> d[a.start + 1 + t] == vals[t]
    requires forall b :: 0 <= b < |d| && !a.Holds(b) && (forall t :: 0 <= t < |blocks| ==> blocks[t] != b)
                         ==> d[b] == base[b]
    ensures Recoverable(a, d)
    ensures SameHome(a, Recovered(a, d), Overlay(base, blocks, vals))
    ensures Empty(a, Recovered(a, d))
  {
    CommittedWrites(a, d, h, blocks, vals);
    var ins := InstallWrites(blocks, vals);
    var clear := HeadWrite(a, PutHeader(h, blocks), []);
    ApplyConcat(d, ins, [clear]);
    assert [clear][..0] == [];
    var mid := ApplyAll(d, ins);
    assert Recovered(a, d) == mid[a.start := clear.data];
    HeaderRoundTrip(PutHeader(h, blocks), []);
    forall b | 0 <= b < |d| && !a.Holds(b)
      ensures mid[b] == Overlay(base, blocks, vals)[b]
    {
      InstallWritesTo(blocks, vals, |blocks|, b);
      assert ins[..|blocks|] == ins;
      ApplyAgree(d, base, ins, b);
    }
  }

  /** After k of commit's writes the log area and the home blocks hold exactly this much. */
  lemma CommitPrefixLog(a: Area, d: Disk, blocks: seq<word>, vals: seq<Block>, k: nat)
    requires a.Fits(d, blocks) && |vals| == |blocks| && k <= |blocks|
    ensures InRange(d, LogWrites(a, vals)[..k])
    ensures var e := ApplyAll(d, LogWrites(a, vals)[..k]);
            && e[a.start] == d[a.start]
            && SameHome(a, e, d)
            && (forall t :: 0 <= t < k ==> e[a.start + 1 + t] == vals[t])
  {
    var ws := LogWrites(a, vals);
    if k != 0 {
      CommitPrefixLog(a, d, blocks, vals, k - 1);
      assert ws[..k][..k - 1] == ws[..k - 1];
      assert InRange(d, ws[..k]);
    }
  }

  lemma CommitInRange(a: Area, d: Disk, h: Block, blocks: seq<word>, vals: seq<Block>)
    requires a.Fits(d, blocks) && |vals| == |blocks|
    ensures InRange(d, CommitWrites(a, h, blocks, vals))
    ensures |CommitWrites(a, h, blocks, vals)| == 2 * |blocks| + 2
  {
  }

  /** Crash before the header write: recovery gives the old state of every home block. */
  lemma CrashBeforeHeader(a: Area, d: Disk, blocks: seq<word>, vals: seq<Block>, k: nat)
    requires Empty(a, d) && a.Fits(d, blocks) && |vals| == |blocks| && k <= |blocks|
    ensures InRange(d, CommitWrites(a, d[a.start], blocks, vals)[..k])
    ensures var e := ApplyAll(d, CommitWrites(a, d[a.start], blocks, vals)[..k]);
            && Recoverable(a, e)
            && SameHome(a, Recovered(a, e), d)
            && Empty(a, Recovered(a, e))
  {
    var ws := CommitWrites(a, d[a.start], blocks, vals);
    assert ws[..k] == LogWrites(a, vals)[..k];
    CommitPrefixLog(a, d, blocks, vals, k);
    EmptyRecovers(a, ApplyAll(d, ws[..k]));
  }

  /** The disk right after the header write. */
  lemma AfterHeader(a: Area, d: Disk, h: Block, blocks: seq<word>, vals: seq<Block>)
    requires a.Fits(d, blocks) && |vals| == |blocks|
    ensures InRange(d, LogWrites(a, vals) + [HeadWrite(a, h, blocks)])
    ensures var e := ApplyAll(d, LogWrites(a, vals) + [HeadWrite(a, h, blocks)]);
            && e[a.start] == PutHeader(h, blocks)
            && SameHome(a, e, d)
            && (forall t :: 0 <= t < |blocks| ==> e[a.start + 1 + t] == vals[t])
  {
    var ws := LogWrites(a, vals);
    CommitPrefixLog(a, d, blocks, vals, |blocks|);
    assert ws[..|blocks|] == ws;
    assert (ws + [HeadWrite(a, h, blocks)])[..|ws|] == ws;
  }

  /** The disk after the header write and k installed blocks. */
  lemma AfterInstalls(a: Area, d: Disk, h: Block, blocks: seq<word>, vals: seq<Block>, k: nat)
    requires a.Fits(d, blocks) && |vals| == |blocks| && k <= |blocks|
    ensures var ws := LogWrites(a, vals) + [HeadWrite(a, h, blocks)] + InstallWrites(blocks, vals)[..k];
            && InRange(d, ws)
            && var e := ApplyAll(d, ws);
            && e[a.start] == PutHeader(h, blocks)
            && (forall t :: 0 <= t < |blocks| ==> e[a.start + 1 + t] == vals[t])
            && (forall b :: 0 <= b < |d| && !a.Holds(b) && (forall t :: 0 <= t < |blocks| ==> blocks[t] != b)
                            ==> e[b] == d[b])
            && (k == |blocks| ==> SameHome(a, e, Overlay(d, blocks, vals)))
  {
    AfterHeader(a, d, h, blocks, vals);
    var first := LogWrites(a, vals) + [HeadWrite(a, h, blocks)];
    var rest := InstallWrites(blocks, vals)[..k];
    var mid := ApplyAll(d, first);
    ApplyConcat(d, first, rest);
    var e := ApplyAll(mid, rest);
    forall b | 0 <= b < |d| && forall t :: 0 <= t < |blocks| ==> blocks[t] != b
      ensures e[b] == mid[b]
    {
      InstallWritesTo(blocks, vals, k, b);
      ApplyUntouched(mid, rest, b);
    }
    if k == |blocks| {
      assert rest == InstallWrites(blocks, vals);
      forall b | 0 <= b < |d| && !a.Holds(b)
        ensures e[b] == Overlay(d, blocks, vals)[b]
      {
        ApplyAgree(mid, d, rest, b);
      }
    }
  }

  /** The disk after all of commit's writes: the log is empty, the home blocks hold the transaction. */
  lemma AfterCommit(a: Area, d: Disk, h: Block, blocks: seq<word>, vals: seq<Block>)
    requires 0 < a.size && a.Fits(d, blocks) && |vals| == |blocks|
    ensures InRange(d, CommitWrites(a, h, blocks, vals))
    ensures var e := ApplyAll(d, CommitWrites(a, h, blocks, vals));
            && Empty(a, e)
            && SameHome(a, e, Overlay(d, blocks, vals))
  {
    var ins := InstallWrites(blocks, vals);
    var first := LogWrites(a, vals) + [HeadWrite(a, h, blocks)] + ins;
    var clear := HeadWrite(a, PutHeader(h, blocks), []);
    AfterInstalls(a, d, h, blocks, vals, |blocks|);
    assert ins[..|blocks|] == ins;
    var ws := first + [clear];
    assert ws == CommitWrites(a, h, blocks, vals);
    assert ws[..|ws| - 1] == first;
    HeaderRoundTrip(PutHeader(h, blocks), []);
  }

  /** Crash once the header write has landed: recovery gives the whole transaction. */
  lemma CrashAfterHeader(a: Area, d: Disk, blocks: seq<word>, vals: seq<Block>, k: nat)
    requires Empty(a, d) && a.Fits(d, blocks) && |vals| == |blocks|
    requires |blocks| < k <= 2 * |blocks| + 2
    ensures |CommitWrites(a, d[a.start], blocks, vals)| == 2 * |blocks| + 2
    ensures InRange(d, CommitWrites(a, d[a.start], blocks, vals)[..k])
    ensures var e := ApplyAll(d, CommitWrites(a, d[a.start], blocks, vals)[..k]);
            && Recoverable(a, e)
            && SameHome(a, Recovered(a, e), Overlay(d, blocks, vals))
            && Empty(a, Recovered(a, e))
  {
    var h := d[a.start];
    var ws := CommitWrites(a, h, blocks, vals);
    CommitInRange(a, d, h, blocks, vals);
    var j := k - |blocks| - 1;
    if j <= |blocks| {
      assert ws[..k] == LogWrites(a, vals) + [HeadWrite(a, h, blocks)] + InstallWrites(blocks, vals)[..j];
      AfterInstalls(a, d, h, blocks, vals, j);
      CommittedRecovers(a, d, ApplyAll(d, ws[..k]), h, blocks, vals);
    } else {
      assert ws[..k] == ws;
      AfterCommit(a, d, h, blocks, vals);
      EmptyRecovers(a, ApplyAll(d, ws));
    }
  }

  /** Installing some of the logged blocks leaves the header and the log as they were. */
  lemma PartialInstall(a: Area, d: Disk, k: nat)
    requires Recoverable(a, d)
    requires k < |RecoverWrites(a, d)|
    ensures InRange(d, RecoverWrites(a, d)[..k])
    ensures var e := ApplyAll(d, RecoverWrites(a, d)[..k]);
            && Recoverable(a, e)
            && RecoverWrites(a, e) == RecoverWrites(a, d)
            && forall b :: 0 <= b < |d| && !Writes(RecoverWrites(a, d), b) ==> e[b] == d[b]
  {
    var blocks := HeaderBlocks(d[a.start]);
    var ws := RecoverWrites(a, d);
    var e := ApplyAll(d, ws[..k]);
    assert forall t :: 0 <= t < k ==> ws[..k][t] == ws[t] && ws[t].blockno == blocks[t];
    forall b | 0 <= b < |d| && (a.Holds(b) || !Writes(ws, b))
      ensures e[b] == d[b]
    {
      ApplyUntouched(d, ws[..k], b);
    }
    assert Logged(a, e, |blocks|) == Logged(a, d, |blocks|);
  }

  lemma RecoveredIsEmpty(a: Area, d: Disk)
    requires Recoverable(a, d)
    ensures Empty(a, Recovered(a, d))
  {
    var ws := RecoverWrites(a, d);
    var clear := HeadWrite(a, d[a.start], []);
    assert ws[|ws| - 1] == clear;
    HeaderRoundTrip(d[a.start], []);
  }

  /** Crash inside recovery, after any number of its writes: recovering again gives the same home blocks. */
  lemma CrashInRecovery(a: Area, d: Disk, k: nat)
    requires Recoverable(a, d)
    requires k <= |RecoverWrites(a, d)|
    ensures InRange(d, RecoverWrites(a, d)[..k])
    ensures var e := ApplyAll(d, RecoverWrites(a, d)[..k]);
            && Recoverable(a, e)
            && SameHome(a, Recovered(a, e), Recovered(a, d))
            && Empty(a, Recovered(a, e))
  {
    var ws := RecoverWrites(a, d);
    RecoveredIsEmpty(a, d);
    if k < |ws| {
      PartialInstall(a, d, k);
      var e := ApplyAll(d, ws[..k]);
      RecoveredIsEmpty(a, e);
      forall b | 0 <= b < |d|
        ensures ApplyAll(e, ws)[b] == ApplyAll(d, ws)[b]
      {
        ApplyAgree(e, d, ws, b);
      }
    } else {
      assert ws[..k] == ws;
      EmptyRecovers(a, Recovered(a, d));
    }
  }
}
