/**
The volume that mkfs makes: at first no inode holds a block; at the end the size of the root
directory is rounded up to whole blocks.  The rounding can leave a hole at the end, and a call that
fills it leaves the inode on disk behind.
*/
module Mkfs {
  import opened Prelude
  import opened Blocks
  import opened Ownership
  import opened Space
  import opened FileWrites
  import opened Inodes

  const ROOTINO := 1
  const T_DIR := 1

  function NoAddrs(): (r: seq<word>) {
    seq(NDIRECT + 1, _ => 0)
  }

  /** A volume of `size` blocks, the first `meta` of them used for boot block, log, inodes and bitmap. */
  function Fresh(size: nat, meta: nat, ninodes: nat): (v: Vol) {
    var free := Dinode(0, 0, 0, 0, 0, NoAddrs());
    Vol(seq(size, b => b < meta), seq(ninodes, _ => free), seq(size, _ => Zero()), map[], {})
  }

  lemma FreshInv(size: nat, meta: nat, ninodes: nat)
    requires 0 < meta <= size <= 0x1_0000_0000
    ensures Inv(Fresh(size, meta, ninodes), meta)
    ensures forall i :: 0 <= i < ninodes ==> HoleFree(Fresh(size, meta, ninodes), meta, i, 0)
  {
  }

  /** The size that mkfs gives the root directory after n bytes have been appended to it. */
  function Rounded(n: nat): (r: nat) {
    (n / BSIZE + 1) * BSIZE
  }

  /** Rounding leaves a hole exactly if the directory ended at the end of a block. */
  lemma RoundingHole(v: Vol, meta: nat, i: nat, n: nat)
    requires Shape(v, meta) && i < |v.ino| && HoleFree(v, meta, i, n) && Rounded(n) <= MAXFILE * BSIZE
    ensures HoleFree(v, meta, i, Rounded(n)) <==> n % BSIZE != 0
  {
    hide At;
    if n % BSIZE == 0 {
      assert At(v, meta, i, FileSlot(n / BSIZE)) == 0;
      assert n / BSIZE * BSIZE < Rounded(n);
    }
  }

  /* ---- a root directory whose entries fill its block ---- */

  const T_FILE := 2
  const DIRENT := 16
  const DIRENTS := 32

  /** The names of thirty files, each in fourteen bytes. */
  predicate ThirtyNames(names: seq<seq<byte>>) {
    |names| == DIRENTS - 2 && forall k :: 0 <= k < |names| ==> |names[k]| == DIRENT - 2
  }

  function EntryName(names: seq<seq<byte>>, k: nat): (n: seq<byte>)
    requires ThirtyNames(names) && k < DIRENTS
    ensures |n| == DIRENT - 2
  {
    if k == 0 then [46] + seq(DIRENT - 3, _ => 0)
    else if k == 1 then [46, 46] + seq(DIRENT - 4, _ => 0)
    else names[k - 2]
  }

  function EntryInum(k: nat): (i: nat) {
    if k < 2 then ROOTINO else k
  }

  /** The block of the root directory: an inode number in two bytes and a name, 32 times. */
  function DirBlock(names: seq<seq<byte>>): (b: Block)
    requires ThirtyNames(names)
  {
    seq(BSIZE, p requires 0 <= p < BSIZE =>
      if p % DIRENT == 0 then EntryInum(p / DIRENT) else if p % DIRENT == 1 then 0
      else EntryName(names, p / DIRENT)[p % DIRENT - 2])
  }

  /** The entries read back as they were put in: the dots lead to the root, every name to a file of its own. */
  lemma EntriesRead(names: seq<seq<byte>>, k: nat)
    requires ThirtyNames(names) && k < DIRENTS
    ensures var b := DirBlock(names);
            && b[DIRENT * k] + 0x100 * b[DIRENT * k + 1] == EntryInum(k)
            && b[DIRENT * k + 2..DIRENT * k + DIRENT] == EntryName(names, k)
  {
    var b := DirBlock(names);
    var name := b[DIRENT * k + 2..DIRENT * k + DIRENT];
    forall q | 0 <= q < DIRENT - 2
      ensures name[q] == EntryName(names, k)[q]
    {
      assert (DIRENT * k + 2 + q) / DIRENT == k && (DIRENT * k + 2 + q) % DIRENT == 2 + q;
    }
  }

  /** The volume after mkfs with thirty empty files: the root has one block, and a size of two. */
  function FullRoot(size: nat, meta: nat, ninodes: nat, names: seq<seq<byte>>): (v: Vol)
    requires 0 < meta < size <= 0x1_0000_0000 && DIRENTS <= ninodes && ThirtyNames(names)
  {
    var root := Dinode(T_DIR, 0, 0, 1, Rounded(DIRENTS * DIRENT), NoAddrs()[0 := meta]);
    var file := Dinode(T_FILE, 0, 0, 1, 0, NoAddrs());
    var v := Fresh(size, meta + 1, ninodes);
    var ino := seq(ninodes, i requires 0 <= i < ninodes =>
      if i == ROOTINO then root else if 2 <= i < DIRENTS then file else v.ino[i]);
    Vol(v.bitmap, ino, v.data[meta := DirBlock(names)], map[meta := Slot(ROOTINO, 0)], {})
  }

  lemma FullRootInv(size: nat, meta: nat, ninodes: nat, names: seq<seq<byte>>)
    requires 0 < meta < size <= 0x1_0000_0000 && DIRENTS <= ninodes && ThirtyNames(names)
    ensures Inv(FullRoot(size, meta, ninodes, names), meta)
  {
    hide DirBlock;
  }

  /** A byte in one of the direct blocks lacks that block or nothing. */
  lemma OneBlockNeeded(v: Vol, meta: nat, i: nat, off: nat)
    requires Shape(v, meta) && i < |v.ino| && off / BSIZE < NDIRECT
    ensures Needed(v, meta, i, off, 1) == if v.ino[i].addrs[off / BSIZE] == 0 then 1 else 0
  {
    hide Needed;
    MissingIsNeeded(v, meta, i, off, 1);
  }

  /** The second block of that directory is missing, though its bytes are inside the size. */
  lemma FullRootHole(size: nat, meta: nat, ninodes: nat, names: seq<seq<byte>>, off: nat)
    requires 0 < meta && meta + 2 <= size <= 0x1_0000_0000 && DIRENTS <= ninodes && ThirtyNames(names)
    requires BSIZE <= off < 2 * BSIZE
    ensures var v := FullRoot(size, meta, ninodes, names);
            && Inv(v, meta) && off + 1 <= v.ino[ROOTINO].size && !TopsFilled(v.ino[ROOTINO].addrs, off, 1)
            && Needed(v, meta, ROOTINO, off, 1) == 1 <= |FreeBlocks(v.bitmap)|
  {
    hide Owned, Mapped, Needed, DirBlock;
    var v := FullRoot(size, meta, ninodes, names);
    FullRootInv(size, meta, ninodes, names);
    assert Covers(off, 1, 1) && TopSlot(1) == 1;
    OneBlockNeeded(v, meta, ROOTINO, off);
    assert meta + 1 in FreeBlocks(v.bitmap);
    SubsetSize({meta + 1}, FreeBlocks(v.bitmap));
  }

  /** One byte written there, inside the size: the inode on disk does not learn of the new block. */
  method WriteLeavesInodeBehind(size: nat, meta: nat, ninodes: nat, names: seq<seq<byte>>, off: nat, x: byte)
    returns (fs: FileSys, r: Outcome<nat>)
    requires 0 < meta && meta + 2 <= size <= 0x1_0000_0000 && DIRENTS <= ninodes && ThirtyNames(names)
    requires BSIZE <= off < 2 * BSIZE
    ensures r == Done(1) && fs.Ok() && |fs.ino| == |fs.dinode| == ninodes
    ensures fs.dinode[ROOTINO] == FullRoot(size, meta, ninodes, names).ino[ROOTINO] != fs.ino[ROOTINO]
  {
    hide Inv, HoleFree, Needed, FreeBlocks, TopsFilled, Charged, OthersKept, Wrote, Recorded, DirBlock;
    FullRootHole(size, meta, ninodes, names, off);
    var v := FullRoot(size, meta, ninodes, names);
    fs := new FileSys(meta, 2, 2, v);
    r := fs.Writei(ROOTINO, [x], off);
  }

  /** A byte read there inside an operation does the same. */
  method ReadLeavesInodeBehind(size: nat, meta: nat, ninodes: nat, names: seq<seq<byte>>, off: nat)
    returns (fs: FileSys, r: Outcome<seq<byte>>)
    requires 0 < meta && meta + 2 <= size <= 0x1_0000_0000 && DIRENTS <= ninodes && ThirtyNames(names)
    requires BSIZE <= off < 2 * BSIZE
    ensures r.Done? && |r.value| == 1 && fs.Ok() && |fs.ino| == |fs.dinode| == ninodes
    ensures fs.dinode[ROOTINO] == FullRoot(size, meta, ninodes, names).ino[ROOTINO] != fs.ino[ROOTINO]
  {
    hide Inv, HoleFree, Needed, FreeBlocks, TopsFilled, Charged, OthersKept, Wrote, Recorded, Holds, DirBlock;
    FullRootHole(size, meta, ninodes, names, off);
    var v := FullRoot(size, meta, ninodes, names);
    fs := new FileSys(meta, 2, 2, v);
    r := fs.Readi(ROOTINO, off, 1, true);
  }

  /** A byte read there by fileread, which opens no operation, stops the kernel, however much is free. */
  method ReadStopsKernel(size: nat, meta: nat, ninodes: nat, names: seq<seq<byte>>, off: nat)
    returns (r: Outcome<seq<byte>>)
    requires 0 < meta && meta + 2 <= size <= 0x1_0000_0000 && DIRENTS <= ninodes && ThirtyNames(names)
    requires BSIZE <= off < 2 * BSIZE
    ensures r.Panicked?
  {
    hide Inv, HoleFree, Needed, FreeBlocks, TopsFilled, Charged, OthersKept, Wrote, Recorded, Holds, DirBlock;
    FullRootHole(size, meta, ninodes, names, off);
    var v := FullRoot(size, meta, ninodes, names);
    var fs := new FileSys(meta, 2, 2, v);
    r := fs.Readi(ROOTINO, off, 1, false);
  }
}
