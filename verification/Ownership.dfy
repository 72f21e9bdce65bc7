/**
Who owns which disk block.  An inode has 12 direct slots, one slot for its indirect block and
128 slots inside the indirect block; a slot holds a block number or 0.  The free bitmap must
mark exactly the metadata blocks and the blocks that some slot holds, and no two slots may
hold the same block.
*/
module Ownership {
  import opened Blocks

  const NDIRECT := 12
  const NINDIRECT := 128
  const MAXFILE := 140
  const SLOTS := 141

  datatype Dinode = Dinode(typ: int, major: int, minor: int, nlink: int, size: nat, addrs: seq<word>)

  datatype Slot = Slot(inum: nat, index: nat)

  /**
  The volume as the kernel sees it inside a transaction: the bitmap, the inodes, all blocks,
  and, as a record of the proof, the slot that owns each allocated block.  Orphans are blocks
  that no slot holds any more and that are about to be freed.
  */
  datatype Vol = Vol(bitmap: seq<bool>, ino: seq<Dinode>, data: seq<Block>, owner: map<nat, Slot>, orphans: set<nat>)

  ghost predicate Shape(v: Vol, meta: nat) {
    && |v.bitmap| == |v.data| <= 0x1_0000_0000
    && 0 < meta <= |v.data|
    && (forall i :: 0 <= i < |v.ino| ==> |v.ino[i].addrs| == NDIRECT + 1 && v.ino[i].addrs[NDIRECT] < |v.data|)
  }

  /** The block number in a slot of an inode: addrs, and behind it the words of the indirect block. */
  function SlotAddr(data: seq<Block>, d: Dinode, s: nat): (b: nat)
    requires s < SLOTS && |d.addrs| == NDIRECT + 1 && d.addrs[NDIRECT] < |data|
  {
    if s <= NDIRECT then d.addrs[s]
    else if d.addrs[NDIRECT] == 0 then 0
    else Word(data[d.addrs[NDIRECT]], s - NDIRECT - 1)
  }

  ghost predicate Valid(v: Vol, i: nat, s: nat) {
    i < |v.ino| && s < SLOTS
  }

  ghost function At(v: Vol, meta: nat, i: nat, s: nat): (b: nat)
    requires Shape(v, meta) && Valid(v, i, s)
  {
    SlotAddr(v.data, v.ino[i], s)
  }

  /** Slots and owners are inverse to each other, apart from the orphans. */
  ghost predicate Owned(v: Vol, meta: nat)
    requires Shape(v, meta)
  {
    && (forall i, s :: Valid(v, i, s) && At(v, meta, i, s) != 0 ==>
          At(v, meta, i, s) in v.owner && v.owner[At(v, meta, i, s)] == Slot(i, s) && At(v, meta, i, s) !in v.orphans)
    && (forall b :: b in v.owner ==> 0 < meta <= b < |v.data|)
    && (forall b :: b in v.owner && b !in v.orphans ==>
          Valid(v, v.owner[b].inum, v.owner[b].index) && At(v, meta, v.owner[b].inum, v.owner[b].index) == b)
  }

  ghost predicate Mapped(v: Vol, meta: nat) {
    && v.orphans <= v.owner.Keys
    && forall b :: 0 <= b < |v.bitmap| ==> (v.bitmap[b] <==> b < meta || b in v.owner)
  }

  ghost predicate Inv(v: Vol, meta: nat) {
    Shape(v, meta) && Owned(v, meta) && Mapped(v, meta)
  }

  /* ---- giving a block to an empty slot ---- */

  function SetAddr(d: Dinode, s: nat, b: word): (r: Dinode)
    requires s < |d.addrs|
  {
    Dinode(d.typ, d.major, d.minor, d.nlink, d.size, d.addrs[s := b])
  }

  /** A free block, zeroed, in a slot of addrs. */
  ghost function GiveTop(v: Vol, i: nat, s: nat, b: word): (r: Vol)
    requires i < |v.ino| && s < |v.ino[i].addrs| && b < |v.bitmap| && b < |v.data|
  {
    Vol(v.bitmap[b := true], v.ino[i := SetAddr(v.ino[i], s, b)], v.data[b := Zero()], v.owner[b := Slot(i, s)],
        v.orphans)
  }

  /** A free block, zeroed, in a word of the indirect block a. */
  ghost function GiveEntry(v: Vol, i: nat, a: word, k: nat, b: word): (r: Vol)
    requires i < |v.ino| && k < NINDIRECT && b < |v.bitmap| && b < |v.data| && a < |v.data|
  {
    Vol(v.bitmap[b := true], v.ino, v.data[b := Zero()][a := SetWord(v.data[b := Zero()][a], k, b)],
        v.owner[b := Slot(i, NDIRECT + 1 + k)], v.orphans)
  }

  /** One slot has gone from empty to b; every other slot is as before; no file block changed. */
  ghost predicate Given(v: Vol, r: Vol, meta: nat, i: nat, s: nat, b: nat)
    requires Shape(v, meta) && Shape(r, meta)
  {
    && |r.ino| == |v.ino| && |r.data| == |v.data| && r.orphans == v.orphans
    && Valid(v, i, s) && At(v, meta, i, s) == 0 && b !in v.owner && 0 < meta <= b < |v.data|
    && (forall j, t :: Valid(v, j, t) ==> At(r, meta, j, t) == if j == i && t == s then b else At(v, meta, j, t))
    && r.owner == v.owner[b := Slot(i, s)]
    && r.bitmap == v.bitmap[b := true]
    && r.data[b] == Zero()
    && (forall x :: x in v.owner && v.owner[x].index != NDIRECT ==> x < |v.data| && r.data[x] == v.data[x])
  }

  lemma GivenInv(v: Vol, r: Vol, meta: nat, i: nat, s: nat, b: nat)
    requires Inv(v, meta) && Shape(r, meta) && Given(v, r, meta, i, s, b)
    ensures Inv(r, meta)
  {
    hide At;
    forall j, t | Valid(r, j, t) && At(r, meta, j, t) != 0
      ensures At(r, meta, j, t) in r.owner && r.owner[At(r, meta, j, t)] == Slot(j, t)
      ensures At(r, meta, j, t) !in r.orphans
    {
      assert Valid(v, j, t);
    }
    forall x | x in r.owner && x !in r.orphans
      ensures Valid(r, r.owner[x].inum, r.owner[x].index) && At(r, meta, r.owner[x].inum, r.owner[x].index) == x
    {
      if x != b {
        assert x in v.owner;
        assert Valid(v, v.owner[x].inum, v.owner[x].index);
      }
    }
  }

  /** A block that the bitmap shows free belongs to no slot. */
  lemma FreeBlock(v: Vol, meta: nat, b: nat)
    requires Inv(v, meta) && b < |v.bitmap| && !v.bitmap[b]
    ensures 0 < meta <= b < |v.data| && b !in v.owner
  {
  }

  lemma OwnersInRange(v: Vol, meta: nat)
    requires Inv(v, meta)
    ensures forall b :: b in v.owner ==> 0 < meta <= b < |v.data|
  {
  }

  /** Another inode's indirect block is a different block, with an owner of its own. */
  lemma IndirectOwner(v: Vol, meta: nat, i: nat)
    requires Inv(v, meta) && i < |v.ino|
    ensures var a := v.ino[i].addrs[NDIRECT];
            a != 0 ==> a in v.owner && v.owner[a] == Slot(i, NDIRECT) && 0 < meta <= a < |v.data|
  {
    assert Valid(v, i, NDIRECT);
    assert At(v, meta, i, NDIRECT) == v.ino[i].addrs[NDIRECT];
  }

  lemma GiveTopGiven(v: Vol, meta: nat, i: nat, s: nat, b: word)
    requires Inv(v, meta) && i < |v.ino| && s <= NDIRECT && v.ino[i].addrs[s] == 0
    requires b < |v.bitmap| && !v.bitmap[b]
    ensures Shape(GiveTop(v, i, s, b), meta) && Given(v, GiveTop(v, i, s, b), meta, i, s, b)
  {
    hide Owned;
    FreeBlock(v, meta, b);
    OwnersInRange(v, meta);
    var r := GiveTop(v, i, s, b);
    forall j: nat, t: nat | Valid(v, j, t)
      ensures At(r, meta, j, t) == if j == i && t == s then b else At(v, meta, j, t)
    {
      IndirectOwner(v, meta, j);
      if j == i && s == NDIRECT && t > NDIRECT {
        WordZero(t - NDIRECT - 1);
      }
    }
  }

  lemma GiveEntryGiven(v: Vol, meta: nat, i: nat, k: nat, b: word)
    requires Inv(v, meta) && i < |v.ino| && k < NINDIRECT
    requires v.ino[i].addrs[NDIRECT] != 0 && Word(v.data[v.ino[i].addrs[NDIRECT]], k) == 0
    requires b < |v.bitmap| && !v.bitmap[b]
    ensures var r := GiveEntry(v, i, v.ino[i].addrs[NDIRECT], k, b);
            Shape(r, meta) && Given(v, r, meta, i, NDIRECT + 1 + k, b)
  {
    hide Owned, Word, SetWord;
    FreeBlock(v, meta, b);
    OwnersInRange(v, meta);
    var a := v.ino[i].addrs[NDIRECT];
    IndirectOwner(v, meta, i);
    var r := GiveEntry(v, i, a, k, b);
    forall j: nat, t: nat | Valid(v, j, t)
      ensures At(r, meta, j, t) == if j == i && t == NDIRECT + 1 + k then b else At(v, meta, j, t)
    {
      IndirectOwner(v, meta, j);
      if j == i && t > NDIRECT {
        WordSetWord(v.data[a], k, b, t - NDIRECT - 1);
      }
    }
  }

  /* ---- file contents ---- */

  /** The slot of an inode's bn-th file block; the indirect block itself is no file block. */
  function FileSlot(bn: nat): (s: nat)
    requires bn < MAXFILE
    ensures s < SLOTS && s != NDIRECT
  {
    if bn < NDIRECT then bn else bn + 1
  }

  /** The p-th byte of a file; a hole reads as zero. */
  ghost function ByteAt(v: Vol, meta: nat, i: nat, p: nat): (r: byte)
    requires Shape(v, meta) && i < |v.ino| && p < MAXFILE * BSIZE
  {
    var b := At(v, meta, i, FileSlot(p / BSIZE));
    if b == 0 || b >= |v.data| then 0 else v.data[b][p % BSIZE]
  }

  /** Giving a zeroed block to a slot changes no byte of any file. */
  lemma GivenBytes(v: Vol, r: Vol, meta: nat, i: nat, s: nat, b: nat, j: nat, p: nat)
    requires Inv(v, meta) && Shape(r, meta) && Given(v, r, meta, i, s, b)
    requires j < |v.ino| && p < MAXFILE * BSIZE
    ensures ByteAt(r, meta, j, p) == ByteAt(v, meta, j, p)
  {
    hide At, Shape, Mapped;
    assert Valid(v, j, FileSlot(p / BSIZE));
  }

  /** New contents for the bn-th block of a file. */
  ghost function Put(v: Vol, b: nat, d: Block): (r: Vol)
    requires b < |v.data|
  {
    Vol(v.bitmap, v.ino, v.data[b := d], v.owner, v.orphans)
  }

  lemma PutSlots(v: Vol, meta: nat, b: nat, d: Block, j: nat, t: nat)
    requires Inv(v, meta) && b in v.owner && v.owner[b].index != NDIRECT && Valid(v, j, t)
    ensures b < |v.data| && Shape(Put(v, b, d), meta)
    ensures At(Put(v, b, d), meta, j, t) == At(v, meta, j, t)
  {
    IndirectOwner(v, meta, j);
  }

  lemma PutInv(v: Vol, meta: nat, b: nat, d: Block)
    requires Inv(v, meta) && b in v.owner && v.owner[b].index != NDIRECT
    ensures b < |v.data| && Inv(Put(v, b, d), meta)
  {
    hide At;
    var r := Put(v, b, d);
    forall j: nat, t: nat | Valid(v, j, t)
      ensures At(r, meta, j, t) == At(v, meta, j, t)
    {
      PutSlots(v, meta, b, d, j, t);
    }
    assert forall j, t :: Valid(r, j, t) <==> Valid(v, j, t);
  }

  /** Writing one file block changes the bytes of that block of that file and no others. */
  lemma PutBytes(v: Vol, meta: nat, i: nat, bn: nat, d: Block, j: nat, p: nat)
    requires Inv(v, meta) && i < |v.ino| && bn < MAXFILE && At(v, meta, i, FileSlot(bn)) != 0
    requires j < |v.ino| && p < MAXFILE * BSIZE
    ensures var b := At(v, meta, i, FileSlot(bn));
            && b in v.owner && v.owner[b] == Slot(i, FileSlot(bn)) && b < |v.data| && Shape(Put(v, b, d), meta)
            && ByteAt(Put(v, b, d), meta, j, p) ==
               if j == i && p / BSIZE == bn then d[p % BSIZE] else ByteAt(v, meta, j, p)
  {
    hide At, Mapped;
    assert Valid(v, i, FileSlot(bn)) && Valid(v, j, FileSlot(p / BSIZE));
    PutSlots(v, meta, At(v, meta, i, FileSlot(bn)), d, j, FileSlot(p / BSIZE));
  }

  /* ---- what bmap does ---- */

  /** The slots that mapping the bn-th file block of inode i may fill. */
  ghost predicate Touches(i: nat, bn: nat, j: nat, t: nat)
    requires bn < MAXFILE
  {
    j == i && (t == FileSlot(bn) || (bn >= NDIRECT && t == NDIRECT))
  }

  /** The bn-th block of inode i is mapped; slots that were filled keep their block; all files keep their bytes. */
  ghost predicate Grown(v: Vol, r: Vol, meta: nat, i: nat, bn: nat) {
    && Inv(v, meta) && Inv(r, meta) && |r.ino| == |v.ino| && |r.data| == |v.data| && r.orphans == v.orphans
    && i < |v.ino| && bn < MAXFILE
    && At(r, meta, i, FileSlot(bn)) != 0 && (bn >= NDIRECT ==> At(r, meta, i, NDIRECT) != 0)
    && (forall j, t :: Valid(v, j, t) && (!Touches(i, bn, j, t) || At(v, meta, j, t) != 0) ==>
          At(r, meta, j, t) == At(v, meta, j, t))
    && (forall j, p :: 0 <= j < |v.ino| && 0 <= p < MAXFILE * BSIZE ==> ByteAt(r, meta, j, p) == ByteAt(v, meta, j, p))
  }

  lemma GrownNothing(v: Vol, meta: nat, i: nat, bn: nat)
    requires Inv(v, meta) && i < |v.ino| && bn < MAXFILE && At(v, meta, i, FileSlot(bn)) != 0
    ensures Grown(v, v, meta, i, bn)
  {
  }

  lemma GrownOnce(v: Vol, r: Vol, meta: nat, i: nat, bn: nat, b: nat)
    requires Inv(v, meta) && Shape(r, meta) && i < |v.ino| && bn < MAXFILE
    requires Given(v, r, meta, i, FileSlot(bn), b)
    requires bn >= NDIRECT ==> At(v, meta, i, NDIRECT) != 0
    ensures Grown(v, r, meta, i, bn) && At(r, meta, i, FileSlot(bn)) == b && At(v, meta, i, FileSlot(bn)) == 0
  {
    hide At, Shape;
    GivenInv(v, r, meta, i, FileSlot(bn), b);
    assert Valid(v, i, FileSlot(bn)) && Valid(v, i, NDIRECT);
    forall j: nat, p: nat | j < |v.ino| && p < MAXFILE * BSIZE
      ensures ByteAt(r, meta, j, p) == ByteAt(v, meta, j, p)
    {
      GivenBytes(v, r, meta, i, FileSlot(bn), b, j, p);
    }
  }

  /** The indirect block first, then the file block inside it. */
  lemma GrownTwice(v: Vol, m: Vol, r: Vol, meta: nat, i: nat, bn: nat, a: nat)
    requires Inv(v, meta) && Shape(m, meta) && Given(v, m, meta, i, NDIRECT, a)
    requires NDIRECT <= bn < MAXFILE && Grown(m, r, meta, i, bn)
    ensures Grown(v, r, meta, i, bn)
  {
    hide At, Shape, ByteAt, Mapped, Owned;
    assert Valid(v, i, NDIRECT);
    forall j: nat, p: nat | j < |v.ino| && p < MAXFILE * BSIZE
      ensures ByteAt(r, meta, j, p) == ByteAt(v, meta, j, p)
    {
      GivenBytes(v, m, meta, i, NDIRECT, a, j, p);
    }
    forall j: nat, t: nat | Valid(v, j, t) && (!Touches(i, bn, j, t) || At(v, meta, j, t) != 0)
      ensures At(r, meta, j, t) == At(v, meta, j, t)
    {
      assert Valid(m, j, t);
    }
  }

  /* ---- taking blocks away ---- */

  /** A direct slot is emptied and its block freed. */
  ghost function ClearTop(v: Vol, i: nat, s: nat): (r: Vol)
    requires i < |v.ino| && s < |v.ino[i].addrs| && v.ino[i].addrs[s] < |v.bitmap|
  {
    var b := v.ino[i].addrs[s];
    Vol(v.bitmap[b := false], v.ino[i := SetAddr(v.ino[i], s, 0)], v.data, v.owner - {b}, v.orphans)
  }

  /** The indirect slot is emptied: its block and all blocks listed in it become orphans. */
  ghost function DropIndirect(v: Vol, i: nat): (r: Vol)
    requires i < |v.ino| && |v.ino[i].addrs| == NDIRECT + 1
  {
    Vol(v.bitmap, v.ino[i := SetAddr(v.ino[i], NDIRECT, 0)], v.data, v.owner,
        v.orphans + (set b | b in v.owner && v.owner[b].inum == i && v.owner[b].index >= NDIRECT))
  }

  ghost function FreeOrphan(v: Vol, b: nat): (r: Vol)
    requires b < |v.bitmap|
  {
    Vol(v.bitmap[b := false], v.ino, v.data, v.owner - {b}, v.orphans - {b})
  }

  lemma ClearTopInv(v: Vol, meta: nat, i: nat, s: nat)
    requires Inv(v, meta) && i < |v.ino| && s < NDIRECT && v.ino[i].addrs[s] != 0
    ensures v.ino[i].addrs[s] in v.owner && v.ino[i].addrs[s] < |v.bitmap| && v.bitmap[v.ino[i].addrs[s]]
    ensures Inv(ClearTop(v, i, s), meta)
  {
    assert Valid(v, i, s) && At(v, meta, i, s) == v.ino[i].addrs[s];
    var r := ClearTop(v, i, s);
    forall j: nat, t: nat | Valid(v, j, t)
      ensures At(r, meta, j, t) == if j == i && t == s then 0 else At(v, meta, j, t)
    {
    }
    Cleared(v, r, meta, i, s);
  }

  lemma Cleared(v: Vol, r: Vol, meta: nat, i: nat, s: nat)
    requires Inv(v, meta) && Shape(r, meta) && Valid(v, i, s) && At(v, meta, i, s) != 0
    requires |r.ino| == |v.ino| && |r.data| == |v.data| && r.orphans == v.orphans
    requires r.owner == v.owner - {At(v, meta, i, s)}
    requires At(v, meta, i, s) < |v.bitmap| && r.bitmap == v.bitmap[At(v, meta, i, s) := false]
    requires forall j, t :: Valid(v, j, t) ==> At(r, meta, j, t) == if j == i && t == s then 0 else At(v, meta, j, t)
    ensures Inv(r, meta)
  {
    hide At;
    assert forall j, t :: Valid(r, j, t) <==> Valid(v, j, t);
  }

  lemma DropIndirectInv(v: Vol, meta: nat, i: nat)
    requires Inv(v, meta) && i < |v.ino|
    ensures Inv(DropIndirect(v, i), meta)
  {
    var r := DropIndirect(v, i);
    forall j: nat, t: nat | Valid(v, j, t)
      ensures At(r, meta, j, t) == if j == i && t >= NDIRECT then 0 else At(v, meta, j, t)
    {
    }
    assert forall j, t :: Valid(r, j, t) <==> Valid(v, j, t);
    hide At;
  }

  lemma FreeOrphanInv(v: Vol, meta: nat, b: nat)
    requires Inv(v, meta) && b in v.orphans
    ensures b < |v.bitmap| && v.bitmap[b]
    ensures Inv(FreeOrphan(v, b), meta)
  {
    hide At;
    assert b in v.owner;
    var r := FreeOrphan(v, b);
    forall j: nat, t: nat | Valid(v, j, t)
      ensures At(r, meta, j, t) == At(v, meta, j, t)
    {
      SameSlots(v, r, meta, j, t);
    }
    assert forall j, t :: Valid(r, j, t) <==> Valid(v, j, t);
  }

  lemma SameSlots(v: Vol, r: Vol, meta: nat, j: nat, t: nat)
    requires Shape(v, meta) && Shape(r, meta) && r.ino == v.ino && r.data == v.data && Valid(v, j, t)
    ensures At(r, meta, j, t) == At(v, meta, j, t)
  {
  }

  /* ---- hole-freedom ---- */

  /** Exactly the blocks that hold the first n bytes are mapped, and the indirect block if one of them needs it. */
  ghost predicate HoleFree(v: Vol, meta: nat, i: nat, n: nat)
    requires Shape(v, meta) && i < |v.ino|
  {
    && (forall bn :: 0 <= bn < MAXFILE ==> (At(v, meta, i, FileSlot(bn)) != 0 <==> bn * BSIZE < n))
    && (v.ino[i].addrs[NDIRECT] != 0 <==> NDIRECT * BSIZE < n)
  }

  /** Every slot outside the path of the bn-th block is the same, and filled slots keep their block. */
  ghost predicate SlotsGrown(v: Vol, r: Vol, meta: nat, i: nat, bn: nat) {
    && Shape(v, meta) && Shape(r, meta) && |r.ino| == |v.ino| && i < |v.ino| && bn < MAXFILE
    && At(r, meta, i, FileSlot(bn)) != 0 && (bn >= NDIRECT ==> At(r, meta, i, NDIRECT) != 0)
    && (forall j, t :: Valid(v, j, t) && (!Touches(i, bn, j, t) || At(v, meta, j, t) != 0) ==>
          At(r, meta, j, t) == At(v, meta, j, t))
  }

  /** Mapping the block behind the last mapped one, or one of the mapped ones, makes no hole. */
  lemma HoleFreeStep(v: Vol, r: Vol, meta: nat, i: nat, n: nat, off: nat, m: nat)
    requires SlotsGrown(v, r, meta, i, off / BSIZE) && HoleFree(v, meta, i, n)
    requires off <= n && 0 < m && off % BSIZE + m <= BSIZE
    ensures HoleFree(r, meta, i, if n < off + m then off + m else n)
  {
    var n' := if n < off + m then off + m else n;
    forall bn | 0 <= bn < MAXFILE
      ensures At(r, meta, i, FileSlot(bn)) != 0 <==> bn * BSIZE < n'
    {
      assert Valid(v, i, FileSlot(bn));
    }
    assert Valid(v, i, NDIRECT) && At(v, meta, i, NDIRECT) == v.ino[i].addrs[NDIRECT];
    assert At(r, meta, i, NDIRECT) == r.ino[i].addrs[NDIRECT];
    hide At, Shape;
  }

  /* ---- writing ---- */

  /** Bytes [off, off + |src|) of file i are src; every other byte of every file is as before. */
  ghost predicate Wrote(v: Vol, r: Vol, meta: nat, i: nat, off: nat, src: seq<byte>) {
    && Shape(v, meta) && Shape(r, meta) && |r.ino| == |v.ino| && i < |v.ino|
    && forall j, p :: 0 <= j < |v.ino| && 0 <= p < MAXFILE * BSIZE ==>
         ByteAt(r, meta, j, p) == if j == i && off <= p < off + |src| then src[p - off] else ByteAt(v, meta, j, p)
  }

  lemma WroteTrans(v: Vol, m: Vol, r: Vol, meta: nat, i: nat, off: nat, s: seq<byte>, t: seq<byte>)
    requires Wrote(v, m, meta, i, off, s) && Wrote(m, r, meta, i, off + |s|, t)
    ensures Wrote(v, r, meta, i, off, s + t)
  {
    hide ByteAt, Shape;
  }

  lemma WroteNothing(v: Vol, meta: nat, i: nat, off: nat)
    requires Shape(v, meta) && i < |v.ino|
    ensures Wrote(v, v, meta, i, off, [])
  {
  }

  /** The block with src copied in at offset o. */
  function Patch(d: Block, o: nat, src: seq<byte>): (r: Block)
    requires o + |src| <= BSIZE
    ensures forall q :: 0 <= q < BSIZE ==> r[q] == if o <= q < o + |src| then src[q - o] else d[q]
  {
    d[..o] + src + d[o + |src|..]
  }

  /** Map the block, then patch it: the slots grow along its path, and exactly the given bytes change. */
  lemma PatchWrote(v: Vol, m: Vol, meta: nat, i: nat, off: nat, src: seq<byte>)
    requires off / BSIZE < MAXFILE && Grown(v, m, meta, i, off / BSIZE)
    requires off % BSIZE + |src| <= BSIZE
    ensures var b := At(m, meta, i, FileSlot(off / BSIZE));
            && b < |m.data|
            && var r := Put(m, b, Patch(m.data[b], off % BSIZE, src));
            && Inv(r, meta) && Wrote(v, r, meta, i, off, src) && SlotsGrown(v, r, meta, i, off / BSIZE)
  {
    hide At, Owned, Mapped, Given, ByteAt;
    var bn := off / BSIZE;
    var b := At(m, meta, i, FileSlot(bn));
    PutBytes(m, meta, i, bn, Zero(), i, 0);
    var d := Patch(m.data[b], off % BSIZE, src);
    var r := Put(m, b, d);
    PutInv(m, meta, b, d);
    forall j: nat, t: nat | Valid(v, j, t)
      ensures At(r, meta, j, t) == At(m, meta, j, t)
    {
      PutSlots(m, meta, b, d, j, t);
    }
    assert Valid(v, i, FileSlot(bn)) && Valid(v, i, NDIRECT);
    forall j: nat, p: nat | j < |v.ino| && p < MAXFILE * BSIZE
      ensures ByteAt(r, meta, j, p) == if j == i && off <= p < off + |src| then src[p - off] else ByteAt(v, meta, j, p)
    {
      PutBytes(m, meta, i, bn, d, j, p);
      SameBlockOffset(off, |src|, p);
      if j == i && p / BSIZE == bn {
        ByteInBlock(m, meta, i, p, b);
      }
    }
  }

  lemma SameBlockOffset(off: nat, n: nat, p: nat)
    requires off % BSIZE + n <= BSIZE
    ensures off <= p < off + n <==> p / BSIZE == off / BSIZE && off % BSIZE <= p % BSIZE < off % BSIZE + n
    ensures p / BSIZE == off / BSIZE ==> p - off == p % BSIZE - off % BSIZE
  {
  }

  lemma ByteInBlock(v: Vol, meta: nat, i: nat, p: nat, b: nat)
    requires Shape(v, meta) && i < |v.ino| && p < MAXFILE * BSIZE
    requires b == At(v, meta, i, FileSlot(p / BSIZE)) && 0 < b < |v.data|
    ensures ByteAt(v, meta, i, p) == v.data[b][p % BSIZE]
  {
  }

  /** The same slots, whatever else the inodes say. */
  ghost predicate SameAddrs(v: Vol, r: Vol) {
    && r.bitmap == v.bitmap && r.data == v.data && r.owner == v.owner && r.orphans == v.orphans && |r.ino| == |v.ino|
    && forall j :: 0 <= j < |v.ino| ==> r.ino[j].addrs == v.ino[j].addrs
  }

  lemma SameAddrsSlots(v: Vol, r: Vol, meta: nat, j: nat, t: nat)
    requires Shape(v, meta) && SameAddrs(v, r) && Valid(v, j, t)
    ensures Shape(r, meta) && At(r, meta, j, t) == At(v, meta, j, t)
  {
  }

  lemma SameAddrsInv(v: Vol, r: Vol, meta: nat)
    requires Inv(v, meta) && SameAddrs(v, r)
    ensures Inv(r, meta)
  {
    hide At;
    assert Shape(r, meta);
    forall j: nat, t: nat | Valid(v, j, t)
      ensures At(r, meta, j, t) == At(v, meta, j, t)
    {
      SameAddrsSlots(v, r, meta, j, t);
    }
    assert forall j, t :: Valid(r, j, t) <==> Valid(v, j, t);
  }

  lemma SameAddrsWrote(v: Vol, m: Vol, r: Vol, meta: nat, i: nat, off: nat, src: seq<byte>)
    requires Wrote(v, m, meta, i, off, src) && SameAddrs(m, r)
    ensures Wrote(v, r, meta, i, off, src)
  {
    hide At, Shape;
    if |m.ino| > 0 {
      SameAddrsSlots(m, r, meta, 0, 0);
    }
    forall j: nat, p: nat | j < |m.ino| && p < MAXFILE * BSIZE
      ensures ByteAt(r, meta, j, p) == ByteAt(m, meta, j, p)
    {
      SameAddrsSlots(m, r, meta, j, FileSlot(p / BSIZE));
    }
  }

  lemma SameAddrsHoleFree(v: Vol, r: Vol, meta: nat, i: nat, n: nat)
    requires Shape(v, meta) && SameAddrs(v, r) && i < |v.ino| && HoleFree(v, meta, i, n)
    ensures Shape(r, meta) && HoleFree(r, meta, i, n)
  {
    hide At;
    forall bn | 0 <= bn < MAXFILE
      ensures Shape(r, meta) && At(r, meta, i, FileSlot(bn)) == At(v, meta, i, FileSlot(bn))
    {
      SameAddrsSlots(v, r, meta, i, FileSlot(bn));
    }
  }

  /* ---- releasing a whole inode ---- */

  /** The blocks in slots [lo, hi) of inode i. */
  ghost function Held(owner: map<nat, Slot>, i: nat, lo: nat, hi: nat): (r: set<nat>) {
    set b | b in owner && owner[b].inum == i && lo <= owner[b].index < hi
  }

  /** A slot holds at most its own block. */
  lemma HeldSlot(v: Vol, meta: nat, i: nat, lo: nat, s: nat)
    requires Inv(v, meta) && v.orphans == {} && Valid(v, i, s) && lo <= s
    ensures Held(v.owner, i, lo, s + 1) ==
            Held(v.owner, i, lo, s) + (if At(v, meta, i, s) == 0 then {} else {At(v, meta, i, s)})
  {
    hide At;
  }

  /** No slot of inode i is left in a volume that keeps to the invariant with its addrs empty. */
  lemma NothingHeld(v: Vol, meta: nat, i: nat)
    requires Inv(v, meta) && v.orphans == {} && i < |v.ino| && forall s :: 0 <= s <= NDIRECT ==> v.ino[i].addrs[s] == 0
    ensures forall b :: b in v.owner ==> v.owner[b].inum != i
  {
    forall b | b in v.owner
      ensures v.owner[b].inum != i
    {
      assert At(v, meta, v.owner[b].inum, v.owner[b].index) == b;
    }
  }

  /* ---- how many blocks are left ---- */

  ghost function FreeBlocks(bitmap: seq<bool>): (r: set<nat>) {
    set b: nat | b < |bitmap| && !bitmap[b]
  }

  lemma OneTaken(bitmap: seq<bool>, b: nat)
    requires b < |bitmap| && !bitmap[b]
    ensures |FreeBlocks(bitmap[b := true])| == |FreeBlocks(bitmap)| - 1
  {
    assert FreeBlocks(bitmap[b := true]) == FreeBlocks(bitmap) - {b};
  }

  lemma NoneFree(bitmap: seq<bool>)
    requires forall b :: 0 <= b < |bitmap| ==> bitmap[b]
    ensures FreeBlocks(bitmap) == {}
  {
  }
}
