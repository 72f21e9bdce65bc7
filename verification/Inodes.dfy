/**
Inode contents over the allocator: balloc, bfree, bmap, itrunc, readi, writei.  The state is
what a transaction sees through the log; `logged` collects the blocks that log_write has listed.
`ino` holds the inodes in memory, `dinode` the ones on disk.  A result of None or Panic stands
for a kernel panic: nothing is promised about the state behind it.
*/
module Inodes {
  import opened Prelude
  import opened Blocks
  import opened Ownership
  import opened Space
  import opened FileWrites
  import Reservation

  const IPB := 8
  const T_DEV := 3

  class FileSys {
    const meta: nat
    const inodestart: nat
    const bmapstart: nat
    var bitmap: seq<bool>
    var ino: seq<Dinode>
    var dinode: seq<Dinode>
    var data: seq<Block>
    ghost var owner: map<nat, Slot>
    ghost var logged: set<nat>

    constructor (meta: nat, inodestart: nat, bmapstart: nat, v: Vol)
      requires Inv(v, meta) && v.orphans == {} && forall i :: 0 <= i < |v.ino| ==> v.ino[i].size <= MAXFILE * BSIZE
      ensures Ok() && V() == v && dinode == ino && logged == {}
      ensures this.meta == meta && this.inodestart == inodestart && this.bmapstart == bmapstart
    {
      this.meta, this.inodestart, this.bmapstart := meta, inodestart, bmapstart;
      bitmap, ino, dinode, data, owner, logged := v.bitmap, v.ino, v.ino, v.data, v.owner, {};
    }

    ghost function V(): (v: Vol)
      reads this
    {
      Vol(bitmap, ino, data, owner, {})
    }

    ghost predicate Ok()
      reads this
    {
      && Inv(V(), meta)
      && |dinode| == |ino|
      && forall i :: 0 <= i < |ino| ==> ino[i].size <= MAXFILE * BSIZE
    }

    /** The bitmap block that holds the bit of block b, and the inode block that holds inode i. */
    function BitmapBlock(b: nat): nat {
      MapBlock(bmapstart, b)
    }

    function InodeBlock(i: nat): nat {
      i / IPB + inodestart
    }

    /**
    balloc: the first free block, marked used and zeroed.  None stands for the panic when every block
    is in use, and for that of log_write when no operation is open.
    */
    method Balloc(open: bool) returns (r: Option<nat>)
      requires |bitmap| == |data|
      modifies this`bitmap, this`data, this`logged
      ensures r.None? ==> !open || FreeBlocks(old(bitmap)) == {}
      ensures r.Some? ==> open && |FreeBlocks(bitmap)| == |FreeBlocks(old(bitmap))| - 1
      ensures r.Some? ==>
                var b := r.value;
                && b < |old(bitmap)| && !old(bitmap)[b] && (forall c :: 0 <= c < b ==> old(bitmap)[c])
                && bitmap == old(bitmap)[b := true] && data == old(data)[b := Zero()]
                && logged == old(logged) + {BitmapBlock(b), b}
    {
      var b := 0;
      while b < |bitmap|
        invariant b % BPB == 0
        invariant bitmap == old(bitmap) && data == old(data) && logged == old(logged)
        invariant forall c :: 0 <= c < b && c < |bitmap| ==> bitmap[c]
      {
        var bi := 0;
        while bi < BPB && b + bi < |bitmap|
          invariant 0 <= bi <= BPB
          invariant bitmap == old(bitmap) && data == old(data) && logged == old(logged)
          invariant forall c :: 0 <= c < b + bi && c < |bitmap| ==> bitmap[c]
        {
          if !bitmap[b + bi] {
            OneTaken(bitmap, b + bi);
            bitmap := bitmap[b + bi := true];
            if !open {
              return None;
            }
            logged := logged + {BitmapBlock(b + bi)};
            data := data[b + bi := Zero()];
            logged := logged + {b + bi};
            return Some(b + bi);
          }
          bi := bi + 1;
        }
        b := b + BPB;
      }
      NoneFree(bitmap);
      return None;
    }

    /** A missing block for an empty slot of addrs: a direct block, or the indirect block. */
    method AllocTop(i: nat, s: nat, open: bool) returns (r: Option<nat>)
      requires Ok() && i < |ino| && s <= NDIRECT && ino[i].addrs[s] == 0
      modifies this`bitmap, this`ino, this`data, this`owner, this`logged
      ensures r.None? ==> !open || FreeBlocks(old(bitmap)) == {}
      ensures r.Some? ==> open && |FreeBlocks(bitmap)| == |FreeBlocks(old(bitmap))| - 1
      ensures r.Some? ==>
                var b := r.value;
                && Ok() && Given(old(V()), V(), meta, i, s, b)
                && 0 < b < 0x1_0000_0000 && ino == old(ino)[i := SetAddr(old(ino)[i], s, b)]
                && b < |old(bitmap)| && bitmap == old(bitmap)[b := true]
                && logged == old(logged) + {BitmapBlock(b), b}
                && Recorded(bmapstart, old(V()), old(logged), V(), logged)
    {
      hide Owned, Mapped, Given, At, Recorded;
      ghost var v := V();
      r := Balloc(open);
      if r.Some? {
        var b := r.value;
        FreeBlock(v, meta, b);
        GiveTopGiven(v, meta, i, s, b);
        GivenInv(v, GiveTop(v, i, s, b), meta, i, s, b);
        RecordedTop(bmapstart, v, old(logged), i, s, b);
        ino := ino[i := SetAddr(ino[i], s, b)];
        owner := owner[b := Slot(i, s)];
        assert V() == GiveTop(v, i, s, b);
      }
    }

    /** A missing block for an empty word of the indirect block. */
    method AllocEntry(i: nat, k: nat, open: bool) returns (r: Option<nat>)
      requires Ok() && i < |ino| && k < NINDIRECT
      requires ino[i].addrs[NDIRECT] != 0 && Word(data[ino[i].addrs[NDIRECT]], k) == 0
      modifies this`bitmap, this`data, this`owner, this`logged
      ensures r.None? ==> !open || FreeBlocks(old(bitmap)) == {}
      ensures r.Some? ==> open && |FreeBlocks(bitmap)| == |FreeBlocks(old(bitmap))| - 1
      ensures r.Some? ==>
                var b := r.value;
                && Ok() && Given(old(V()), V(), meta, i, NDIRECT + 1 + k, b)
                && logged == old(logged) + {BitmapBlock(b), b, ino[i].addrs[NDIRECT]}
                && Recorded(bmapstart, old(V()), old(logged), V(), logged)
    {
      hide Owned, Mapped, Given, At, Recorded;
      ghost var v := V();
      var a := ino[i].addrs[NDIRECT];
      r := Balloc(open);
      if r.Some? {
        var b := r.value;
        GiveEntryGiven(v, meta, i, k, b);
        GivenInv(v, GiveEntry(v, i, a, k, b), meta, i, NDIRECT + 1 + k, b);
        RecordedEntry(bmapstart, v, old(logged), i, a, k, b);
        data := data[a := SetWord(data[a], k, b)];
        logged := logged + {a as nat};
        owner := owner[b := Slot(i, NDIRECT + 1 + k)];
        assert V() == GiveEntry(v, i, a, k, b);
      }
    }

    /**
    bmap: the disk block of the bn-th file block, allocating it, and the indirect block before
    it, where the slot is empty.  `bm` collects the bitmap blocks this logs.
    */
    method Bmap(i: nat, bn: nat, open: bool) returns (r: Option<nat>, ghost bm: set<nat>)
      requires Ok() && i < |ino| && bn < MAXFILE
      modifies this`bitmap, this`ino, this`data, this`owner, this`logged
      ensures r.Some? ==> Ok() && Grown(old(V()), V(), meta, i, bn) && r.value == At(V(), meta, i, FileSlot(bn))
      ensures r.Some? ==> |ino[i].addrs| == NDIRECT + 1 && ino == old(ino)[i := SetAddrs(old(ino)[i], ino[i].addrs)]
      ensures r.Some? && old(At(V(), meta, i, FileSlot(bn))) != 0 ==>
                V() == old(V()) && logged == old(logged) && bm == {}
      ensures r.Some? ==>
                logged <= old(logged) + bm + {r.value} + (if bn < NDIRECT then {} else {ino[i].addrs[NDIRECT] as nat})
      ensures r.Some? ==> Recorded(bmapstart, old(V()), old(logged), V(), logged)
      ensures r.Some? ==> |bm| <= (if old(At(V(), meta, i, FileSlot(bn))) == 0 then 1 else 0)
                                  + (if bn >= NDIRECT && old(ino)[i].addrs[NDIRECT] == 0 then 1 else 0)
      ensures r.Some? ==> forall s :: 0 <= s <= NDIRECT && s != TopSlot(bn) ==> ino[i].addrs[s] == old(ino)[i].addrs[s]
      ensures r.Some? && old(ino)[i].addrs[TopSlot(bn)] != 0 ==> ino == old(ino)
      ensures r.Some? <==> Payable(open, |FreeBlocks(old(bitmap))|, Missing(old(V()), meta, i, bn))
      ensures r.Some? ==> |FreeBlocks(bitmap)| == |FreeBlocks(old(bitmap))| - Missing(old(V()), meta, i, bn)
    {
      hide Owned, Mapped, Given, Grown, FreeBlocks, Recorded;
      bm := {};
      ghost var v := V();
      RecordedRefl(bmapstart, v, logged);
      if bn < NDIRECT {
        var addr := ino[i].addrs[bn];
        if addr == 0 {
          r := AllocTop(i, bn, open);
          if r.None? { return; }
          GrownOnce(v, V(), meta, i, bn, r.value);
          bm := {BitmapBlock(r.value)};
          return;
        }
        GrownNothing(v, meta, i, bn);
        return Some(addr), {};
      }
      r, bm := BmapIndirect(i, bn, open);
    }

    /** bmap behind the direct blocks. */
    method BmapIndirect(i: nat, bn: nat, open: bool) returns (r: Option<nat>, ghost bm: set<nat>)
      requires Ok() && i < |ino| && NDIRECT <= bn < MAXFILE
      modifies this`bitmap, this`ino, this`data, this`owner, this`logged
      ensures r.Some? ==> Ok() && Grown(old(V()), V(), meta, i, bn) && r.value == At(V(), meta, i, FileSlot(bn))
      ensures r.Some? ==> |ino[i].addrs| == NDIRECT + 1 && ino == old(ino)[i := SetAddrs(old(ino)[i], ino[i].addrs)]
      ensures r.Some? && old(At(V(), meta, i, FileSlot(bn))) != 0 ==>
                V() == old(V()) && logged == old(logged) && bm == {}
      ensures r.Some? ==> logged <= old(logged) + bm + {r.value} + {ino[i].addrs[NDIRECT] as nat}
      ensures r.Some? ==> Recorded(bmapstart, old(V()), old(logged), V(), logged)
      ensures r.Some? ==> |bm| <= (if old(At(V(), meta, i, FileSlot(bn))) == 0 then 1 else 0)
                                  + (if old(ino)[i].addrs[NDIRECT] == 0 then 1 else 0)
      ensures r.Some? ==> forall s :: 0 <= s < NDIRECT ==> ino[i].addrs[s] == old(ino)[i].addrs[s]
      ensures r.Some? && old(ino)[i].addrs[NDIRECT] != 0 ==> ino == old(ino)
      ensures r.Some? <==> Payable(open, |FreeBlocks(old(bitmap))|, Missing(old(V()), meta, i, bn))
      ensures r.Some? ==> |FreeBlocks(bitmap)| == |FreeBlocks(old(bitmap))| - Missing(old(V()), meta, i, bn)
    {
      hide Owned, Mapped, Given, Grown, FreeBlocks, Recorded;
      ghost var v, l := V(), logged;
      RecordedRefl(bmapstart, v, l);
      bm := {};
      var missing := ino[i].addrs[NDIRECT] == 0;
      ghost var c := 0;
      if missing {
        r := AllocTop(i, NDIRECT, open);
        if r.None? { return; }
        c := r.value;
        bm := {BitmapBlock(c)};
      }
      ghost var m, j := V(), logged;
      var a := ino[i].addrs[NDIRECT];
      var e := Word(data[a], bn - NDIRECT);
      if missing {
        StillEmpty(v, m, meta, i, bn, c);
      }
      if e == 0 {
        r := AllocEntry(i, bn - NDIRECT, open);
        if r.None? { return; }
        GrownOnce(m, V(), meta, i, bn, r.value);
        RecordedTrans(bmapstart, v, l, m, j, V(), logged);
        bm := bm + {BitmapBlock(r.value)};
      } else {
        r := Some(e);
        GrownNothing(m, meta, i, bn);
      }
      if missing {
        GrownTwice(v, m, V(), meta, i, bn, c);
      }
    }

    /** One pass of writei's loop: map the block, copy the bytes in, log it. */
    method WriteOne(i: nat, off: nat, src: seq<byte>) returns (r: Option<nat>, ghost bm: set<nat>)
      requires Ok() && i < |ino| && off / BSIZE < MAXFILE && off % BSIZE + |src| <= BSIZE
      modifies this`bitmap, this`ino, this`data, this`owner, this`logged
      ensures r.Some? ==> Ok() && OneWritten(old(V()), old(logged), V(), logged, meta, i, off, src, r.value, bm)
      ensures r.Some? ==> Recorded(bmapstart, old(V()), old(logged), V(), logged)
      ensures r.None? ==> |FreeBlocks(old(bitmap))| < Missing(old(V()), meta, i, off / BSIZE)
    {
      hide Inv, Grown, OneWritten, At, FreeBlocks, Recorded;
      InvShape(V(), meta);
      ghost var v := V();
      r, bm := Bmap(i, off / BSIZE, true);
      if r.None? { return; }
      ghost var m, j := V(), logged;
      MappedOneWritten(v, old(logged), V(), logged, meta, i, off, src, bm);
      RecordedPut(bmapstart, m, j, r.value, Patch(data[r.value], off % BSIZE, src));
      data := data[r.value := Patch(data[r.value], off % BSIZE, src)];
      logged := logged + {r.value};
      RecordedTrans(bmapstart, v, old(logged), m, j, V(), logged);
    }

    /** iupdate: the inode in memory goes to its place on disk. */
    method Iupdate(i: nat)
      requires i < |ino| == |dinode|
      modifies this`dinode, this`logged
      ensures dinode == old(dinode)[i := ino[i]] && logged == old(logged) + {InodeBlock(i)}
    {
      dinode := dinode[i := ino[i]];
      logged := logged + {InodeBlock(i)};
    }

    /** The loop of writei. */
    method WriteAll(i: nat, src: seq<byte>, off: nat) returns (ok: bool, ghost bm: set<nat>, ghost dt: set<nat>)
      requires Ok() && i < |ino| && off <= ino[i].size && off + |src| <= MAXFILE * BSIZE
      modifies this`bitmap, this`ino, this`data, this`owner, this`logged
      ensures ok ==> Ok() && Written(old(V()), old(logged), V(), logged, meta, i, off, src, bm, dt)
      ensures ok ==> Recorded(bmapstart, old(V()), old(logged), V(), logged)
      ensures ok <==> |FreeBlocks(old(bitmap))| >= Needed(old(V()), meta, i, off, |src|)
    {
      hide Inv, Written, OneWritten, FreeBlocks, Missing, Needed, Recorded;
      InvShape(V(), meta);
      ghost var v, l := V(), logged;
      var n, tot, o := |src|, 0, off;
      bm, dt := {}, {};
      WrittenNothing(v, l, meta, i, off);
      RecordedRefl(bmapstart, v, l);
      assert src[..0] == [];
      while tot < n
        invariant 0 <= tot <= n && o == off + tot && (tot == 0 || o % BSIZE == 0 || tot == n)
        invariant Ok() && |ino| == |v.ino| && Written(v, l, V(), logged, meta, i, off, src[..tot], bm, dt)
        invariant Recorded(bmapstart, v, l, V(), logged)
      {
        var m := if n - tot < BSIZE - o % BSIZE then n - tot else BSIZE - o % BSIZE;
        ghost var w, k := V(), logged;
        ghost var s := src[tot..tot + m];
        var b, b1 := WriteOne(i, o, src[tot..tot + m]);
        if b.None? {
          WrittenCharged(v, l, w, k, meta, i, off, src[..tot], bm, dt);
          PassFails(true, v, w, meta, i, off, tot, m, n);
          return false, bm, dt;
        }
        assert src[..tot + m] == src[..tot] + s;
        RecordedTrans(bmapstart, v, l, w, k, V(), logged);
        WrittenNext(v, l, w, k, V(), logged, meta, i, off, src[..tot], s, bm, dt, b.value, b1);
        bm, dt := bm + b1, dt + {b.value};
        WrittenLength(v, l, V(), logged, meta, i, off, src[..tot + m], bm, dt);
        tot, o := tot + m, o + m;
      }
      assert src[..n] == src;
      WrittenCharged(v, l, V(), logged, meta, i, off, src, bm, dt);
      ok := true;
    }

    /**
    writei.  A refused call changes nothing.  Otherwise exactly the given bytes of this file
    are replaced or appended, and the file has no hole if it had none.  The inode on disk follows
    the one in memory exactly when the file grew or no entry of addrs had to be filled.
    */
    method Writei(i: nat, src: seq<byte>, off: nat) returns (r: Outcome<nat>)
      requires Ok() && i < |ino| && ino[i].typ != T_DEV && off < 0x1_0000_0000 && |src| < 0x1_0000_0000
      modifies this`bitmap, this`ino, this`dinode, this`data, this`owner, this`logged
      ensures r.Refused? <==> off > old(ino)[i].size || off + |src| > MAXFILE * BSIZE
      ensures r.Refused? ==> V() == old(V()) && dinode == old(dinode) && logged == old(logged)
      ensures r.Done? ==>
                && r.value == |src| && Ok() && Wrote(old(V()), V(), meta, i, off, src)
                && OthersKept(old(V()), V(), meta, i)
      ensures r.Done? ==>
                && |ino| == |old(ino)|
                && ino[i] == SetAddrs(SetSize(old(ino)[i], Max(old(ino)[i].size, off + |src|)), ino[i].addrs)
      ensures r.Done? ==> forall j :: 0 <= j < |ino| && j != i ==> ino[j] == old(ino)[j] && dinode[j] == old(dinode)[j]
      ensures r.Done? ==>
                && Recorded(bmapstart, old(V()), old(logged), V(), logged)
                && (dinode[i] != old(dinode)[i] ==> InodeBlock(i) in logged)
      ensures r.Done? ==> dinode == if off + |src| > old(ino)[i].size then old(dinode)[i := ino[i]] else old(dinode)
      ensures r.Panicked? <==> !r.Refused? && |FreeBlocks(old(bitmap))| < Needed(old(V()), meta, i, off, |src|)
      ensures r.Done? ==> Charged(old(V()), V(), meta, i, off, |src|)
      ensures r.Done? && old(dinode[i] == ino[i]) ==>
                (dinode[i] == ino[i] <==> off + |src| > old(ino)[i].size || TopsFilled(old(ino)[i].addrs, off, |src|))
      ensures r.Done? && old(HoleFree(V(), meta, i, ino[i].size)) ==>
                && HoleFree(V(), meta, i, ino[i].size)
                && (old(dinode[i] == ino[i]) ==> dinode[i] == ino[i])
                && (|src| <= 1536 ==> |logged - old(logged)| <= 10)
    {
      hide Owned, Mapped, Wrote, SlotsGrown, At, HoleFree, Written, TopsFilled, OthersKept, Charged, Needed, FreeBlocks,
           Recorded;
      if off > ino[i].size || (off + |src|) % 0x1_0000_0000 < off {
        return Refused;
      }
      if off + |src| > MAXFILE * BSIZE {
        return Refused;
      }
      ghost var v, l := V(), logged;
      var ok, bm, dt := WriteAll(i, src, off);
      if !ok {
        return Panicked;
      }
      ghost var w, k := V(), logged;
      WrittenMeans(v, l, w, k, meta, i, off, src, bm, dt);
      var n, o := |src|, off + |src|;
      if n > 0 && o > ino[i].size {
        ino := ino[i := SetSize(ino[i], o)];
        SameAddrsInv(w, V(), meta);
        SameAddrsWrote(v, w, V(), meta, i, off, src);
        SameAddrsOthers(v, w, V(), meta, i);
        SameAddrsCharged(v, w, V(), meta, i, off, |src|);
        if HoleFree(v, meta, i, v.ino[i].size) {
          SameAddrsHoleFree(w, V(), meta, i, o);
        }
        OneMore(k, l, InodeBlock(i));
        Iupdate(i);
        RecordedMore(bmapstart, v, l, w, k, V(), logged);
      }
      return Done(n);
    }
  
    /** One pass of readi's loop: map the block, copy the bytes out. */
    method ReadOne(i: nat, off: nat, m: nat, open: bool) returns (r: Option<seq<byte>>)
      requires Ok() && i < |ino| && off / BSIZE < MAXFILE && off % BSIZE + m <= BSIZE
      modifies this`bitmap, this`ino, this`data, this`owner, this`logged
      ensures r.Some? ==> Ok() && Remapped(old(V()), old(logged), V(), logged, meta, i, off / BSIZE)
      ensures r.Some? ==> |ino| == |old(ino)| && |r.value| == m && r.value == SliceAt(V(), meta, i, off, m)
      ensures r.Some? ==> Recorded(bmapstart, old(V()), old(logged), V(), logged)
      ensures r.Some? && !open ==> V() == old(V()) && logged == old(logged)
      ensures r.None? ==> !Payable(open, |FreeBlocks(old(bitmap))|, Missing(old(V()), meta, i, off / BSIZE))
    {
      hide Inv, Grown, Remapped, At, FreeBlocks, Recorded, Missing;
      ghost var w, k := V(), logged;
      InvShape(w, meta);
      MissingNone(w, meta, i, off / BSIZE);
      var b, bm := Bmap(i, off / BSIZE, open);
      if b.None? { return None; }
      InvShape(V(), meta);
      GrownBlock(w, V(), meta, i, off / BSIZE);
      BmapRemapped(w, k, V(), logged, meta, i, off / BSIZE);
      return Some(data[b.value][off % BSIZE..off % BSIZE + m]);
    }

    /**
    readi: the bytes from off on, cut off at the end of the file.  No byte of any file changes, and
    a file without holes is read without any change at all.  `open` tells whether the caller is inside
    an operation of the log: dirlookup, dirlink, isdirempty and exec are, fileread is not.
    */
    method Readi(i: nat, off: nat, n: nat, open: bool) returns (r: Outcome<seq<byte>>)
      requires Ok() && i < |ino| && ino[i].typ != T_DEV && off < 0x1_0000_0000 && n < 0x1_0000_0000
      modifies this`bitmap, this`ino, this`data, this`owner, this`logged
      ensures r.Refused? <==> off > old(ino)[i].size || off + n >= 0x1_0000_0000
      ensures r.Refused? ==> V() == old(V()) && logged == old(logged)
      ensures r.Done? ==> |r.value| == Min(n, old(ino)[i].size - off) && Holds(old(V()), meta, i, off, r.value)
      ensures r.Done? ==> Ok() && Wrote(old(V()), V(), meta, i, off, []) && OthersKept(old(V()), V(), meta, i)
      ensures r.Done? ==> |ino| == |old(ino)| && ino == old(ino)[i := SetAddrs(old(ino)[i], ino[i].addrs)]
      ensures r.Done? && old(HoleFree(V(), meta, i, ino[i].size)) ==> V() == old(V()) && logged == old(logged)
      ensures r.Done? ==> Recorded(bmapstart, old(V()), old(logged), V(), logged)
      ensures r.Panicked? <==>
                && !r.Refused?
                && !Payable(open, |FreeBlocks(old(bitmap))|,
                            Needed(old(V()), meta, i, off, Min(n, old(ino)[i].size - off)))
      ensures r.Done? && !open ==> V() == old(V()) && logged == old(logged)
      ensures r.Panicked? ==> !old(HoleFree(V(), meta, i, ino[i].size))
      ensures r.Done? ==> Charged(old(V()), V(), meta, i, off, |r.value|)
      ensures r.Done? && old(dinode[i] == ino[i]) ==>
                (dinode[i] == ino[i] <==> TopsFilled(old(ino)[i].addrs, off, |r.value|))
    {
      hide Inv, ReadSoFar, Remapped, SliceAt, Grown, At, FreeBlocks, HoleFree, Missing, Needed, Recorded, TopsFilled;
      if off > ino[i].size || (off + n) % 0x1_0000_0000 < off {
        return Refused;
      }
      var left := Min(n, ino[i].size - off);
      ghost var v, l := V(), logged;
      ReadNothing(v, l, meta, i, off);
      RecordedRefl(bmapstart, v, l);
      var dst: seq<byte> := [];
      var tot, o := 0, off;
      while tot < left
        invariant 0 <= tot <= left && o == off + tot && |dst| == tot && (tot == 0 || o % BSIZE == 0 || tot == left)
        invariant Ok() && |ino| == |v.ino| && ReadSoFar(v, l, V(), logged, meta, i, off, dst)
        invariant Recorded(bmapstart, v, l, V(), logged) && (!open ==> V() == v && logged == l)
      {
        ghost var w, k := V(), logged;
        var m := Min(left - tot, BSIZE - o % BSIZE);
        var t := ReadOne(i, o, m, open);
        if t.None? {
          ReadMeans(v, l, w, k, meta, i, off, dst);
          PassFails(open, v, w, meta, i, off, tot, m, left);
          ReadShort(open, v, meta, i, off, left);
          return Panicked;
        }
        RecordedTrans(bmapstart, v, l, w, k, V(), logged);
        InvShape(V(), meta);
        ReadNext(v, l, w, k, V(), logged, meta, i, off, dst, m, t.value);
        dst := dst + t.value;
        ReadMeans(v, l, V(), logged, meta, i, off, dst);
        tot, o := tot + m, o + m;
      }
      ReadMeans(v, l, V(), logged, meta, i, off, dst);
      EnoughFree(v, V(), meta, i, off, left);
      return Done(dst);
    }

    /** bfree: false, for the panic "freeing free block", exactly when the bit is clear. */
    method Bfree(b: nat) returns (ok: bool)
      requires b < |bitmap|
      modifies this`bitmap, this`logged
      ensures ok <==> old(bitmap)[b]
      ensures ok ==> bitmap == old(bitmap)[b := false] && logged == old(logged) + {BitmapBlock(b)}
    {
      if !bitmap[b] {
        return false;
      }
      bitmap := bitmap[b := false];
      logged := logged + {BitmapBlock(b)};
      return true;
    }

    /** The direct half of itrunc. */
    method TruncDirect(i: nat) returns (ok: bool)
      requires Ok() && i < |ino|
      modifies this`bitmap, this`ino, this`owner, this`logged
      ensures ok && Ok() && Recorded(bmapstart, old(V()), old(logged), V(), logged)
      ensures owner == old(owner) - Held(old(owner), i, 0, NDIRECT)
      ensures |ino[i].addrs| == NDIRECT + 1 && forall s :: 0 <= s < NDIRECT ==> ino[i].addrs[s] == 0
      ensures ino[i].addrs[NDIRECT] == old(ino)[i].addrs[NDIRECT]
      ensures ino == old(ino)[i := SetAddrs(old(ino)[i], ino[i].addrs)]
    {
      hide Owned, Mapped, At, Recorded;
      ghost var v, l := V(), logged;
      RecordedRefl(bmapstart, v, l);
      var s := 0;
      while s < NDIRECT
        invariant 0 <= s <= NDIRECT && Ok() && |ino| == |v.ino| && Recorded(bmapstart, v, l, V(), logged)
        invariant owner == v.owner - Held(v.owner, i, 0, s)
        invariant |ino[i].addrs| == NDIRECT + 1
        invariant forall t :: 0 <= t <= NDIRECT ==> ino[i].addrs[t] == if t < s then 0 else v.ino[i].addrs[t]
        invariant ino == v.ino[i := SetAddrs(v.ino[i], ino[i].addrs)]
      {
        ghost var w, k := V(), logged;
        TopAt(v, meta, i, s);
        HeldSlot(v, meta, i, 0, s);
        if ino[i].addrs[s] != 0 {
          var b := ino[i].addrs[s];
          ClearTopInv(w, meta, i, s);
          var freed := Bfree(b);
          if !freed {
            return false;
          }
          ino := ino[i := SetAddr(ino[i], s, 0)];
          owner := owner - {b as nat};
          assert V() == ClearTop(w, i, s);
          RecordedBit(bmapstart, w, k, V(), b);
          RecordedTrans(bmapstart, v, l, w, k, V(), logged);
        }
        s := s + 1;
      }
      ok := true;
    }

    /** The indirect half of itrunc. */
    method TruncIndirect(i: nat) returns (ok: bool)
      requires Ok() && i < |ino|
      modifies this`bitmap, this`ino, this`owner, this`logged
      ensures ok && Ok() && Recorded(bmapstart, old(V()), old(logged), V(), logged)
      ensures owner == old(owner) - Held(old(owner), i, NDIRECT, SLOTS)
      ensures ino == old(ino)[i := SetAddr(old(ino)[i], NDIRECT, 0)]
    {
      hide Owned, Mapped, At, Recorded;
      ghost var v, l := V(), logged;
      RecordedRefl(bmapstart, v, l);
      var a := ino[i].addrs[NDIRECT];
      ghost var w := DropIndirect(v, i);
      DropIndirectInv(v, meta, i);
      NoIndirectNothing(v, meta, i);
      DropsHeld(v, meta, i);
      assert a == 0 ==> owner == owner - Held(owner, i, NDIRECT, SLOTS);
      if a != 0 {
        IndirectOwner(v, meta, i);
        var j := 0;
        HeldNone(owner, i, NDIRECT + 1);
        assert w.owner == owner - Held(owner, i, NDIRECT + 1, NDIRECT + 1 + 0);
        assert w.orphans == Held(owner, i, NDIRECT, SLOTS) - Held(owner, i, NDIRECT + 1, NDIRECT + 1 + 0);
        while j < NINDIRECT
          invariant 0 <= j <= NINDIRECT
          invariant ino == v.ino && |bitmap| == |v.bitmap| && Recorded(bmapstart, v, l, V(), logged)
          invariant Inv(w, meta) && w == Vol(bitmap, ino[i := SetAddr(ino[i], NDIRECT, 0)], data, owner, w.orphans)
          invariant owner == v.owner - Held(v.owner, i, NDIRECT + 1, NDIRECT + 1 + j)
          invariant w.orphans == Held(v.owner, i, NDIRECT, SLOTS) - Held(v.owner, i, NDIRECT + 1, NDIRECT + 1 + j)
        {
          var b := Word(data[a], j);
          EntryAt(v, meta, i, j);
          HeldSlot(v, meta, i, NDIRECT + 1, NDIRECT + 1 + j);
          if b != 0 {
            ghost var before, k := V(), logged;
            EntryOrphan(v, meta, i, j);
            FreeOrphanInv(w, meta, b);
            var freed := Bfree(b);
            if !freed {
              return false;
            }
            owner := owner - {b as nat};
            w := FreeOrphan(w, b);
            RecordedBit(bmapstart, before, k, V(), b);
            RecordedTrans(bmapstart, v, l, before, k, V(), logged);
          }
          j := j + 1;
        }
        ghost var before, k := V(), logged;
        HeldIndirect(v, meta, i);
        FreeOrphanInv(w, meta, a);
        var freed := Bfree(a);
        if !freed {
          return false;
        }
        ino := ino[i := SetAddr(ino[i], NDIRECT, 0)];
        owner := owner - {a as nat};
        w := FreeOrphan(w, a);
        assert w.orphans == {} && V() == w;
        RecordedBit(bmapstart, before, k, V(), a);
        RecordedTrans(bmapstart, v, l, before, k, V(), logged);
        assert owner == v.owner - Held(v.owner, i, NDIRECT, SLOTS);
      }
      ok := true;
    }

    /**
    itrunc: exactly the blocks of this inode go back to the bitmap, the file is empty, and disk and
    memory agree on it.  The panic in bfree is never reached.
    */
    method Itrunc(i: nat) returns (ok: bool)
      requires Ok() && i < |ino|
      modifies this`bitmap, this`ino, this`dinode, this`owner, this`logged
      ensures ok && Ok() && |ino| == |old(ino)| && OthersKept(old(V()), V(), meta, i)
      ensures Recorded(bmapstart, old(V()), old(logged), V(), logged) && InodeBlock(i) in logged
      ensures owner == old(owner) - Held(old(owner), i, 0, SLOTS)
      ensures forall b :: b in owner ==> owner[b].inum != i
      ensures forall b :: 0 <= b < |bitmap| ==> (bitmap[b] <==> old(bitmap)[b] && b !in Held(old(owner), i, 0, SLOTS))
      ensures ino[i] == SetAddrs(SetSize(old(ino)[i], 0), ino[i].addrs)
      ensures forall s :: 0 <= s <= NDIRECT ==> ino[i].addrs[s] == 0
      ensures dinode[i] == ino[i] && HoleFree(V(), meta, i, 0) && MappedSlots(V(), meta, i) == {}
      ensures |FreeBlocks(bitmap)| == |FreeBlocks(old(bitmap))| + |MappedSlots(old(V()), meta, i)|
      ensures forall j :: 0 <= j < |ino| && j != i ==> ino[j] == old(ino)[j] && dinode[j] == old(dinode)[j]
    {
      hide Owned, Mapped, At, HoleFree, OthersKept, Recorded, FreeBlocks, MappedSlots;
      ghost var v, l := V(), logged;
      ok := TruncDirect(i);
      if !ok { return; }
      ghost var u, j := V(), logged;
      ok := TruncIndirect(i);
      if !ok { return; }
      ghost var w, k := V(), logged;
      RecordedTrans(bmapstart, v, l, u, j, w, k);
      ino := ino[i := SetSize(ino[i], 0)];
      SameAddrsInv(w, V(), meta);
      EmptyHoleFree(V(), meta, i);
      NothingHeld(V(), meta, i);
      MappedBits(old(V()), V(), meta, i);
      Refunded(v, V(), meta, i);
      NothingMapped(V(), meta, i);
      SameInodeOthers(old(V()), V(), meta, i);
      Iupdate(i);
      RecordedMore(bmapstart, v, l, w, k, V(), logged);
    }
  
    ghost function Now(): (s: Volume)
      reads this
    {
      Volume(V(), dinode)
    }

    /** One transaction of filewrite. */
    method WriteChunk(i: nat, src: seq<byte>, off: nat) returns (r: Outcome<nat>, ghost t: Txn)
      requires Ok() && i < |ino| && ino[i].typ != T_DEV && off < 0x1_0000_0000 && 0 < |src| <= 1536
      modifies this`bitmap, this`ino, this`dinode, this`data, this`owner, this`logged
      ensures r.Refused? <==> off > old(ino)[i].size || off + |src| > MAXFILE * BSIZE
      ensures r.Refused? ==> Now() == old(Now())
      ensures r.Panicked? <==> !r.Refused? && |FreeBlocks(old(bitmap))| < Needed(old(V()), meta, i, off, |src|)
      ensures r.Done? ==> r.value == |src| && Ok() && |ino| == |old(ino)|
      ensures r.Done? ==> ino[i].typ == old(ino)[i].typ && ino[i].size == Max(old(ino)[i].size, off + |src|)
      ensures r.Done? ==>
                t == Txn(old(Now()), Now(), logged) && Transaction(t, bmapstart, inodestart, meta, i, off, src)
      ensures r.Done? ==> Wrote(old(V()), V(), meta, i, off, src) && Charged(old(V()), V(), meta, i, off, |src|)
      ensures r.Done? && old(HoleFree(V(), meta, i, ino[i].size)) ==>
                && HoleFree(V(), meta, i, ino[i].size) && |t.logged| <= Reservation.MAXOPBLOCKS
                && (old(dinode[i] == ino[i]) ==> dinode[i] == ino[i])
    {
      hide Inv, Transaction, Wrote, HoleFree, TopsFilled, OthersKept, FreeBlocks, Charged, Needed, Recorded;
      ghost var v := Now();
      t := Txn(v, v, {});
      logged := {};
      r := Writei(i, src, off);
      if r.Done? {
        assert logged - {} == logged;
        t := Txn(v, Now(), logged);
        OneTransaction(t, bmapstart, inodestart, meta, i, off, src);
      }
    }

    /**
    filewrite on an inode: chunks of at most 1536 bytes, each in a transaction of its own.  `txns`
    lists the transactions: they lead from the volume as it was to the volume as it is, each
    changes only blocks that it logged, and on a file without holes none logs more than
    MAXOPBLOCKS.
    */
    method Filewrite(i: nat, src: seq<byte>, off: nat) returns (r: Outcome<nat>, newOff: nat, ghost txns: seq<Txn>)
      requires Ok() && i < |ino| && ino[i].typ != T_DEV && off < 0x1_0000_0000 && |src| < 0x8000_0000
      modifies this`bitmap, this`ino, this`dinode, this`data, this`owner, this`logged
      ensures r.Done? ==> r.value == |src|
      ensures r.Panicked? <==>
                |FreeBlocks(old(bitmap))| < Needed(old(V()), meta, i, off, Accepted(old(ino)[i].size, off, |src|))
      ensures r.Done? || r.Refused? ==>
                var k := Accepted(old(ino)[i].size, off, |src|);
                && (r.Done? <==> k == |src|) && newOff == off + k
                && Ok() && Wrote(old(V()), V(), meta, i, off, src[..k]) && Charged(old(V()), V(), meta, i, off, k)
                && |ino| == |old(ino)|
                && ino[i].size == (if k == 0 then old(ino)[i].size else Max(old(ino)[i].size, off + k))
                && Txns(txns, old(Now()), Now(), bmapstart, inodestart, meta, i, off, src[..k])
                && (old(HoleFree(V(), meta, i, ino[i].size)) ==> HoleFree(V(), meta, i, ino[i].size) && Small(txns))
                && (old(HoleFree(V(), meta, i, ino[i].size) && dinode[i] == ino[i]) ==> dinode[i] == ino[i])
    {
      hide Inv, Chunked, Txns, Transaction, Wrote, HoleFree, FreeBlocks, Charged, Needed, Accepted, Small;
      var max := ((Reservation.MAXOPBLOCKS - 1 - 1 - 2) / 2) * BSIZE;
      ghost var v, a, synced := V(), Now(), dinode[i] == ino[i];
      txns := [];
      InvShape(v, meta);
      ChunkedNone(v, dinode[i], meta, i, off);
      TxnsNone(a, bmapstart, inodestart, meta, i, off);
      assert src[..0] == [];
      var k, n := 0, |src|;
      newOff := off;
      while k < n
        invariant 0 <= k <= n && newOff == off + k && (k == n || k == |txns| * 1536)
        invariant k == 0 || (off <= v.ino[i].size && newOff <= MAXFILE * BSIZE)
        invariant Ok() && |ino| == |v.ino| && ino[i].typ == v.ino[i].typ
        invariant ino[i].size == if k == 0 then v.ino[i].size else Max(v.ino[i].size, newOff)
        invariant Chunked(v, synced, V(), dinode[i], meta, i, off, src[..k], txns)
        invariant Txns(txns, a, Now(), bmapstart, inodestart, meta, i, off, src[..k])
      {
        var n1 := if n - k > max then max else n - k;
        ghost var w, t := Now(), src[k..k + n1];
        var x, txn := WriteChunk(i, src[k..k + n1], newOff);
        if x.Refused? {
          Refusal(v.ino[i].size, off, n, |txns|, n1);
          ChunkedMeans(v, synced, w.vol, w.dinode[i], meta, i, off, src[..k], txns);
          return Refused, newOff, txns;
        }
        if x.Panicked? {
          ChunkedMeans(v, synced, w.vol, w.dinode[i], meta, i, off, src[..k], txns);
          AcceptedMore(v.ino[i].size, off, n, |txns|, n1);
          CannotPay(v, w.vol, meta, i, off, k, n1, Accepted(v.ino[i].size, off, n));
          return Panicked, newOff, txns;
        }
        assert src[..k + n1] == src[..k] + t;
        ChunkedNext(v, synced, w.dinode[i], dinode[i], meta, i, off, src[..k], t, txns, txn);
        TxnsNext(txns, txn, a, bmapstart, inodestart, meta, i, off, src[..k], t);
        txns := txns + [txn];
        newOff, k := newOff + x.value, k + x.value;
      }
      assert src[..n] == src;
      AllAccepted(v.ino[i].size, off, n);
      ChunkedMeans(v, synced, V(), dinode[i], meta, i, off, src, txns);
      return Done(n), newOff, txns;
    }
  }

  /* ---- the transactions of filewrite ---- */

  /** The volume with its inodes in memory and on disk. */
  datatype Volume = Volume(vol: Vol, dinode: seq<Dinode>)

  /** What one transaction found, what it left and which blocks it logged. */
  datatype Txn = Txn(before: Volume, after: Volume, logged: set<nat>)

  /** The transaction wrote src at off; whatever it changed is in blocks that it logged. */
  ghost predicate Transaction(t: Txn, bms: nat, inodestart: nat, meta: nat, i: nat, off: nat, src: seq<byte>) {
    && Wrote(t.before.vol, t.after.vol, meta, i, off, src)
    && Recorded(bms, t.before.vol, {}, t.after.vol, t.logged)
    && |t.after.dinode| == |t.before.dinode|
    && forall j :: 0 <= j < |t.after.dinode| && t.after.dinode[j] != t.before.dinode[j] ==>
         j / IPB + inodestart in t.logged
  }

  ghost predicate Small(ts: seq<Txn>) {
    forall c :: 0 <= c < |ts| ==> |ts[c].logged| <= Reservation.MAXOPBLOCKS
  }

  /** Each transaction begins where the one before it ended. */
  ghost predicate Chained(a: Volume, ts: seq<Txn>, b: Volume) {
    && (if ts == [] then a == b else ts[0].before == a && ts[|ts| - 1].after == b)
    && forall c :: 0 < c < |ts| ==> ts[c].before == ts[c - 1].after
  }

  /** The c-th chunk. */
  function Piece(src: seq<byte>, c: nat): (r: seq<byte>) {
    if c * 1536 <= |src| then src[c * 1536..Min(c * 1536 + 1536, |src|)] else []
  }

  /** One transaction for each chunk of src, in order. */
  ghost predicate Txns(ts: seq<Txn>, a: Volume, b: Volume, bms: nat, inodestart: nat, meta: nat, i: nat, off: nat,
                       src: seq<byte>) {
    && |ts| == (|src| + 1535) / 1536 && Chained(a, ts, b)
    && forall c: nat :: c < |ts| ==> Transaction(ts[c], bms, inodestart, meta, i, off + c * 1536, Piece(src, c))
  }

  lemma TxnsNone(a: Volume, bms: nat, inodestart: nat, meta: nat, i: nat, off: nat)
    ensures Txns([], a, a, bms, inodestart, meta, i, off, [])
  {
  }

  lemma OneTransaction(t: Txn, bms: nat, inodestart: nat, meta: nat, i: nat, off: nat, src: seq<byte>)
    requires Wrote(t.before.vol, t.after.vol, meta, i, off, src)
    requires Recorded(bms, t.before.vol, {}, t.after.vol, t.logged)
    requires i < |t.after.dinode| == |t.before.dinode|
    requires forall j :: 0 <= j < |t.after.dinode| && j != i ==> t.after.dinode[j] == t.before.dinode[j]
    requires t.after.dinode[i] != t.before.dinode[i] ==> i / IPB + inodestart in t.logged
    ensures Transaction(t, bms, inodestart, meta, i, off, src)
  {
    hide Wrote, Recorded;
  }

  lemma PieceKept(s: seq<byte>, t: seq<byte>, c: nat)
    requires c * 1536 + 1536 <= |s|
    ensures Piece(s + t, c) == Piece(s, c)
  {
  }

  lemma PieceLast(s: seq<byte>, t: seq<byte>, c: nat)
    requires c * 1536 == |s| && |t| <= 1536
    ensures Piece(s + t, c) == t
  {
  }

  lemma TxnsNext(ts: seq<Txn>, t: Txn, a: Volume, bms: nat, inodestart: nat, meta: nat, i: nat, off: nat, s: seq<byte>,
                 src: seq<byte>)
    requires Txns(ts, a, t.before, bms, inodestart, meta, i, off, s) && |s| == |ts| * 1536 && 0 < |src| <= 1536
    requires Transaction(t, bms, inodestart, meta, i, off + |s|, src)
    ensures Txns(ts + [t], a, t.after, bms, inodestart, meta, i, off, s + src)
  {
    hide Transaction, Piece;
    PieceLast(s, src, |ts|);
    forall c: nat | c < |ts|
      ensures Piece(s + src, c) == Piece(s, c)
    {
      PieceKept(s, src, c);
    }
  }

  /** The chunks so far have written src.  `d` is the inode on disk. */
  ghost predicate Chunked(v: Vol, synced: bool, r: Vol, d: Dinode, meta: nat, i: nat, off: nat, src: seq<byte>,
                          ts: seq<Txn>) {
    && Inv(v, meta) && Inv(r, meta) && i < |v.ino| == |r.ino| && Wrote(v, r, meta, i, off, src)
    && Charged(v, r, meta, i, off, |src|)
    && (HoleFree(v, meta, i, v.ino[i].size) ==>
          HoleFree(r, meta, i, r.ino[i].size) && Small(ts) && (synced ==> d == r.ino[i]))
  }

  lemma ChunkedNone(v: Vol, d: Dinode, meta: nat, i: nat, off: nat)
    requires Inv(v, meta) && i < |v.ino|
    ensures Chunked(v, d == v.ino[i], v, d, meta, i, off, [], [])
  {
    hide Owned, Mapped, Wrote, HoleFree, Charged;
    WroteNothing(v, meta, i, off);
    ChargedNothing(v, meta, i, off);
  }

  lemma ChunkedMeans(v: Vol, synced: bool, r: Vol, d: Dinode, meta: nat, i: nat, off: nat, src: seq<byte>, ts: seq<Txn>)
    requires Chunked(v, synced, r, d, meta, i, off, src, ts)
    ensures Shape(v, meta) && Shape(r, meta) && i < |v.ino| && i < |r.ino| && Wrote(v, r, meta, i, off, src)
    ensures Charged(v, r, meta, i, off, |src|) && |FreeBlocks(v.bitmap)| >= Needed(v, meta, i, off, |src|)
    ensures HoleFree(v, meta, i, v.ino[i].size) ==>
              HoleFree(r, meta, i, r.ino[i].size) && Small(ts) && (synced ==> d == r.ino[i])
  {
    hide Owned, Mapped, Wrote, HoleFree, Charged, Needed, FreeBlocks, Small;
    EnoughFree(v, r, meta, i, off, |src|);
  }

  lemma ChunkedNext(v: Vol, synced: bool, d: Dinode, e: Dinode, meta: nat, i: nat, off: nat, s: seq<byte>,
                    src: seq<byte>, ts: seq<Txn>, t: Txn)
    requires Chunked(v, synced, t.before.vol, d, meta, i, off, s, ts)
    requires Inv(t.after.vol, meta) && |t.after.vol.ino| == |t.before.vol.ino|
    requires Wrote(t.before.vol, t.after.vol, meta, i, off + |s|, src)
    requires Charged(t.before.vol, t.after.vol, meta, i, off + |s|, |src|)
    requires HoleFree(t.before.vol, meta, i, t.before.vol.ino[i].size) ==>
               && HoleFree(t.after.vol, meta, i, t.after.vol.ino[i].size) && |t.logged| <= Reservation.MAXOPBLOCKS
               && (d == t.before.vol.ino[i] ==> e == t.after.vol.ino[i])
    ensures Chunked(v, synced, t.after.vol, e, meta, i, off, s + src, ts + [t])
  {
    hide Owned, Mapped, Wrote, HoleFree, Charged;
    WroteTrans(v, t.before.vol, t.after.vol, meta, i, off, s, src);
    ChargedTrans(v, t.before.vol, t.after.vol, meta, i, off, |s|, |src|);
  }

  /** How many of n bytes filewrite gets into a file of the given size before writei refuses. */
  function Accepted(size: nat, off: nat, n: nat): (k: nat)
    ensures k <= n
  {
    if n == 0 || (off <= size && off + n <= MAXFILE * BSIZE) then n
    else if off > size || off > MAXFILE * BSIZE then 0
    else (MAXFILE * BSIZE - off) / 1536 * 1536
  }

  lemma AllAccepted(size: nat, off: nat, n: nat)
    requires n == 0 || (off <= size && off + n <= MAXFILE * BSIZE)
    ensures Accepted(size, off, n) == n
  {
  }

  /** The first chunk that writei refuses shows how many bytes got in. */
  lemma Refusal(size: nat, off: nat, n: nat, c: nat, n1: nat)
    requires c * 1536 < n && n1 == (if n - c * 1536 > 1536 then 1536 else n - c * 1536)
    requires c == 0 || (off <= size && off + c * 1536 <= MAXFILE * BSIZE)
    requires || off + c * 1536 > (if c == 0 then size else Max(size, off + c * 1536))
             || off + c * 1536 + n1 > MAXFILE * BSIZE
    requires size <= MAXFILE * BSIZE
    ensures Accepted(size, off, n) == c * 1536
  {
  }

  lemma MissingNone(v: Vol, meta: nat, i: nat, bn: nat)
    requires Shape(v, meta) && i < |v.ino| && bn < MAXFILE
    ensures Missing(v, meta, i, bn) == 0 ==> At(v, meta, i, FileSlot(bn)) != 0
  {
  }

  lemma GrownBlock(v: Vol, r: Vol, meta: nat, i: nat, bn: nat)
    requires Grown(v, r, meta, i, bn) && bn < MAXFILE && i < |r.ino|
    ensures At(r, meta, i, FileSlot(bn)) < |r.data|
  {
    hide At;
    assert Valid(r, i, FileSlot(bn));
  }

  /** Only in a file with a hole is a block missing. */
  lemma ReadShort(open: bool, v: Vol, meta: nat, i: nat, off: nat, n: nat)
    requires Shape(v, meta) && i < |v.ino| && off + n <= v.ino[i].size
    requires !Payable(open, |FreeBlocks(v.bitmap)|, Needed(v, meta, i, off, n))
    ensures !HoleFree(v, meta, i, v.ino[i].size)
  {
    if HoleFree(v, meta, i, v.ino[i].size) {
      HoleFreeNeeds(v, meta, i, off, n);
    }
  }

  /** A chunk that writei takes is among the accepted bytes. */
  lemma AcceptedMore(size: nat, off: nat, n: nat, c: nat, n1: nat)
    requires c * 1536 < n && n1 == (if n - c * 1536 > 1536 then 1536 else n - c * 1536)
    requires off <= size && off + c * 1536 + n1 <= MAXFILE * BSIZE
    ensures c * 1536 + n1 <= Accepted(size, off, n)
  {
  }

  /** A new indirect block lists nothing. */
  lemma StillEmpty(v: Vol, m: Vol, meta: nat, i: nat, bn: nat, c: nat)
    requires Shape(v, meta) && Shape(m, meta) && Given(v, m, meta, i, NDIRECT, c) && NDIRECT <= bn < MAXFILE
    requires i < |m.ino|
    ensures At(v, meta, i, FileSlot(bn)) == 0
    ensures (m.ino[i].addrs[NDIRECT] != 0 ==> Word(m.data[m.ino[i].addrs[NDIRECT]], bn - NDIRECT) == 0)
  {
    assert Valid(v, i, FileSlot(bn)) && Valid(v, i, NDIRECT);
    assert At(m, meta, i, FileSlot(bn)) == At(v, meta, i, FileSlot(bn));
  }

  lemma TopAt(v: Vol, meta: nat, i: nat, s: nat)
    requires Shape(v, meta) && i < |v.ino| && s <= NDIRECT
    ensures Valid(v, i, s) && At(v, meta, i, s) == v.ino[i].addrs[s]
  {
  }

  lemma EntryAt(v: Vol, meta: nat, i: nat, k: nat)
    requires Shape(v, meta) && i < |v.ino| && k < NINDIRECT && v.ino[i].addrs[NDIRECT] != 0
    ensures Valid(v, i, NDIRECT + 1 + k) && At(v, meta, i, NDIRECT + 1 + k) == Word(v.data[v.ino[i].addrs[NDIRECT]], k)
  {
  }

  lemma HeldNone(owner: map<nat, Slot>, i: nat, lo: nat)
    ensures Held(owner, i, lo, lo) == {}
  {
  }

  lemma EntryOrphan(v: Vol, meta: nat, i: nat, k: nat)
    requires Inv(v, meta) && v.orphans == {} && i < |v.ino| && k < NINDIRECT && v.ino[i].addrs[NDIRECT] != 0
    ensures var b := Word(v.data[v.ino[i].addrs[NDIRECT]], k);
            b != 0 ==> b in Held(v.owner, i, NDIRECT, SLOTS) && b !in Held(v.owner, i, NDIRECT + 1, NDIRECT + 1 + k)
  {
    EntryAt(v, meta, i, k);
    hide At;
  }

  /** Beside the entries, the indirect half of the slots holds the indirect block itself. */
  lemma HeldIndirect(v: Vol, meta: nat, i: nat)
    requires Inv(v, meta) && v.orphans == {} && i < |v.ino| && v.ino[i].addrs[NDIRECT] != 0
    ensures Held(v.owner, i, NDIRECT, SLOTS) ==
            Held(v.owner, i, NDIRECT + 1, NDIRECT + 1 + NINDIRECT) + {v.ino[i].addrs[NDIRECT] as nat}
    ensures v.ino[i].addrs[NDIRECT] as nat !in Held(v.owner, i, NDIRECT + 1, NDIRECT + 1 + NINDIRECT)
  {
    TopAt(v, meta, i, NDIRECT);
    hide At;
  }

  lemma DropsHeld(v: Vol, meta: nat, i: nat)
    requires Inv(v, meta) && v.orphans == {} && i < |v.ino|
    ensures DropIndirect(v, i).orphans == Held(v.owner, i, NDIRECT, SLOTS)
  {
    hide At;
  }

  lemma NoIndirectNothing(v: Vol, meta: nat, i: nat)
    requires Inv(v, meta) && v.orphans == {} && i < |v.ino|
    ensures v.ino[i].addrs[NDIRECT] == 0 ==> Held(v.owner, i, NDIRECT, SLOTS) == {}
    ensures v.ino[i].addrs[NDIRECT] == 0 ==> v.ino[i := SetAddr(v.ino[i], NDIRECT, 0)] == v.ino
  {
    if v.ino[i].addrs[NDIRECT] == 0 {
      forall b | b in v.owner
        ensures b !in Held(v.owner, i, NDIRECT, SLOTS)
      {
        assert At(v, meta, v.owner[b].inum, v.owner[b].index) == b;
      }
      assert SetAddr(v.ino[i], NDIRECT, 0) == v.ino[i];
    }
  }

  lemma EmptyHoleFree(v: Vol, meta: nat, i: nat)
    requires Shape(v, meta) && i < |v.ino| && forall s :: 0 <= s <= NDIRECT ==> v.ino[i].addrs[s] == 0
    ensures HoleFree(v, meta, i, 0)
  {
  }

  /** What the bitmap shows after the slots of inode i have gone. */
  lemma MappedBits(v: Vol, r: Vol, meta: nat, i: nat)
    requires Inv(v, meta) && Inv(r, meta) && |r.bitmap| == |v.bitmap| && r.owner == v.owner - Held(v.owner, i, 0, SLOTS)
    ensures forall b :: 0 <= b < |r.bitmap| ==> (r.bitmap[b] <==> v.bitmap[b] && b !in Held(v.owner, i, 0, SLOTS))
  {
    hide At;
  }
}
