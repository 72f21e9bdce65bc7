/**
The ring buffer of a pipe.  The two counters are 32 bits wide and wrap around; since 512 divides
2^32 they still point to the right place.  `written` and `taken` are the history: all bytes ever
stored and the number of bytes ever taken out.
*/
module Ring {
  import opened Blocks

  const PIPESIZE := 512
  const WRAP := 0x1_0000_0000

  datatype Ring = Ring(data: seq<byte>, nread: nat, nwrite: nat, written: seq<byte>, taken: nat)

  ghost predicate Ok(r: Ring) {
    && |r.data| == PIPESIZE
    && r.nread == r.taken % WRAP && r.nwrite == |r.written| % WRAP
    && r.taken <= |r.written| <= r.taken + PIPESIZE
    && forall k :: r.taken <= k < |r.written| ==> Stored(r, k)
  }

  ghost predicate Stored(r: Ring, k: nat)
    requires |r.data| == PIPESIZE && k < |r.written|
  {
    r.data[k % PIPESIZE] == r.written[k]
  }

  predicate Full(r: Ring) {
    r.nwrite == (r.nread + PIPESIZE) % WRAP
  }

  predicate Empty(r: Ring) {
    r.nread == r.nwrite
  }

  function Store(r: Ring, b: byte): (t: Ring)
    requires |r.data| == PIPESIZE
  {
    Ring(r.data[r.nwrite % PIPESIZE := b], r.nread, (r.nwrite + 1) % WRAP, r.written + [b], r.taken)
  }

  function Front(r: Ring): (b: byte)
    requires |r.data| == PIPESIZE
  {
    r.data[r.nread % PIPESIZE]
  }

  function Take(r: Ring): (t: Ring) {
    Ring(r.data, (r.nread + 1) % WRAP, r.nwrite, r.written, r.taken + 1)
  }

  /** The tests on the wrapped counters mean what they are meant to. */
  lemma Occupancy(r: Ring)
    requires Ok(r)
    ensures Full(r) <==> |r.written| == r.taken + PIPESIZE
    ensures Empty(r) <==> |r.written| == r.taken
  {
    var d := |r.written| - r.taken;
    assert |r.written| == r.taken + d && 0 <= d <= PIPESIZE;
    WrapSum(r.taken, d);
    WrapSum(r.taken, PIPESIZE);
  }

  lemma WrapSum(a: nat, d: nat)
    requires d <= PIPESIZE
    ensures (a + d) % WRAP == (a % WRAP + d) % WRAP
    ensures (a + d) % WRAP == if a % WRAP + d < WRAP then a % WRAP + d else a % WRAP + d - WRAP
  {
    var q := a / WRAP;
    assert a == q * WRAP + a % WRAP;
    if a % WRAP + d < WRAP {
      ModUnique(a + d, q, a % WRAP + d);
    } else {
      ModUnique(a + d, q + 1, a % WRAP + d - WRAP);
    }
  }

  lemma ModUnique(x: nat, q: nat, r: nat)
    requires x == q * WRAP + r && r < WRAP
    ensures x % WRAP == r
  {
  }

  /** The place in the ring is the same for the wrapped counter. */
  lemma WrapPlace(a: nat)
    ensures a % WRAP % PIPESIZE == a % PIPESIZE
  {
    var q := a / WRAP;
    assert a == (q * 0x80_0000) * PIPESIZE + a % WRAP;
    PlaceUnique(a, q * 0x80_0000, a % WRAP);
  }

  lemma PlaceUnique(x: nat, m: nat, y: nat)
    requires x == m * PIPESIZE + y
    ensures x % PIPESIZE == y % PIPESIZE
  {
  }

  /** Positions less than a ring apart have different places. */
  lemma DistinctPlaces(j: nat, k: nat)
    requires j < k < j + PIPESIZE
    ensures j % PIPESIZE != k % PIPESIZE
  {
  }

  lemma StoreOk(r: Ring, b: byte)
    requires Ok(r) && !Full(r)
    ensures Ok(Store(r, b))
  {
    Occupancy(r);
    WrapPlace(|r.written|);
    WrapSum(|r.written|, 1);
    var t := Store(r, b);
    forall k: nat | t.taken <= k < |t.written|
      ensures Stored(t, k)
    {
      if k < |r.written| {
        assert Stored(r, k);
        DistinctPlaces(k, |r.written|);
      }
    }
  }

  lemma TakeOk(r: Ring)
    requires Ok(r) && !Empty(r)
    ensures Ok(Take(r)) && r.taken < |r.written| && Front(r) == r.written[r.taken]
  {
    Occupancy(r);
    WrapPlace(r.taken);
    WrapSum(r.taken, 1);
    assert Stored(r, r.taken);
    var t := Take(r);
    forall k: nat | t.taken <= k < |t.written|
      ensures Stored(t, k)
    {
      assert Stored(r, k);
    }
  }

  /* ---- the loops of pipewrite and piperead while they hold the lock ---- */

  class Pipe {
    const data: array<byte>
    var nread: nat
    var nwrite: nat
    ghost var written: seq<byte>
    ghost var taken: nat

    ghost function Value(): (r: Ring)
      reads this, data
    {
      Ring(data[..], nread, nwrite, written, taken)
    }

    constructor ()
      ensures Ok(Value()) && written == [] && taken == 0 && fresh(data)
    {
      data := new byte[PIPESIZE](i => 0);
      nread, nwrite, written, taken := 0, 0, [], 0;
    }

    /** pipewrite stores bytes from i on until all are stored or the pipe is full. */
    method Fill(addr: seq<byte>, from: nat) returns (i: nat)
      requires Ok(Value()) && from <= |addr|
      modifies this`nwrite, this`written, data
      ensures Ok(Value()) && from <= i <= |addr|
      ensures written == old(written) + addr[from..i]
      ensures i < |addr| ==> Full(Value())
    {
      hide Ok, Store;
      OkLength(Value());
      i := from;
      while i < |addr|
        invariant from <= i <= |addr| && data.Length == PIPESIZE
        invariant Ok(Value()) && written == old(written) + addr[from..i]
      {
        if nwrite == (nread + PIPESIZE) % WRAP {
          return;
        }
        StoreOk(Value(), addr[i]);
        StoreMeans(Value(), addr[i]);
        assert addr[from..i + 1] == addr[from..i] + [addr[i]];
        data[nwrite % PIPESIZE] := addr[i];
        nwrite := (nwrite + 1) % WRAP;
        written := written + [addr[i]];
        i := i + 1;
      }
    }

    /** piperead copies up to n bytes: exactly the next ones that were written. */
    method Drain(n: nat) returns (addr: seq<byte>)
      requires Ok(Value())
      modifies this`nread, this`taken
      ensures Ok(Value()) && taken == old(taken) + |addr| <= |written|
      ensures addr == written[old(taken)..taken]
      ensures |addr| == if n < |written| - old(taken) then n else |written| - old(taken)
    {
      hide Ok, Take;
      OkLength(Value());
      addr := [];
      var i := 0;
      while i < n
        invariant 0 <= i <= n && i == |addr| && data.Length == PIPESIZE
        invariant Ok(Value()) && taken == old(taken) + i <= |written|
        invariant addr == written[old(taken)..taken]
      {
        Occupancy(Value());
        if nread == nwrite {
          return;
        }
        TakeOk(Value());
        TakeMeans(Value());
        addr := addr + [data[nread % PIPESIZE]];
        nread := (nread + 1) % WRAP;
        taken := taken + 1;
        i := i + 1;
      }
    }
  }

  lemma OkLength(r: Ring)
    requires Ok(r)
    ensures |r.data| == PIPESIZE && r.taken <= |r.written|
  {
  }

  lemma StoreMeans(r: Ring, b: byte)
    requires |r.data| == PIPESIZE
    ensures Store(r, b) ==
            Ring(r.data[r.nwrite % PIPESIZE := b], r.nread, (r.nwrite + 1) % WRAP, r.written + [b], r.taken)
  {
  }

  lemma TakeMeans(r: Ring)
    ensures Take(r) == Ring(r.data, (r.nread + 1) % WRAP, r.nwrite, r.written, r.taken + 1)
  {
  }
}
