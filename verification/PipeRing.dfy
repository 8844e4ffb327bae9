// pipe.c: the ring buffer. The counters are 32-bit and wrap; PIPESIZE divides
// 2^32, so positions stay right.
module PipeRing {
  import opened Bytes

  const PIPESIZE: int := 512

  datatype Ring = Ring(data: seq<Byte>, nread: Word32, nwrite: Word32) {
    predicate Valid() { |data| == PIPESIZE }

    predicate Empty() { nread == nwrite }

    // nwrite == nread + PIPESIZE, in unsigned arithmetic
    predicate Full() { nwrite == (nread + PIPESIZE) % TWO32 }

    // data[nwrite++ % PIPESIZE] = b
    function Put(b: Byte): (r: Ring)
      requires Valid()
    {
      Ring(data[nwrite % PIPESIZE := b], nread, (nwrite + 1) % TWO32)
    }

    // the byte of data[nread++ % PIPESIZE]
    function Front(): Byte
      requires Valid()
    {
      data[nread % PIPESIZE]
    }

    function Drop(): Ring {
      Ring(data, (nread + 1) % TWO32, nwrite)
    }
  }

  // The ring holds what was written and not yet read.
  ghost predicate Carries(r: Ring, written: seq<Byte>, read: seq<Byte>) {
    && r.Valid()
    && |read| <= |written| <= |read| + PIPESIZE
    && r.nwrite == |written| % TWO32 && r.nread == |read| % TWO32
    && (forall k | |read| <= k < |written| :: r.data[k % PIPESIZE] == written[k])
    && read == written[..|read|]
  }

  lemma WrapIndex(n: nat)
    ensures n % TWO32 % PIPESIZE == n % PIPESIZE
  {
    assert n == TWO32 * (n / TWO32) + n % TWO32;
    assert n == PIPESIZE * (0x80_0000 * (n / TWO32)) + n % TWO32;
    ModShift(n % TWO32, 0x80_0000 * (n / TWO32));
  }

  lemma {:induction false} ModShift(a: nat, q: nat)
    ensures (PIPESIZE * q + a) % PIPESIZE == a % PIPESIZE
  {
    if q > 0 {
      ModShift(a, q - 1);
      assert (PIPESIZE * q + a) == (PIPESIZE * (q - 1) + a) + PIPESIZE;
    }
  }

  lemma WrapStep(n: nat)
    ensures (n % TWO32 + 1) % TWO32 == (n + 1) % TWO32
  {
  }

  // The two tests of the code are right about a ring that carries at most
  // PIPESIZE bytes, across any number of wraps of the counters.
  lemma TestsRight(r: Ring, written: seq<Byte>, read: seq<Byte>)
    requires Carries(r, written, read)
    ensures r.Empty() <==> |written| == |read|
    ensures r.Full() <==> |written| == |read| + PIPESIZE
  {
    var d := |written| - |read|;
    var q, a := |read| / TWO32, |read| % TWO32;
    assert |written| == TWO32 * q + (a + d);
    if a + d < TWO32 {
      assert |written| % TWO32 == a + d;
    } else {
      assert |written| % TWO32 == a + d - TWO32;
    }
  }

  lemma PutCarries(r: Ring, written: seq<Byte>, read: seq<Byte>, b: Byte)
    requires Carries(r, written, read) && !r.Full()
    ensures Carries(r.Put(b), written + [b], read)
  {
    TestsRight(r, written, read);
    WrapIndex(|written|);
    WrapStep(|written|);
    var w := written + [b];
    forall k | |read| <= k < |w|
      ensures r.Put(b).data[k % PIPESIZE] == w[k]
    {
      if k < |written| { Distinct(k, |written|); }
    }
  }

  lemma Distinct(j: nat, k: nat)
    requires j < k < j + PIPESIZE
    ensures j % PIPESIZE != k % PIPESIZE
  {
  }

  lemma GetCarries(r: Ring, written: seq<Byte>, read: seq<Byte>)
    requires Carries(r, written, read) && !r.Empty()
    ensures r.Front() == written[|read|]
    ensures Carries(r.Drop(), written, read + [r.Front()])
  {
    TestsRight(r, written, read);
    WrapIndex(|read|);
    WrapStep(|read|);
    assert r.Front() == written[|read|];
    assert read + [r.Front()] == written[..|read| + 1];
  }

  // struct pipe, and the two copy loops that run under its lock between sleeps.
  class Pipe {
    const data: array<Byte>
    var nread: Word32
    var nwrite: Word32
    ghost var written: seq<Byte>     // bytes accepted by all pipewrites, in order
    ghost var read: seq<Byte>        // bytes returned by all pipereads, in order

    ghost function Now(): Ring
      reads this, data
    {
      Ring(data[..], nread, nwrite)
    }

    ghost predicate Valid()
      reads this, data
    {
      Carries(Now(), written, read)
    }

    constructor ()
      ensures Valid() && written == [] && read == [] && fresh(data)
    {
      data := new Byte[PIPESIZE](_ => 0);
      nread, nwrite, written, read := 0, 0, [], [];
    }

    // pipewrite from byte i of addr until the ring is full or addr is used up.
    method CopyIn(addr: seq<Byte>, i: nat) returns (j: nat)
      requires Valid() && i <= |addr|
      modifies this, data
      ensures Valid() && i <= j <= |addr|
      ensures written == old(written) + addr[i..j] && read == old(read)
      ensures j < |addr| ==> |written| == |read| + PIPESIZE
    {
      hide Carries;
      j := i;
      CarriesLength(Now(), written, read);
      while j < |addr| && nwrite != (nread + PIPESIZE) % TWO32
        invariant Valid() && i <= j <= |addr|
        invariant written == old(written) + addr[i..j] && read == old(read)
      {
        PutCarries(Now(), written, read, addr[j]);
        ghost var r := Now().Put(addr[j]);
        CarriesLength(Now(), written, read);
        data[nwrite % PIPESIZE] := addr[j];
        nwrite := (nwrite + 1) % TWO32;
        written := written + [addr[j]];
        assert Now() == r;
        j := j + 1;
      }
      TestsRight(Now(), written, read);
    }

    // The copy loop of piperead: up to n bytes, while there are any.
    method CopyOut(n: nat) returns (addr: seq<Byte>)
      requires Valid()
      modifies this
      ensures Valid() && written == old(written) && read == old(read) + addr
      ensures |addr| == if |written| - |old(read)| < n then |written| - |old(read)| else n
      ensures addr == written[|old(read)|..|old(read)| + |addr|]
    {
      hide Carries;
      addr := [];
      CarriesLength(Now(), written, read);
      while |addr| < n && nread != nwrite
        invariant Valid() && written == old(written) && read == old(read) + addr && |addr| <= n
      {
        GetCarries(Now(), written, read);
        CarriesLength(Now(), written, read);
        addr := addr + [data[nread % PIPESIZE]];
        read := read + [data[nread % PIPESIZE]];
        nread := (nread + 1) % TWO32;
      }
      TestsRight(Now(), written, read);
      CarriesLength(Now(), written, read);
    }
  }

  lemma CarriesLength(r: Ring, written: seq<Byte>, read: seq<Byte>)
    requires Carries(r, written, read)
    ensures r.Valid() && |read| <= |written| <= |read| + PIPESIZE && read == written[..|read|]
  {
  }
}
