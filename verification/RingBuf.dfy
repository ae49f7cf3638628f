/**
 The byte ring under rb_read and rb_write: a buffer, a read and a write pointer
 that may both rest one past the end, and a fill count.
 */
module RingBuf {
  import opened Buffers

  datatype Ring = Ring(data: seq<byte>, readptr: nat, writeptr: nat, fill: nat) {

    // The write pointer is `fill` bytes ahead of the read pointer, going round.
    predicate Valid() {
      && |data| >= 2 && readptr <= |data| && writeptr <= |data| && fill <= |data|
      && var ahead := readptr + fill;
         (writeptr == ahead || writeptr == ahead - |data| || writeptr == ahead - 2 * |data|)
    }

    // The bytes waiting to be read, oldest first.
    function Contents(): (s: seq<byte>)
      requires Valid()
      ensures |s| == fill
    {
      if readptr + fill <= |data| then data[readptr..readptr + fill]
      else data[readptr..] + data[..readptr + fill - |data|]
    }
  }

  function InitRing(size: nat): (r: Ring)
    requires size >= 2
    ensures r.Valid() && r.Contents() == []
  {
    Ring(seq(size, _ => 0), 0, 0, 0)
  }

  // Moving the read pointer over n bytes; `fill` is adjusted later.
  function SkipOut(r: Ring, n: nat): (r': Ring)
    requires r.readptr <= |r.data| && n <= |r.data|
    ensures r'.(readptr := r.readptr) == r && r'.readptr <= |r.data|
  {
    if r.readptr + n > |r.data| then r.(readptr := n - (|r.data| - r.readptr))
    else r.(readptr := r.readptr + n)
  }

  // The bytes the one or two memcpy calls of rb_read pick up.
  function CopyOut(r: Ring, n: nat): (bs: seq<byte>)
    requires r.readptr <= |r.data| && n <= |r.data|
    ensures |bs| == n
  {
    if r.readptr + n > |r.data| then r.data[r.readptr..] + r.data[..n - (|r.data| - r.readptr)]
    else r.data[r.readptr..r.readptr + n]
  }

  // The one or two memcpy calls of rb_write, and the new write pointer.
  function CopyIn(r: Ring, bs: seq<byte>): (r': Ring)
    requires r.writeptr <= |r.data| && |bs| <= |r.data|
    ensures |r'.data| == |r.data| && r'.fill == r.fill && r'.readptr == r.readptr && r'.writeptr <= |r.data|
  {
    var first := |r.data| - r.writeptr;
    if r.writeptr + |bs| > |r.data| then
      Ring(bs[first..] + r.data[|bs| - first..r.writeptr] + bs[..first], r.readptr, |bs| - first, r.fill)
    else
      Ring(r.data[..r.writeptr] + bs + r.data[r.writeptr + |bs|..], r.readptr, r.writeptr + |bs|, r.fill)
  }

  // Where the i-th waiting byte is.
  function Slot(r: Ring, i: nat): (k: nat)
    requires r.readptr <= |r.data| && i < |r.data|
    ensures k < |r.data|
  {
    if r.readptr + i < |r.data| then r.readptr + i else r.readptr + i - |r.data|
  }

  lemma ContentsAt(r: Ring, i: nat)
    requires r.Valid() && i < r.fill
    ensures r.Contents()[i] == r.data[Slot(r, i)]
  {
  }

  // The copy of rb_read picks up the oldest byte first and leaves the next one at the front.
  lemma CopyOutAt(r: Ring, n: nat, i: nat)
    requires r.readptr <= |r.data| && n <= |r.data| && i < |r.data|
    ensures i < n ==> CopyOut(r, n)[i] == r.data[Slot(r, i)]
    ensures n + i < |r.data| ==> Slot(SkipOut(r, n), i) == Slot(r, n + i)
  {
  }

  // Taking n bytes out gives the oldest n and leaves the rest.
  lemma TakesOldest(r: Ring, n: nat)
    requires r.Valid() && n <= r.fill
    ensures var r' := SkipOut(r, n).(fill := r.fill - n);
            r'.Valid() && CopyOut(r, n) == r.Contents()[..n] && r'.Contents() == r.Contents()[n..]
  {
    var r' := SkipOut(r, n).(fill := r.fill - n);
    assert r'.Valid();
    hide Ring.Contents, Ring.Valid, CopyOut, SkipOut;
    forall i | 0 <= i < n
      ensures CopyOut(r, n)[i] == r.Contents()[i]
    {
      CopyOutAt(r, n, i);
      ContentsAt(r, i);
    }
    forall i | 0 <= i < r.fill - n
      ensures r'.Contents()[i] == r.Contents()[n + i]
    {
      CopyOutAt(r, n, i);
      ContentsAt(r', i);
      ContentsAt(r, n + i);
    }
  }

  // Where the copy of rb_write puts the i-th new byte, and that it touches nothing else.
  lemma CopyInAt(r: Ring, bs: seq<byte>, i: nat)
    requires r.Valid() && |bs| <= |r.data| - r.fill && i < r.fill + |bs|
    ensures CopyIn(r, bs).data[Slot(r, i)] == if i < r.fill then r.data[Slot(r, i)] else bs[i - r.fill]
  {
    hide Ring.Contents;
  }

  // Putting bytes in appends them.
  lemma PutsNewest(r: Ring, bs: seq<byte>)
    requires r.Valid() && |bs| <= |r.data| - r.fill
    ensures var r' := CopyIn(r, bs).(fill := r.fill + |bs|);
            r'.Valid() && r'.Contents() == r.Contents() + bs
  {
    var r' := CopyIn(r, bs).(fill := r.fill + |bs|);
    hide Ring.Contents;
    forall i | 0 <= i < r.fill + |bs|
      ensures r'.Contents()[i] == (r.Contents() + bs)[i]
    {
      hide CopyIn;
      ContentsAt(r', i);
      CopyInAt(r, bs, i);
      if i < r.fill {
        ContentsAt(r, i);
      }
    }
  }

  const WRITER_FINISHED := -2

  // Filling the end and then the front is the wrapped copy of rb_write.
  lemma OverwriteRound(r: Ring, bs: seq<byte>)
    requires r.writeptr <= |r.data| < r.writeptr + |bs| && |bs| <= |r.data|
    ensures var first := |r.data| - r.writeptr;
            Overwrite(Overwrite(r.data, r.writeptr, bs[..first]), 0, bs[first..]) == CopyIn(r, bs).data
  {
    var first := |r.data| - r.writeptr;
    assert Overwrite(r.data, r.writeptr, bs[..first]) == r.data[..r.writeptr] + bs[..first];
  }

  lemma OverwriteStraight(r: Ring, bs: seq<byte>)
    requires r.writeptr + |bs| <= |r.data|
    ensures Overwrite(r.data, r.writeptr, bs) == CopyIn(r, bs).data
  {
  }

  /** The structure itself, and rb_read and rb_write as they run when no other
      task interferes: waiting on a semaphore succeeds at once or times out.
      Callers' buffers are sequences. */
  class RingBuffer {
    const base: array<byte>
    var readptr: nat
    var writeptr: nat
    var fillCnt: nat
    var canRead: bool
    var canWrite: bool
    var locked: bool
    var writerFinished: bool

    ghost function View(): Ring
      reads this`readptr, this`writeptr, this`fillCnt, base
    {
      Ring(base[..], readptr, writeptr, fillCnt)
    }

    ghost predicate Valid()
      reads this, base
    {
      View().Valid() && !locked
    }

    constructor (size: nat)
      requires size >= 2
      ensures Valid() && View() == InitRing(size) && fresh(base) && !writerFinished
    {
      base := new byte[size](_ => 0);
      readptr, writeptr, fillCnt := 0, 0, 0;
      canRead, canWrite, locked, writerFinished := true, true, false, false;
    }

    // rb_init refuses sizes below 2.
    static method Init(size: nat) returns (rb: RingBuffer?)
      ensures rb == null <==> size < 2
      ensures rb != null ==> fresh(rb) && rb.Valid() && rb.View() == InitRing(size)
    {
      if size < 2 {
        return null;
      }
      rb := new RingBuffer(size);
    }

    method Filled() returns (n: nat)
      requires Valid()
      ensures n == |View().Contents()|
    {
      n := fillCnt;
    }

    method Available() returns (n: int)
      requires Valid()
      ensures n == base.Length - |View().Contents()|
    {
      n := base.Length - fillCnt;
    }

    // The copy inside rb_read and the counter update after it.
    method TakeChunk(n: nat) returns (bs: seq<byte>)
      requires View().Valid() && n <= fillCnt
      modifies this`readptr, this`fillCnt
      ensures View().Valid() && fillCnt == old(fillCnt) - n
      ensures bs == old(View().Contents())[..n] && View().Contents() == old(View().Contents())[n..]
    {
      TakesOldest(View(), n);
      if readptr + n > base.Length {
        bs := base[readptr..] + base[..n - (base.Length - readptr)];
        readptr := n - (base.Length - readptr);
      } else {
        bs := base[readptr..readptr + n];
        readptr := readptr + n;
      }
      fillCnt := fillCnt - n;
      assert View() == SkipOut(old(View()), n).(fill := fillCnt);
    }

    // The copy inside rb_write and the counter update after it.
    method PutChunk(bs: seq<byte>)
      requires View().Valid() && |bs| <= base.Length - fillCnt
      modifies this`writeptr, this`fillCnt, base
      ensures View().Valid() && fillCnt == old(fillCnt) + |bs|
      ensures View().Contents() == old(View().Contents()) + bs
    {
      hide Overwrite, Ring.Contents;
      PutsNewest(View(), bs);
      if writeptr + |bs| > base.Length {
        var first := base.Length - writeptr;
        OverwriteRound(View(), bs);
        Memcpy(base, writeptr, bs[..first]);
        Memcpy(base, 0, bs[first..]);
        writeptr := |bs| - first;
      } else {
        OverwriteStraight(View(), bs);
        Memcpy(base, writeptr, bs);
        writeptr := writeptr + |bs|;
      }
      fillCnt := fillCnt + |bs|;
      assert View() == CopyIn(old(View()), bs).(fill := fillCnt);
    }

    // One pass of rb_read's loop, up to where the lock is given back.
    method ReadPass(want: nat, ghost was: seq<byte>, got: nat) returns (chunk: seq<byte>)
      requires View().Valid() && got <= |was| && View().Contents() == was[got..]
      modifies this`readptr, this`fillCnt, this`canWrite
      ensures View().Valid() && |chunk| == Min(|was| - got, want)
      ensures was[..got] + chunk == was[..got + |chunk|] && View().Contents() == was[got + |chunk|..]
    {
      hide Ring.Contents;
      var n := if fillCnt < want then fillCnt else want;
      Split(was, got, n);
      chunk := TakeChunk(n);
      canWrite := true;
    }

    // Give the lock and wait for can_read; on success the lock is taken again.
    method WaitToRead()
      requires locked
      modifies this`locked, this`canRead
      ensures locked == (!writerFinished && old(canRead)) && (locked ==> !canRead)
    {
      locked := false;
      if !writerFinished && canRead {
        canRead := false;
        locked := true;
      }
    }

    // rb_read with nobody else running: what is there, up to len bytes.  The
    // loop is left with the lock released when the wait times out.
    method Read(len: nat) returns (bs: seq<byte>, total: int)
      requires Valid()
      modifies this
      ensures Valid() && writerFinished == old(writerFinished)
      ensures var n := Min(len, |old(View().Contents())|);
              && bs == old(View().Contents())[..n] && View().Contents() == old(View().Contents())[n..]
              && total == if n == 0 && writerFinished then -2 else n
    {
      hide Ring.Contents, Ring.Valid;
      bs := [];
      ghost var was := View().Contents();
      locked := true;
      while locked && |bs| < len
        invariant View().Valid() && writerFinished == old(writerFinished)
        invariant |bs| <= Min(len, |was|) && bs == was[..|bs|] && View().Contents() == was[|bs|..]
        invariant locked || |bs| == |was|
        decreases len - |bs|, locked, canRead
      {
        var chunk := ReadPass(len - |bs|, was, |bs|);
        bs := bs + chunk;
        if |bs| < len {
          WaitToRead();
        }
      }
      locked := false;
      total := if writerFinished && |bs| == 0 then WRITER_FINISHED else |bs|;
    }

    // One pass of rb_write's loop, up to where the lock is given back.
    method WritePass(bytes: seq<byte>, put: nat, ghost was: seq<byte>) returns (n: nat)
      requires View().Valid() && put <= |bytes| && View().Contents() == was + bytes[..put]
      modifies this`writeptr, this`fillCnt, this`canRead, base
      ensures View().Valid() && n == Min(|bytes| - put, base.Length - |was| - put)
      ensures View().Contents() == was + bytes[..put + n]
    {
      hide Ring.Contents;
      n := if base.Length - fillCnt < |bytes| - put then base.Length - fillCnt else |bytes| - put;
      Split(bytes, put, n);
      PutChunk(bytes[put..put + n]);
      canRead := true;
    }

    method WaitToWrite()
      requires locked && !writerFinished
      modifies this`locked, this`canWrite
      ensures locked == old(canWrite) && (locked ==> !canWrite)
    {
      locked := false;
      if canWrite {
        canWrite := false;
        locked := true;
      }
    }

    // rb_write with nobody else running: as much as there is room for.  On a finished
    // stream no room at all has a result of its own.
    method Write(bytes: seq<byte>) returns (total: int)
      requires Valid()
      modifies this, base
      ensures Valid() && writerFinished == old(writerFinished)
      ensures var n := Min(|bytes|, base.Length - |old(View().Contents())|);
              && View().Contents() == old(View().Contents()) + bytes[..n]
              && total == if writerFinished && n == 0 && bytes != [] then -2 else n
    {
      assert fillCnt <= base.Length;
      hide Ring.Contents, Ring.Valid;
      var put: nat := 0;
      ghost var was := View().Contents();
      locked := true;
      while locked && put < |bytes|
        invariant View().Valid() && writerFinished == old(writerFinished)
        invariant writerFinished ==> locked && (put == 0 || put == |bytes|)
        invariant put <= Min(|bytes|, base.Length - |was|) && View().Contents() == was + bytes[..put]
        invariant locked || put == base.Length - |was|
        decreases |bytes| - put, locked, canWrite
      {
        var n := WritePass(bytes, put, was);
        put := put + n;
        if put < |bytes| {
          if writerFinished {
            locked := false;
            return if n > 0 then n else WRITER_FINISHED;
          }
          WaitToWrite();
        }
      }
      locked := false;
      total := put;
    }
  }
}
