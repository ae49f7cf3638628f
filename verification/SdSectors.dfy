/**
 Reading and writing sectors of an SD memory card: directly from the caller's
 buffer, or sector by sector through a bounce buffer, on cards that are addressed by
 sector and on cards that are addressed by byte.
 */
module SdSectors {
  import opened Buffers
  import opened SdCard

  const TWO_32 := 0x1_0000_0000

  type uint32 = x: int | 0 <= x < 0x1_0000_0000

  datatype Result = Good | SizeError | CardError(code: nat)

  // How a transaction goes: done, or failed with some of its bytes transferred; and
  // whether the card says that it is ready for data.
  datatype Answer = Answer(failed: bool, code: nat, bytes: nat, ready: bool)

  // ---------- addresses ----------

  // Where sector k starts.
  function Off(k: nat, size: Sector): nat {
    k * size
  }

  lemma OffNext(k: nat, size: Sector)
    ensures Off(k + 1, size) == Off(k, size) + size
  {
  }

  lemma OffAdd(j: nat, k: nat, size: Sector)
    ensures Off(j + k, size) == Off(j, size) + Off(k, size)
  {
  }

  lemma OffGrows(j: nat, k: nat, size: Sector)
    requires j <= k
    ensures Off(j, size) <= Off(k, size)
  {
    OffAdd(j, k - j, size);
  }

  // The argument of the command, a 32-bit number.
  function Argument(sdhc: bool, size: Sector, start: uint32): uint32 {
    if sdhc then start else (start * size) % TWO_32
  }

  // The byte the card starts at.
  function Target(sdhc: bool, size: Sector, arg: uint32): nat {
    if sdhc then Off(arg, size) else arg
  }

  function NextSector(start: uint32, i: nat): (at: uint32)
    ensures start + i < TWO_32 ==> at == start + i
  {
    (start + i) % TWO_32
  }

  // The check against the capacity, with the sum wrapping around.
  predicate InCapacity(start: uint32, count: uint32, capacity: uint32) {
    (start + count) % TWO_32 <= capacity
  }

  lemma SectorsBelow(size: Sector, s: nat)
    requires s <= UINT32_MAX / size
    ensures Off(s, size) < TWO_32
  {
    assert UINT32_MAX / size * size <= UINT32_MAX;
    OffGrows(s, UINT32_MAX / size, size);
  }

  lemma SectorsAbove(size: Sector, s: nat)
    requires s > UINT32_MAX / size
    ensures Off(s, size) >= TWO_32
  {
    assert (UINT32_MAX / size + 1) * size > UINT32_MAX;
    OffGrows(UINT32_MAX / size + 1, s, size);
  }

  // The command addresses the sector meant, unless its byte address needs more than
  // 32 bits.
  lemma AddressIsExact(sdhc: bool, size: Sector, start: uint32)
    ensures Target(sdhc, size, Argument(sdhc, size, start)) == Off(start, size)
       <==> sdhc || Off(start, size) < TWO_32
  {
    if !sdhc {
      assert start * size == Off(start, size);
    }
  }

  // With the capacity limited as at the start, no sector of a byte-addressed card
  // needs more; with any more than that, one does.
  lemma LimitIsExact(size: Sector, capacity: nat)
    requires size > 1
    ensures (forall s: nat :: s < capacity ==> Off(s, size) < TWO_32) <==> capacity <= MaxSdscCapacity(size)
  {
    var most := UINT32_MAX / size;
    assert most + 1 < TWO_32 by {
      SectorsAbove(size, most + 1);
    }
    if capacity <= most + 1 {
      forall s: nat | s < capacity ensures Off(s, size) < TWO_32 {
        SectorsBelow(size, s);
      }
    } else {
      SectorsAbove(size, most + 1);
    }
  }

  // The check refuses exactly what lies beyond the capacity, unless the sum wraps
  // around and lands inside.
  lemma CheckIsExact(start: uint32, count: uint32, capacity: uint32)
    ensures (InCapacity(start, count, capacity) <==> start + count <= capacity)
       <==> start + count < TWO_32 || start + count - TWO_32 > capacity
  {
    if start + count >= TWO_32 {
      assert (start + count) % TWO_32 == start + count - TWO_32;
    }
  }

  // ---------- transfers ----------

  // Nothing differs outside bytes [from, to).
  predicate TouchesOnly(a: seq<byte>, b: seq<byte>, from: nat, to: nat) {
    |a| == |b| && forall i :: 0 <= i < |a| && !(from <= i < to) ==> a[i] == b[i]
  }

  // Sectors [start, start + count) written with src.
  ghost predicate Written(a: seq<byte>, b: seq<byte>, size: Sector, start: nat, src: seq<byte>) {
    Off(start, size) + |src| <= |a| && b == Overwrite(a, Off(start, size), src)
  }

  // The next n transactions go well.
  predicate Smooth(answers: seq<Answer>, n: nat) {
    |answers| >= n && forall i :: 0 <= i < n ==> !answers[i].failed && answers[i].ready
  }

  // Of n rounds of two transactions each, i are over.
  ghost predicate After(answers: seq<Answer>, n: nat, i: nat, left: seq<Answer>) {
    Smooth(answers, 2 * n) && i <= n && left == answers[2 * i..]
  }

  lemma NextRound(answers: seq<Answer>, n: nat, i: nat, left: seq<Answer>)
    requires After(answers, n, i, left) && i < n
    ensures Smooth(left, 2) && After(answers, n, i + 1, left[2..])
  {
    assert left[2..] == answers[2 * (i + 1)..];
  }

  lemma NoRound(answers: seq<Answer>, n: nat)
    requires Smooth(answers, 2 * n)
    ensures After(answers, n, 0, answers)
  {
  }

  function Behind(answers: seq<Answer>): seq<Answer> {
    if answers == [] then [] else answers[1..]
  }

  // The waiting loop: its result, and the answers it leaves.
  function Waited(answers: seq<Answer>): (w: (Result, seq<Answer>))
    ensures !w.0.SizeError?
  {
    if answers == [] then (CardError(0), [])
    else if answers[0].failed then (CardError(answers[0].code), answers[1..])
    else if answers[0].ready then (Good, answers[1..])
    else Waited(answers[1..])
  }

  // The first i sectors from `start` on are at the beginning of dst.
  ghost predicate ReadPart(content: seq<byte>, dst: seq<byte>, size: Sector, start: nat, i: nat) {
    && Off(start, size) + Off(i, size) <= |content| && Off(i, size) <= |dst|
    && dst[..Off(i, size)] == content[Off(start, size)..Off(start, size) + Off(i, size)]
  }

  lemma NothingTouched(a: seq<byte>, to: nat)
    ensures TouchesOnly(a, a, 0, to)
  {
  }

  lemma Copied(a: seq<byte>, b: seq<byte>, bs: seq<byte>, at: nat, to: nat)
    requires TouchesOnly(a, b, 0, to) && at + |bs| <= to <= |b|
    ensures TouchesOnly(a, Overwrite(b, at, bs), 0, to)
  {
  }

  lemma OnePart(size: Sector, i: nat, count: nat)
    requires i < count
    ensures Off(i, size) + size <= Off(count, size) && Off(1, size) == size
    ensures Off(i + 1, size) == Off(i, size) + size
  {
    OffNext(i, size);
    OffGrows(i + 1, count, size);
  }

  lemma ZeroOff(size: Sector)
    ensures Off(0, size) == 0
  {
  }

  // One more sector copied out of the bounce buffer.
  lemma PartRead(content: seq<byte>, b: seq<byte>, tmp: seq<byte>, size: Sector, start: nat, i: nat, count: nat)
    requires i < count && |tmp| == size && Off(count, size) <= |b|
    requires i > 0 ==> ReadPart(content, b, size, start, i)
    requires ReadPart(content, tmp, size, start + i, 1)
    ensures Off(i, size) + size <= |b|
    ensures ReadPart(content, Overwrite(b, Off(i, size), tmp), size, start, i + 1)
  {
    OnePart(size, i, count);
    OffAdd(start, i, size);
    ZeroOff(size);
    hide Off;
    var p, o := Off(i, size), Off(start, size);
    var c := Overwrite(b, p, tmp);
    assert c[..p + size] == b[..p] + tmp;
    assert tmp == tmp[..size] == content[o + p..o + p + size];
    if i > 0 {
      assert b[..p] == content[o..o + p];
    } else {
      assert b[..p] == [];
    }
  }

  // The first i sectors are written.
  ghost predicate WrittenPart(a: seq<byte>, b: seq<byte>, size: Sector, start: nat, src: seq<byte>, i: nat) {
    && |a| == |b| && Off(i, size) <= |src| && (i == 0 ==> a == b)
    && (i > 0 ==> Off(start, size) + Off(i, size) <= |a| && b == Overwrite(a, Off(start, size), src[..Off(i, size)]))
  }

  lemma NothingWritten(a: seq<byte>, size: Sector, start: nat, src: seq<byte>)
    ensures WrittenPart(a, a, size, start, src, 0)
  {
  }

  lemma WriteOn(a: seq<byte>, b: seq<byte>, c: seq<byte>, src: seq<byte>, o: nat, p: nat, n: nat)
    requires p + n <= |src| && o + p + n <= |a| && |b| == |a|
    requires (p == 0 && b == a) || b == Overwrite(a, o, src[..p])
    requires c == Overwrite(b, o + p, src[p..p + n])
    ensures c == Overwrite(a, o, src[..p + n])
  {
    assert src[..p] + src[p..p + n] == src[..p + n];
    assert p == 0 ==> Overwrite(a, o, src[..p]) == a;
    OverwriteOn(a, o, src[..p], src[p..p + n]);
  }

  lemma TouchedSoFar(a: seq<byte>, b: seq<byte>, size: Sector, start: nat, src: seq<byte>, i: nat)
    requires WrittenPart(a, b, size, start, src, i)
    ensures TouchesOnly(a, b, Off(start, size), Off(start, size) + Off(i, size))
  {
    hide Off;
  }

  lemma StillInside(a: seq<byte>, b: seq<byte>, c: seq<byte>, size: Sector, start: nat, src: seq<byte>,
                    i: nat, count: nat)
    requires WrittenPart(a, b, size, start, src, i) && i < count
    requires TouchesOnly(b, c, Off(start + i, size), Off(start + i + 1, size))
    ensures TouchesOnly(a, c, Off(start, size), Off(start + count, size))
  {
    OffAdd(start, i, size);
    OffGrows(start, start + i, size);
    OffGrows(start + i + 1, start + count, size);
    hide Off;
    TouchedSoFar(a, b, size, start, src, i);
  }

  // One more sector written, or part of it when that failed.
  lemma PartWritten(a: seq<byte>, b: seq<byte>, c: seq<byte>, size: Sector, start: nat, src: seq<byte>,
                    i: nat, count: nat, good: bool)
    requires WrittenPart(a, b, size, start, src, i) && i < count && |src| == Off(count, size)
    requires TouchesOnly(b, c, Off(start + i, size), Off(start + i + 1, size))
    requires Off(i, size) + size <= |src|
    requires good ==> Written(b, c, size, start + i, src[Off(i, size)..Off(i, size) + size])
    ensures TouchesOnly(a, c, Off(start, size), Off(start + count, size))
    ensures good ==> WrittenPart(a, c, size, start, src, i + 1)
  {
    hide TouchesOnly, Overwrite;
    StillInside(a, b, c, size, start, src, i, count);
    if good {
      OffAdd(start, i, size);
      OffNext(i, size);
      ZeroOff(size);
      hide Off;
      WriteOn(a, b, c, src, Off(start, size), Off(i, size), size);
    }
  }

  lemma AllWritten(a: seq<byte>, b: seq<byte>, size: Sector, start: nat, src: seq<byte>, count: nat)
    requires WrittenPart(a, b, size, start, src, count) && |src| == Off(count, size)
    ensures count > 0 ==> Written(a, b, size, start, src)
    ensures TouchesOnly(a, b, Off(start, size), Off(start + count, size))
  {
    OffAdd(start, count, size);
    assert src[..|src|] == src;
  }

  // Where an accepted transfer goes.
  lemma SectorsFit(sdhc: bool, size: Sector, start: uint32, count: uint32, capacity: uint32, len: nat)
    requires start + count <= capacity && Off(capacity, size) <= len
    requires !sdhc ==> capacity <= MaxSdscCapacity(size)
    ensures var at := Target(sdhc, size, Argument(sdhc, size, start));
            at + Off(count, size) <= len && (if count > 0 then at == Off(start, size) else Off(count, size) == 0)
    ensures Off(start + count, size) == Off(start, size) + Off(count, size) <= len
  {
    OffAdd(start, count, size);
    OffGrows(start + count, capacity, size);
    if count == 0 {
      ZeroOff(size);
      assert !sdhc ==> start * size == Off(start, size) && (start * size) % TWO_32 <= start * size;
    } else if !sdhc {
      if size > 1 {
        LimitIsExact(size, capacity);
      }
      AddressIsExact(sdhc, size, start);
    }
  }

  predicate ReadyFirst(answers: seq<Answer>, k: nat)
    requires k < |answers|
  {
    && answers[k].ready && !answers[k].failed
    && forall i :: 0 <= i < k ==> !answers[i].ready && !answers[i].failed
  }

  // Some answer says that the card is ready, and none before it does or is a failure.
  ghost predicate EndsReady(answers: seq<Answer>, left: seq<Answer>) {
    exists k :: 0 <= k < |answers| && ReadyFirst(answers, k) && left == answers[k + 1..]
  }

  lemma ReadyOn(answers: seq<Answer>, k: nat)
    requires 0 < k < |answers| && !answers[0].ready && !answers[0].failed
    ensures ReadyFirst(answers, k) <==> ReadyFirst(answers[1..], k - 1)
  {
    var rest := answers[1..];
    if ReadyFirst(rest, k - 1) {
      forall i | 0 <= i < k
        ensures !answers[i].ready && !answers[i].failed
      {
        assert i > 0 ==> answers[i] == rest[i - 1];
      }
    }
    if ReadyFirst(answers, k) {
      forall i | 0 <= i < k - 1
        ensures !rest[i].ready && !rest[i].failed
      {
        assert rest[i] == answers[i + 1];
      }
    }
  }

  // The wait succeeds exactly with such an answer; what fails it is the first failure,
  // or that nothing more comes.
  lemma {:induction false} WaitedExactly(answers: seq<Answer>)
    ensures var (r, left) := Waited(answers);
            && (r == Good ==> EndsReady(answers, left))
            && (r != Good ==> forall k :: 0 <= k < |answers| ==> !ReadyFirst(answers, k))
    decreases |answers|
  {
    if answers != [] {
      var rest := answers[1..];
      if answers[0].failed {
      } else if answers[0].ready {
        assert ReadyFirst(answers, 0);
      } else {
        WaitedExactly(rest);
        forall k | 0 < k < |answers|
          ensures ReadyFirst(answers, k) <==> ReadyFirst(rest, k - 1)
        {
          ReadyOn(answers, k);
        }
        if Waited(rest).0 == Good {
          var k :| 0 <= k < |rest| && ReadyFirst(rest, k) && Waited(rest).1 == rest[k + 1..];
          assert ReadyFirst(answers, k + 1) && rest[k + 1..] == answers[k + 2..];
        }
      }
    }
  }

  // A card whose memory is `content`, with the answers that are still to come.
  class Card {
    const sdhc: bool
    const size: Sector
    const capacity: uint32
    var content: seq<byte>
    var answers: seq<Answer>

    // The capacity is real, and limited for byte addresses.
    ghost predicate Valid()
      reads this
    {
      Off(capacity, size) <= |content| && (!sdhc ==> capacity <= MaxSdscCapacity(size))
    }

    method Next() returns (a: Answer)
      modifies `answers
      ensures answers == Behind(old(answers))
      ensures a == if old(answers) == [] then Answer(true, 0, 0, false) else old(answers)[0]
    {
      if answers == [] {
        a := Answer(true, 0, 0, false);
      } else {
        a, answers := answers[0], answers[1..];
      }
    }

    // WRITE_BLOCK: the card takes the data block by block.
    method WriteBlocks(arg: uint32, data: seq<byte>) returns (r: Result)
      modifies `answers, `content
      ensures !r.SizeError? && answers == Behind(old(answers))
      ensures r == Good <==>
                Target(sdhc, size, arg) + |data| <= |content| && old(answers) != [] && !old(answers)[0].failed
      ensures var at := Target(sdhc, size, arg);
              if at + |data| > |content| then content == old(content)
              else TouchesOnly(old(content), content, at, at + |data|)
                   && (r == Good ==> content == Overwrite(old(content), at, data))
    {
      var at := Target(sdhc, size, arg);
      var a := Next();
      if at + |data| > |content| {
        return CardError(a.code);
      }
      var n := if a.failed && a.bytes < |data| then a.bytes else |data|;
      content := Overwrite(content, at, data[..n]);
      r := if a.failed then CardError(a.code) else Good;
      assert data[..|data|] == data;
    }

    // READ_BLOCK into dst[to..].
    method ReadBlocks(arg: uint32, dst: array<byte>, to: nat, len: nat) returns (r: Result)
      requires to + len <= dst.Length
      modifies `answers, dst
      ensures !r.SizeError? && TouchesOnly(old(dst[..]), dst[..], to, to + len) && answers == Behind(old(answers))
      ensures r == Good <==> Target(sdhc, size, arg) + len <= |content| && old(answers) != [] && !old(answers)[0].failed
      ensures var at := Target(sdhc, size, arg);
              r == Good ==> at + len <= |content| && dst[..] == Overwrite(old(dst[..]), to, content[at..at + len])
    {
      var at := Target(sdhc, size, arg);
      var a := Next();
      if at + len > |content| {
        return CardError(a.code);
      }
      var n := if a.failed && a.bytes < len then a.bytes else len;
      Memcpy(dst, to, content[at..at + n]);
      r := if a.failed then CardError(a.code) else Good;
    }

    // The loop that waits for the card behind each transfer.
    method WaitReady() returns (r: Result)
      modifies `answers
      ensures (r, answers) == Waited(old(answers))
    {
      r := Good;
      var ready := false;
      while !ready
        invariant r == Good && Waited(old(answers)) == if ready then (Good, answers) else Waited(answers)
        decreases !ready, |answers|
      {
        ghost var more := answers != [];
        var a := Next();
        if a.failed {
          return CardError(a.code);
        }
        assert more;
        ready := a.ready;
      }
    }

    // sdmmc_write_sectors_dma.
    method WriteSectorsDma(src: seq<byte>, start: uint32, count: uint32) returns (r: Result)
      requires Valid() && |src| == Off(count, size)
      modifies `answers, `content
      ensures Valid() && (r.SizeError? <==> !InCapacity(start, count, capacity))
      ensures r.SizeError? ==> content == old(content)
      ensures r == Good ==> old(answers) != [] && EndsReady(old(answers)[1..], answers)
      ensures start + count < TWO_32 ==>
                && (r.SizeError? <==> start + count > capacity)
                && (Smooth(old(answers), 2) && start + count <= capacity ==> r == Good && answers == old(answers)[2..])
                && TouchesOnly(old(content), content, Off(start, size), Off(start + count, size))
                && (r == Good ==> Written(old(content), content, size, start, src))
    {
      hide Argument, Target, MaxSdscCapacity, Off, EndsReady;
      if (start + count) % TWO_32 > capacity {
        return SizeError;
      }
      if start + count < TWO_32 {
        SectorsFit(sdhc, size, start, count, capacity, |content|);
      }
      var arg := Argument(sdhc, size, start);
      r := WriteBlocks(arg, src);
      if r == Good {
        WaitedExactly(answers);
        r := WaitReady();
      }
    }

    // The path of sdmmc_write_sectors for a source the peripheral cannot read.
    method WriteOneByOne(src: seq<byte>, start: uint32, count: uint32) returns (r: Result)
      requires Valid() && |src| == Off(count, size)
      modifies `answers, `content
      ensures Valid()
      ensures start + count < TWO_32 ==>
                && (Smooth(old(answers), 2 * count) && 0 < count <= capacity - start ==> r == Good)
                && TouchesOnly(old(content), content, Off(start, size), Off(start + count, size))
                && (r == Good && count > 0 ==>
                      start + count <= capacity && Written(old(content), content, size, start, src))
    {
      hide Off, MaxSdscCapacity, WrittenPart, Written, TouchesOnly, NextSector, InCapacity, Smooth, After;
      r := Good;
      var i: nat := 0;
      ghost var was, smooth := content, Smooth(answers, 2 * count);
      NothingWritten(was, size, start, src);
      if smooth {
        NoRound(answers, count);
      }
      while i < count
        invariant i <= count && r == Good && Valid()
        invariant start + count < TWO_32 ==> WrittenPart(was, content, size, start, src, i)
        invariant start + count < TWO_32 && i > 0 ==> start + i <= capacity
        invariant smooth && start + count <= capacity ==> After(old(answers), count, i, answers)
      {
        OnePart(size, i, count);
        if smooth && start + count <= capacity {
          NextRound(old(answers), count, i, answers);
        }
        var tmp := src[Off(i, size)..Off(i, size) + size];
        ghost var before := content;
        var at := NextSector(start, i);
        r := WriteSectorsDma(tmp, at, 1);
        if start + count < TWO_32 {
          PartWritten(was, before, content, size, start, src, i, count, r == Good);
        }
        if r != Good {
          return;
        }
        i := i + 1;
      }
      if start + count < TWO_32 {
        AllWritten(was, content, size, start, src, count);
      }
    }

    // sdmmc_write_sectors: `direct` says that the peripheral can read the source.
    method WriteSectors(src: seq<byte>, start: uint32, count: uint32, direct: bool) returns (r: Result)
      requires Valid() && |src| == Off(count, size)
      modifies `answers, `content
      ensures Valid()
      ensures start + count < TWO_32 ==>
                && (Smooth(old(answers), 2 * count) && 0 < count <= capacity - start ==> r == Good)
                && TouchesOnly(old(content), content, Off(start, size), Off(start + count, size))
                && (r == Good && count > 0 ==>
                      start + count <= capacity && Written(old(content), content, size, start, src))
    {
      if direct {
        r := WriteSectorsDma(src, start, count);
      } else {
        r := WriteOneByOne(src, start, count);
      }
    }

    // sdmmc_read_sectors_dma.
    method ReadSectorsDma(dst: array<byte>, start: uint32, count: uint32) returns (r: Result)
      requires Valid() && Off(count, size) <= dst.Length
      modifies `answers, dst
      ensures r.SizeError? <==> !InCapacity(start, count, capacity)
      ensures r == Good ==> old(answers) != [] && EndsReady(old(answers)[1..], answers)
      ensures TouchesOnly(old(dst[..]), dst[..], 0, Off(count, size))
      ensures start + count < TWO_32 ==>
                && (r.SizeError? <==> start + count > capacity)
                && (Smooth(old(answers), 2) && start + count <= capacity ==> r == Good && answers == old(answers)[2..])
                && (r == Good ==> ReadPart(content, dst[..], size, start, count))
    {
      hide Argument, Target, MaxSdscCapacity, Off, EndsReady;
      if (start + count) % TWO_32 > capacity {
        return SizeError;
      }
      if start + count < TWO_32 {
        SectorsFit(sdhc, size, start, count, capacity, |content|);
      }
      var arg := Argument(sdhc, size, start);
      r := ReadBlocks(arg, dst, 0, Off(count, size));
      if r == Good {
        WaitedExactly(answers);
        r := WaitReady();
      }
    }

    // The path of sdmmc_read_sectors for a destination the peripheral cannot write.
    method ReadOneByOne(dst: array<byte>, start: uint32, count: uint32) returns (r: Result)
      requires Valid() && Off(count, size) <= dst.Length
      modifies `answers, dst
      ensures TouchesOnly(old(dst[..]), dst[..], 0, Off(count, size))
      ensures start + count < TWO_32 ==>
                && (Smooth(old(answers), 2 * count) && 0 < count <= capacity - start ==> r == Good)
                && (r == Good && count > 0 ==>
                      start + count <= capacity && ReadPart(content, dst[..], size, start, count))
    {
      hide Off, MaxSdscCapacity, ReadPart, TouchesOnly, Smooth, After, NextSector, InCapacity;
      NothingTouched(dst[..], Off(count, size));
      r := Good;
      var tmp := new byte[size];
      var i: nat := 0;
      ghost var was, smooth := dst[..], Smooth(answers, 2 * count);
      if smooth {
        NoRound(answers, count);
      }
      while i < count
        invariant i <= count && r == Good && tmp.Length == size
        invariant TouchesOnly(was, dst[..], 0, Off(count, size))
        invariant start + count < TWO_32 && i > 0 ==> start + i <= capacity
        invariant start + count < TWO_32 && i > 0 ==> ReadPart(content, dst[..], size, start, i)
        invariant smooth && start + count <= capacity ==> After(old(answers), count, i, answers)
      {
        OnePart(size, i, count);
        if smooth && start + count <= capacity {
          NextRound(old(answers), count, i, answers);
        }
        var at := NextSector(start, i);
        r := ReadSectorsDma(tmp, at, 1);
        if r != Good {
          return;
        }
        ghost var before := dst[..];
        Memcpy(dst, Off(i, size), tmp[..]);
        Copied(was, before, tmp[..], Off(i, size), Off(count, size));
        if start + count < TWO_32 {
          PartRead(content, before, tmp[..], size, start, i, count);
        }
        i := i + 1;
      }
    }

    // sdmmc_read_sectors: `direct` says that the peripheral can write the destination.
    method ReadSectors(dst: array<byte>, start: uint32, count: uint32, direct: bool) returns (r: Result)
      requires Valid() && Off(count, size) <= dst.Length
      modifies `answers, dst
      ensures TouchesOnly(old(dst[..]), dst[..], 0, Off(count, size))
      ensures start + count < TWO_32 ==>
                && (Smooth(old(answers), 2 * count) && 0 < count <= capacity - start ==> r == Good)
                && (r == Good && count > 0 ==>
                      start + count <= capacity && ReadPart(content, dst[..], size, start, count))
    {
      if direct {
        r := ReadSectorsDma(dst, start, count);
      } else {
        r := ReadOneByOne(dst, start, count);
      }
    }
  }
}
