/**
 One reader task in rb_read and one writer task in rb_write over one ring
 buffer, as a system of interleaved steps.  A mutex guards the ring; two binary
 semaphores, created available, park the tasks.  `rb_signal_writer_finished` may
 be called at any time.
 */
module RingSystem {
  import opened Prelude
  import opened Buffers
  import opened RingBuf

  datatype Owner = Free | Reader | Writer

  // Where the reader is inside rb_read.
  datatype ReadPc =
    | RIdle     // outside rb_read
    | RLocking  // at the first or a later take of the lock
    | RTop      // at the loop head, holding the lock
    | RMoved    // the bytes are copied and readptr is moved
    | RCounted  // the counters are updated, can_write not yet given
    | RRetry    // can_write given, more bytes wanted, lock still held
    | RCheck    // lock released, before the test that may skip the wait
    | RWaiting  // in the take of can_read
    | RWoken    // past the wait, before the exit tests
    | RDone     // nothing more wanted, lock still held
    | ROut      // at the label out

  datatype ReadTask = ReadTask(pc: ReadPc, want: nat, chunk: nat, got: nat, start: nat, ret: int)

  datatype WritePc =
    | WIdle | WLocking | WTop | WMoved | WCounted | WRetry | WCheck | WWaiting | WDone

  // `bytes` is the caller's whole buffer, `put` how much of it is accepted so far.
  datatype WriteTask = WriteTask(pc: WritePc, bytes: seq<byte>, chunk: nat, put: nat, start: nat, ret: int) {
    function Want(): int { |bytes| - put }
  }

  // `accepted` and `delivered` record every byte copied in and out so far.
  datatype System = System(
    ring: Ring, canRead: bool, canWrite: bool, lock: Owner, finished: bool, signalling: bool,
    r: ReadTask, w: WriteTask, accepted: seq<byte>, delivered: seq<byte>)

  datatype Action =
    | CallRead(n: nat) | ReadStep | ReadTimeout
    | CallWrite(bs: seq<byte>) | WriteStep | WriteTimeout
    | CallFinish | FinishStep

  function Start(size: nat): System
    requires size >= 2
  {
    System(InitRing(size), true, true, Free, false, false,
           ReadTask(RIdle, 0, 0, 0, 0, 0), WriteTask(WIdle, [], 0, 0, 0, 0), [], [])
  }

  predicate InBounds(s: System) {
    s.ring.readptr <= |s.ring.data| && s.ring.writeptr <= |s.ring.data|
  }

  // ---------- the reader's steps ----------

  // The copy of n bytes out of the ring, before the counters are updated.
  function TakeChunk(s: System, n: nat): System
    requires InBounds(s) && n <= |s.ring.data|
  {
    s.(ring := SkipOut(s.ring, n), delivered := s.delivered + CopyOut(s.ring, n), r := s.r.(pc := RMoved, chunk := n))
  }

  // None: the step is not enabled (the reader is outside a call, or would block).
  function DoRead(s: System): Option<System>
    requires InBounds(s)
  {
    var r := s.r;
    match r.pc
    case RIdle => None
    case RLocking => if s.lock == Free then Some(s.(lock := Reader, r := r.(pc := RTop))) else None
    case RTop =>
      if r.want == 0 then Some(s.(r := r.(pc := RDone)))
      else
        var n := Min(s.ring.fill, r.want);
        if n > |s.ring.data| then None else Some(TakeChunk(s, n))
    case RMoved =>
      if r.chunk > r.want || r.chunk > s.ring.fill then None
      else Some(s.(ring := s.ring.(fill := s.ring.fill - r.chunk),
                   r := r.(pc := RCounted, want := r.want - r.chunk, got := r.got + r.chunk)))
    case RCounted => Some(s.(canWrite := true, r := r.(pc := if r.want == 0 then RDone else RRetry)))
    case RRetry => Some(s.(lock := Free, r := r.(pc := RCheck)))
    case RCheck => Some(s.(r := r.(pc := if s.finished then RWoken else RWaiting)))
    case RWaiting => if s.canRead then Some(s.(canRead := false, r := r.(pc := RWoken))) else None
    case RWoken => Some(s.(r := r.(pc := if s.finished then ROut else RLocking)))
    case RDone => Some(s.(lock := Free, r := r.(pc := ROut)))
    case ROut =>
      Some(s.(r := r.(pc := RIdle, ret := if s.finished && r.got == 0 then WRITER_FINISHED else r.got)))
  }

  // ---------- the writer's steps ----------

  function NextBytes(w: WriteTask, n: nat): (bs: seq<byte>)
    requires w.put + n <= |w.bytes|
    ensures |bs| == n
  {
    w.bytes[w.put..w.put + n]
  }

  // The copy of the next n bytes into the ring, before the counters are updated.
  function PutChunk(s: System, n: nat): System
    requires InBounds(s) && n <= |s.ring.data| && s.w.put + n <= |s.w.bytes|
  {
    var bs := NextBytes(s.w, n);
    s.(ring := CopyIn(s.ring, bs), accepted := s.accepted + bs, w := s.w.(pc := WMoved, chunk := n))
  }

  function DoWrite(s: System): Option<System>
    requires InBounds(s)
  {
    var w := s.w;
    match w.pc
    case WIdle => None
    case WLocking => if s.lock == Free then Some(s.(lock := Writer, w := w.(pc := WTop))) else None
    case WTop =>
      if w.Want() == 0 then Some(s.(w := w.(pc := WDone)))
      else
        if s.ring.fill > |s.ring.data| || w.Want() < 0 then None
        else
          var n := Min(|s.ring.data| - s.ring.fill, w.Want());
          Some(PutChunk(s, n))
    case WMoved =>
      Some(s.(ring := s.ring.(fill := s.ring.fill + w.chunk), w := w.(pc := WCounted, put := w.put + w.chunk)))
    case WCounted => Some(s.(canRead := true, w := w.(pc := if w.Want() == 0 then WDone else WRetry)))
    case WRetry => Some(s.(lock := Free, w := w.(pc := WCheck)))
    case WCheck =>
      if s.finished then
        Some(s.(w := w.(pc := WIdle, ret := if w.chunk > 0 then w.chunk else WRITER_FINISHED)))
      else Some(s.(w := w.(pc := WWaiting)))
    case WWaiting => if s.canWrite then Some(s.(canWrite := false, w := w.(pc := WLocking))) else None
    case WDone => Some(s.(lock := Free, w := w.(pc := WIdle, ret := w.put)))
  }

  function Do(s: System, a: Action): Option<System>
    requires InBounds(s)
  {
    match a
    case CallRead(n) =>
      if s.r.pc == RIdle then Some(s.(r := ReadTask(RLocking, n, 0, 0, |s.delivered|, s.r.ret))) else None
    case ReadStep => DoRead(s)
    case ReadTimeout => if s.r.pc == RWaiting then Some(s.(r := s.r.(pc := ROut))) else None
    case CallWrite(bs) =>
      if s.w.pc == WIdle then Some(s.(w := WriteTask(WLocking, bs, 0, 0, |s.accepted|, s.w.ret))) else None
    case WriteStep => DoWrite(s)
    case WriteTimeout => if s.w.pc == WWaiting then Some(s.(w := s.w.(pc := WIdle, ret := s.w.put))) else None
    case CallFinish => if s.signalling then None else Some(s.(finished := true, signalling := true))
    case FinishStep => if s.signalling then Some(s.(canRead := true, signalling := false)) else None
  }

  // ---------- the invariant ----------

  predicate ReaderInside(pc: ReadPc) {
    pc == RTop || pc == RMoved || pc == RCounted || pc == RRetry || pc == RDone
  }

  predicate WriterInside(pc: WritePc) {
    pc == WTop || pc == WMoved || pc == WCounted || pc == WRetry || pc == WDone
  }

  // The ring once whoever is inside has finished its update.
  function Settled(s: System): Ring {
    if s.r.pc == RMoved then s.ring.(fill := if s.ring.fill >= s.r.chunk then s.ring.fill - s.r.chunk else 0)
    else if s.w.pc == WMoved then s.ring.(fill := s.ring.fill + s.w.chunk)
    else s.ring
  }

  predicate Exclusive(s: System) {
    && (s.lock == Reader <==> ReaderInside(s.r.pc))
    && (s.lock == Writer <==> WriterInside(s.w.pc))
  }

  predicate ReaderCounts(s: System) {
    && (s.r.pc == RMoved ==> s.r.want > 0 && s.r.chunk == Min(s.ring.fill, s.r.want))
    && (s.r.pc != RIdle ==> |s.delivered| == s.r.start + s.r.got + if s.r.pc == RMoved then s.r.chunk else 0)
    && (s.r.pc == RRetry || s.r.pc == RCheck || s.r.pc == RWaiting ==> s.r.want > 0)
    && (s.r.pc == RDone ==> s.r.want == 0)
  }

  predicate WriterCounts(s: System) {
    var ahead := if s.w.pc == WMoved then s.w.chunk else 0;
    && s.w.put + ahead <= |s.w.bytes|
    && (s.w.pc == WMoved ==>
          s.w.Want() > 0 && s.ring.fill <= |s.ring.data| && s.w.chunk == Min(|s.ring.data| - s.ring.fill, s.w.Want()))
    && (s.w.pc != WIdle ==> |s.accepted| == s.w.start + s.w.put + ahead
                            && s.accepted[s.w.start..] == s.w.bytes[..s.w.put + ahead])
    && (s.w.pc == WRetry || s.w.pc == WCheck || s.w.pc == WWaiting ==> s.w.Want() > 0)
    && (s.w.pc == WDone ==> s.w.Want() == 0)
  }

  // What came in is what went out followed by what is in the ring.
  predicate Balanced(r: Ring, accepted: seq<byte>, delivered: seq<byte>) {
    r.Valid() && accepted == delivered + r.Contents()
  }

  // The books balance once whoever is inside has finished its update.
  predicate Fifo(s: System) {
    s.ring.fill <= |s.ring.data| && Balanced(Settled(s), s.accepted, s.delivered)
  }

  // The reader has found the ring empty and is on its way to, or in, its wait.
  predicate ReaderDry(r: ReadTask) {
    (r.pc == RCounted && r.want > 0) || r.pc == RRetry || r.pc == RCheck || r.pc == RWaiting
  }

  predicate WriterBlocked(w: WriteTask) {
    (w.pc == WCounted && w.Want() > 0) || w.pc == WRetry || w.pc == WCheck || w.pc == WWaiting
  }

  // Whoever could wait for bytes, or room, that is there has a wakeup pending:
  // either the semaphore or a task that is just about to give it.
  predicate NoLostWakeup(s: System) {
    && (ReaderDry(s.r) && Settled(s).fill > 0 ==> s.canRead || s.w.pc == WMoved || s.w.pc == WCounted)
    && (WriterBlocked(s.w) && Settled(s).fill < |s.ring.data| ==> s.canWrite || s.r.pc == RMoved || s.r.pc == RCounted)
    && (s.r.pc == RWaiting && s.finished ==> s.canRead || s.signalling)
  }

  predicate Inv(s: System) {
    Exclusive(s) && ReaderCounts(s) && WriterCounts(s) && Fifo(s) && NoLostWakeup(s)
  }

  lemma StartInv(size: nat)
    requires size >= 2
    ensures Inv(Start(size))
  {
  }

  lemma FifoBounds(s: System)
    requires Fifo(s)
    ensures s.ring.fill <= |s.ring.data| && InBounds(s)
  {
  }

  lemma InvBounds(s: System)
    requires Inv(s)
    ensures InBounds(s)
  {
    FifoBounds(s);
  }

  lemma ReadKeepsExclusive(s: System)
    requires Inv(s) && DoRead(s).Some?
    ensures Exclusive(DoRead(s).value)
  {
    hide Fifo, NoLostWakeup, ReaderCounts, WriterCounts, CopyOut, SkipOut;
    FifoBounds(s);
  }

  lemma ReadKeepsCounts(s: System)
    requires Inv(s) && DoRead(s).Some?
    ensures ReaderCounts(DoRead(s).value)
  {
    hide Fifo, NoLostWakeup, Exclusive, WriterCounts, CopyOut, SkipOut;
    FifoBounds(s);
  }

  lemma ReadLeavesWriter(s: System)
    requires InBounds(s) && DoRead(s).Some?
    ensures var s' := DoRead(s).value;
            && s'.w == s.w && s'.accepted == s.accepted && s'.finished == s.finished
            && (s'.ring == s.ring || ReaderInside(s.r.pc))
            && s.delivered <= s'.delivered && |s'.ring.data| == |s.ring.data|
  {
    hide SkipOut, CopyOut, InBounds;
  }

  lemma BothInside(s: System)
    requires Exclusive(s)
    ensures !(ReaderInside(s.r.pc) && WriterInside(s.w.pc))
  {
  }

  lemma ReadKeepsWriter(s: System)
    requires Inv(s) && DoRead(s).Some?
    ensures WriterCounts(DoRead(s).value)
  {
    FifoBounds(s);
    BothInside(s);
    ReadLeavesWriter(s);
    hide DoRead, Fifo, NoLostWakeup, ReaderCounts, Exclusive;
  }

  lemma TakeBalances(r: Ring, n: nat, accepted: seq<byte>, delivered: seq<byte>)
    requires Balanced(r, accepted, delivered) && n <= r.fill
    ensures Balanced(SkipOut(r, n).(fill := r.fill - n), accepted, delivered + CopyOut(r, n))
  {
    hide Ring.Contents, CopyOut, SkipOut;
    TakesOldest(r, n);
    assert r.Contents() == CopyOut(r, n) + r.Contents()[n..];
  }

  lemma PutBalances(r: Ring, bs: seq<byte>, accepted: seq<byte>, delivered: seq<byte>)
    requires Balanced(r, accepted, delivered) && |bs| <= |r.data| - r.fill
    ensures Balanced(CopyIn(r, bs).(fill := r.fill + |bs|), accepted + bs, delivered)
  {
    PutsNewest(r, bs);
  }

  lemma CountTaken(s: System)
    requires Fifo(s) && InBounds(s) && s.r.pc == RMoved && s.w.pc != WMoved && DoRead(s).Some?
    ensures Fifo(DoRead(s).value)
  {
    hide Balanced;
  }

  predicate SameData(s: System, t: System) {
    t.ring == s.ring && t.accepted == s.accepted && t.delivered == s.delivered
  }

  lemma ReadLeavesRing(s: System)
    requires InBounds(s) && DoRead(s).Some? && s.r.pc != RMoved && !(s.r.pc == RTop && s.r.want > 0)
    ensures SameData(s, DoRead(s).value) && DoRead(s).value.r.pc != RMoved && DoRead(s).value.w == s.w
  {
    hide InBounds, TakeChunk;
  }

  lemma SameBooks(s: System, t: System)
    requires Fifo(s) && SameData(s, t)
    requires s.r.pc != RMoved && t.r.pc != RMoved
    requires t.w == s.w || (s.w.pc != WMoved && t.w.pc != WMoved)
    ensures Fifo(t)
  {
    hide Balanced;
  }

  lemma TakeKeepsFifo(s: System)
    requires Exclusive(s) && Fifo(s) && InBounds(s) && s.r.pc == RTop
    ensures Fifo(TakeChunk(s, Min(s.ring.fill, s.r.want)))
  {
    var n := Min(s.ring.fill, s.r.want);
    TakeBalances(s.ring, n, s.accepted, s.delivered);
    hide Balanced, Ring.Valid, Ring.Contents, CopyOut, SkipOut;
    assert Settled(TakeChunk(s, n)) == SkipOut(s.ring, n).(fill := s.ring.fill - n);
  }

  lemma ReadKeepsFifo(s: System)
    requires Inv(s) && DoRead(s).Some?
    ensures Fifo(DoRead(s).value)
  {
    FifoBounds(s);
    if s.r.pc == RTop && s.r.want > 0 {
      TakeKeepsFifo(s);
    } else if s.r.pc == RMoved {
      assert s.w.pc != WMoved by { BothInside(s); }
      CountTaken(s);
    } else {
      ReadLeavesRing(s);
      hide DoRead;
      SameBooks(s, DoRead(s).value);
    }
  }

  lemma CountingWakes(s: System)
    requires InBounds(s) && NoLostWakeup(s) && ReaderCounts(s) && DoRead(s).Some?
    requires s.r.pc == RMoved && s.w.pc != WMoved
    ensures NoLostWakeup(DoRead(s).value)
  {
  }

  lemma TakingWakes(s: System)
    requires InBounds(s) && NoLostWakeup(s) && s.r.pc == RTop && s.r.want > 0 && s.w.pc != WMoved && DoRead(s).Some?
    ensures NoLostWakeup(DoRead(s).value)
  {
    hide CopyOut, SkipOut;
  }

  lemma WaitingWakes(s: System)
    requires InBounds(s) && NoLostWakeup(s) && ReaderCounts(s) && DoRead(s).Some?
    requires s.r.pc != RMoved && !(s.r.pc == RTop && s.r.want > 0)
    ensures NoLostWakeup(DoRead(s).value)
  {
    hide InBounds, TakeChunk;
  }

  lemma ReadKeepsWakeups(s: System)
    requires Inv(s) && DoRead(s).Some?
    ensures NoLostWakeup(DoRead(s).value)
  {
    FifoBounds(s);
    BothInside(s);
    hide Fifo, WriterCounts, Exclusive, TakeChunk;
    if s.r.pc == RMoved {
      CountingWakes(s);
    } else if s.r.pc == RTop && s.r.want > 0 {
      TakingWakes(s);
    } else {
      WaitingWakes(s);
    }
  }

  lemma WriteKeepsExclusive(s: System)
    requires Inv(s) && DoWrite(s).Some?
    ensures Exclusive(DoWrite(s).value)
  {
    FifoBounds(s);
    hide Fifo, NoLostWakeup, ReaderCounts, WriterCounts, CopyIn, PutChunk;
  }

  lemma WriteKeepsReader(s: System)
    requires Inv(s) && DoWrite(s).Some?
    ensures ReaderCounts(DoWrite(s).value)
  {
    FifoBounds(s);
    BothInside(s);
    hide Fifo, NoLostWakeup, Exclusive, WriterCounts, CopyIn, NextBytes;
  }

  lemma KeepsPut(s: System)
    requires InBounds(s) && WriterCounts(s) && DoWrite(s).Some?
    requires s.w.pc != WMoved && !(s.w.pc == WTop && s.w.Want() > 0)
    ensures WriterCounts(DoWrite(s).value)
  {
    hide InBounds, PutChunk;
  }

  lemma CountPut(s: System)
    requires InBounds(s) && WriterCounts(s) && s.w.pc == WMoved && DoWrite(s).Some?
    ensures WriterCounts(DoWrite(s).value)
  {
  }

  lemma PutKeepsCounts(s: System)
    requires InBounds(s) && WriterCounts(s) && s.w.pc == WTop && s.w.Want() > 0 && s.ring.fill <= |s.ring.data|
    ensures WriterCounts(PutChunk(s, Min(|s.ring.data| - s.ring.fill, s.w.Want())))
  {
    hide CopyIn;
    var n := Min(|s.ring.data| - s.ring.fill, s.w.Want());
    assert s.w.bytes[..s.w.put + n] == s.w.bytes[..s.w.put] + NextBytes(s.w, n);
  }

  lemma WriteKeepsCounts(s: System)
    requires Inv(s) && DoWrite(s).Some?
    ensures WriterCounts(DoWrite(s).value)
  {
    FifoBounds(s);
    hide Fifo, NoLostWakeup, Exclusive, ReaderCounts, PutChunk;
    if s.w.pc == WTop && s.w.Want() > 0 {
      PutKeepsCounts(s);
    } else if s.w.pc == WMoved {
      CountPut(s);
    } else {
      KeepsPut(s);
    }
  }

  lemma WriteLeavesRing(s: System)
    requires InBounds(s) && DoWrite(s).Some? && s.w.pc != WMoved && !(s.w.pc == WTop && s.w.Want() > 0)
    ensures SameData(s, DoWrite(s).value) && DoWrite(s).value.w.pc != WMoved && DoWrite(s).value.r == s.r
  {
    hide InBounds, PutChunk;
  }

  lemma SameBooksTaking(s: System, t: System)
    requires Fifo(s) && SameData(s, t) && s.r == t.r && s.r.pc == RMoved
    ensures Fifo(t)
  {
    hide Balanced;
  }

  lemma CountPutFifo(s: System)
    requires Fifo(s) && WriterCounts(s) && InBounds(s) && s.w.pc == WMoved && s.r.pc != RMoved && DoWrite(s).Some?
    ensures Fifo(DoWrite(s).value)
  {
    hide Balanced;
  }

  lemma PutSettles(s: System, n: nat)
    requires InBounds(s) && s.r.pc != RMoved && n <= |s.ring.data| && s.w.put + n <= |s.w.bytes|
    ensures Settled(PutChunk(s, n)) == CopyIn(s.ring, NextBytes(s.w, n)).(fill := s.ring.fill + n)
  {
    hide CopyIn, NextBytes;
  }

  lemma PutKeepsFifo(s: System)
    requires Exclusive(s) && Fifo(s) && InBounds(s) && s.w.pc == WTop && s.w.put <= |s.w.bytes|
    ensures Fifo(PutChunk(s, Min(|s.ring.data| - s.ring.fill, s.w.Want())))
  {
    hide Balanced, Ring.Valid, Ring.Contents, CopyIn, NextBytes;
    var n := Min(|s.ring.data| - s.ring.fill, s.w.Want());
    BothInside(s);
    assert Settled(s) == s.ring;
    PutBalances(s.ring, NextBytes(s.w, n), s.accepted, s.delivered);
    PutSettles(s, n);
    hide Settled, Exclusive;
  }

  lemma WriteKeepsFifo(s: System)
    requires Inv(s) && DoWrite(s).Some?
    ensures Fifo(DoWrite(s).value)
  {
    FifoBounds(s);
    if s.w.pc == WTop && s.w.Want() > 0 {
      PutKeepsFifo(s);
    } else if s.w.pc == WMoved {
      BothInside(s);
      CountPutFifo(s);
    } else {
      WriteLeavesRing(s);
      hide DoWrite;
      if s.r.pc == RMoved {
        SameBooksTaking(s, DoWrite(s).value);
      } else {
        SameBooks(s, DoWrite(s).value);
      }
    }
  }

  lemma WriteKeepsWakeups(s: System)
    requires Inv(s) && DoWrite(s).Some?
    ensures NoLostWakeup(DoWrite(s).value)
  {
    hide Fifo, ReaderCounts, CopyIn;
    FifoBounds(s);
  }

  // Calls, timeouts and the finish signal touch neither the ring nor the lock.
  lemma OtherKeepsFifo(s: System, a: Action)
    requires Inv(s) && Do(s, a).Some? && a != ReadStep && a != WriteStep
    ensures var s' := Do(s, a).value; Exclusive(s') && Fifo(s') && NoLostWakeup(s')
  {
    FifoBounds(s);
    hide DoRead, DoWrite, Ring.Valid, Ring.Contents, ReaderCounts, WriterCounts;
    assert Settled(Do(s, a).value) == Settled(s);
  }

  lemma OtherKeepsCounts(s: System, a: Action)
    requires Inv(s) && Do(s, a).Some? && a != ReadStep && a != WriteStep
    ensures ReaderCounts(Do(s, a).value) && WriterCounts(Do(s, a).value)
  {
    hide DoRead, DoWrite, Fifo, NoLostWakeup;
  }

  lemma KeepsInv(s: System, a: Action)
    requires Inv(s) && Do(s, a).Some?
    ensures Inv(Do(s, a).value)
  {
    hide DoRead, DoWrite, Exclusive, ReaderCounts, WriterCounts, Fifo, NoLostWakeup;
    match a
    case ReadStep =>
      ReadKeepsExclusive(s);
      ReadKeepsCounts(s);
      ReadKeepsWriter(s);
      ReadKeepsFifo(s);
      ReadKeepsWakeups(s);
    case WriteStep =>
      WriteKeepsExclusive(s);
      WriteKeepsReader(s);
      WriteKeepsCounts(s);
      WriteKeepsFifo(s);
      WriteKeepsWakeups(s);
    case _ =>
      OtherKeepsFifo(s, a);
      OtherKeepsCounts(s, a);
  }

  // ---------- whole runs ----------

  // A run: every action in turn, each enabled where it is taken.
  function Exec(s: System, acts: seq<Action>): (r: Option<System>)
    requires Inv(s)
    ensures r.Some? ==> Inv(r.value)
    decreases |acts|
  {
    if acts == [] then Some(s)
    else
      var next := (FifoBounds(s); Do(s, acts[0]));
      if next.None? then None
      else
        KeepsInv(s, acts[0]);
        Exec(next.value, acts[1..])
  }

  function Reached(size: nat, acts: seq<Action>): (r: Option<System>)
    requires size >= 2
    ensures r.Some? ==> Inv(r.value)
  {
    StartInv(size);
    Exec(Start(size), acts)
  }

  // In every interleaving: what was read is a prefix of what was written, and
  // whenever nobody is inside, the rest is exactly the fill_cnt bytes in the ring.
  lemma FifoRefinement(size: nat, acts: seq<Action>)
    requires size >= 2 && Reached(size, acts).Some?
    ensures var s := Reached(size, acts).value;
            s.delivered <= s.accepted
            && (s.lock == Free ==>
                  s.ring.Valid() && s.ring.fill == |s.accepted| - |s.delivered|
                  && s.ring.Contents() == s.accepted[|s.delivered|..])
  {
  }

  // In every interleaving: with nobody inside, a parked reader with bytes to
  // read can go on, a parked writer with room can go on, and of two parked
  // tasks at least one can go on.
  lemma NoMissedWakeup(size: nat, acts: seq<Action>)
    requires size >= 2 && Reached(size, acts).Some?
    ensures var s := Reached(size, acts).value;
            && (s.r.pc == RWaiting && s.ring.fill > 0 && s.lock == Free ==> s.canRead)
            && (s.w.pc == WWaiting && s.ring.fill < |s.ring.data| && s.lock == Free ==> s.canWrite)
            && (s.r.pc == RWaiting && s.w.pc == WWaiting ==> s.canRead || s.canWrite)
  {
    hide Ring.Contents;
  }

  // ---------- return values ----------

  // A read returns the number of bytes it delivered, or WRITER_FINISHED when the
  // stream is over and there were none; it leaves the lock free or with the writer.
  lemma ReadReturns(s: System)
    requires Inv(s) && DoRead(s).Some? && s.r.pc != RIdle && DoRead(s).value.r.pc == RIdle
    ensures var s' := DoRead(s).value;
            var moved := |s.delivered| - s.r.start;
            && s'.lock != Reader && s'.delivered == s.delivered
            && s'.r.ret == if moved == 0 && s.finished then -2 else moved
  {
    hide Fifo, NoLostWakeup;
  }

  // The writer accepted a prefix of the caller's buffer, and has the lock only inside.
  lemma AcceptedPrefix(s: System)
    requires Inv(s) && s.w.pc != WIdle && s.w.pc != WMoved
    ensures var moved := |s.accepted| - s.w.start;
            && s.w.start <= |s.accepted| && moved == s.w.put <= |s.w.bytes|
            && s.accepted[s.w.start..] == s.w.bytes[..moved]
    ensures s.lock == Writer <==> WriterInside(s.w.pc)
  {
    hide Fifo, NoLostWakeup;
  }

  // A write that returns, by a timeout too, accepted a prefix of its buffer.  The
  // result is the length of that prefix, except on the exit for a finished stream,
  // where it is the length of the last chunk alone (or WRITER_FINISHED if that is
  // empty): so it is right there if and only if no earlier chunk was accepted and the
  // last chunk is not empty.  Without a timeout, and not by that exit, all of the
  // buffer was accepted.
  lemma WriteReturns(s: System, a: Action)
    requires Inv(s) && (a == WriteStep || a == WriteTimeout)
    requires Do(s, a).Some? && Do(s, a).value.w.pc == WIdle
    ensures var s' := Do(s, a).value;
            var moved := |s.accepted| - s.w.start;
            && s'.lock != Writer && s'.accepted == s.accepted
            && 0 <= moved <= |s.w.bytes| && s.accepted[s.w.start..] == s.w.bytes[..moved]
            && (s'.w.ret == moved <==> a == WriteTimeout || s.w.pc == WDone || (0 < moved == s.w.chunk))
            && (a == WriteStep && (s.w.pc == WDone || !s.finished) ==> s'.w.ret == moved == |s.w.bytes|)
            && (a == WriteStep && s.w.pc != WDone ==> s'.w.ret == if s.w.chunk > 0 then s.w.chunk else -2)
  {
    hide Fifo, NoLostWakeup, CopyIn, NextBytes;
    AcceptedPrefix(s);
  }

  // A parked task can run into its timeout whatever the other one does, and then
  // returns what it has moved so far, with nothing else changed.
  lemma GivesUp(s: System)
    requires Inv(s)
    ensures s.r.pc == RWaiting ==>
              var end := Exec(s, [ReadTimeout, ReadStep]);
              && end.Some? && end.value == s.(r := end.value.r) && end.value.r.pc == RIdle
              && var moved := |s.delivered| - s.r.start;
                 end.value.r.ret == if moved == 0 && s.finished then -2 else moved
    ensures s.w.pc == WWaiting ==>
              var end := Exec(s, [WriteTimeout]);
              && end.Some? && end.value == s.(w := end.value.w) && end.value.w.pc == WIdle
              && end.value.w.ret == |s.accepted| - s.w.start
  {
    hide Fifo, NoLostWakeup, Ring.Valid;
    if s.r.pc == RWaiting {
      KeepsInv(s, ReadTimeout);
      assert [ReadTimeout, ReadStep][1..] == [ReadStep] && [ReadStep][1..] == [];
    }
    if s.w.pc == WWaiting {
      KeepsInv(s, WriteTimeout);
      assert [WriteTimeout][1..] == [];
    }
  }

  // ---------- whole calls ----------

  // A read of n bytes that began when `at` bytes were delivered and `there` accepted.
  // It leaves before it has them only by a timeout or on a finished stream, and never
  // before it has looked at the ring.
  predicate Reading(s: System, n: nat, at: nat, there: nat, patient: bool) {
    && at <= there <= |s.accepted|
    && (s.r.pc != RLocking && s.r.pc != RTop ==> |s.delivered| >= at + Min(n, there - at))
    && (s.r.pc != RIdle ==> s.r.want + s.r.got == n && s.r.start == at)
    && (s.r.pc == ROut && patient && !s.finished ==> s.r.want == 0)
    && (s.r.pc == RIdle && patient && !s.finished ==> s.r.ret == n && |s.delivered| == at + n)
  }

  // With nobody in the middle of an update the ring holds what is on its way.
  lemma FillIsBalance(s: System)
    requires Fifo(s) && s.r.pc != RMoved && s.w.pc != WMoved
    ensures s.ring.fill == |s.accepted| - |s.delivered|
  {
  }

  lemma ReadStepKeepsReading(s: System, n: nat, at: nat, there: nat, patient: bool)
    requires Inv(s) && DoRead(s).Some? && Reading(s, n, at, there, patient)
    ensures Reading(DoRead(s).value, n, at, there, patient)
  {
    hide Fifo, NoLostWakeup, WriterCounts, CopyOut, SkipOut;
    FifoBounds(s);
    if s.r.pc == RTop {
      FillIsBalance(s);
    }
  }

  lemma WriteLeavesReader(s: System)
    requires InBounds(s) && DoWrite(s).Some?
    ensures var s' := DoWrite(s).value;
            s'.r == s.r && s'.delivered == s.delivered && s'.finished == s.finished && s.accepted <= s'.accepted
  {
    hide CopyIn, NextBytes, InBounds;
  }

  lemma KeepsReading(s: System, a: Action, n: nat, at: nat, there: nat, patient: bool)
    requires Inv(s) && Do(s, a).Some? && Reading(s, n, at, there, patient)
    requires !a.CallRead? && (patient ==> a != ReadTimeout)
    ensures Reading(Do(s, a).value, n, at, there, patient)
  {
    hide DoRead, DoWrite, Exclusive, Fifo, NoLostWakeup, WriterCounts, ReaderCounts;
    FifoBounds(s);
    match a
    case ReadStep => ReadStepKeepsReading(s, n, at, there, patient);
    case WriteStep => WriteLeavesReader(s);
    case _ =>
  }

  lemma {:induction false} RunKeepsReading(s: System, acts: seq<Action>, n: nat, at: nat, there: nat, patient: bool)
    requires Inv(s) && Exec(s, acts).Some? && Reading(s, n, at, there, patient)
    requires forall a :: a in acts ==> !a.CallRead? && (patient ==> a != ReadTimeout)
    ensures Reading(Exec(s, acts).value, n, at, there, patient)
    decreases |acts|
  {
    hide Inv, Do, Reading;
    if acts != [] {
      InvBounds(s);
      assert acts[0] in acts && forall a :: a in acts[1..] ==> a in acts;
      KeepsInv(s, acts[0]);
      KeepsReading(s, acts[0], n, at, there, patient);
      RunKeepsReading(Do(s, acts[0]).value, acts[1..], n, at, there, patient);
    }
  }

  lemma DeliveredIsAccepted(s: System)
    requires Inv(s)
    ensures s.delivered <= s.accepted && |s.accepted| - |s.delivered| <= |s.ring.data|
  {
    hide Exclusive, NoLostWakeup, ReaderCounts, WriterCounts;
  }

  // In every run behind a call: what the reader has and what it still wants add up to
  // the length asked for; and when the call is over without a timeout, on a stream
  // that is not finished, it has delivered and returned exactly that.  However it
  // ends, it has delivered all that was there when it was called, as far as asked for.
  lemma ReadGetsAll(s: System, n: nat, acts: seq<Action>)
    requires Inv(s) && s.r.pc == RIdle && Exec(s, [CallRead(n)] + acts).Some?
    requires forall a :: a in acts ==> !a.CallRead?
    ensures var t := Exec(s, [CallRead(n)] + acts).value;
            && (t.r.pc != RIdle ==> t.r.want + t.r.got == n)
            && (t.r.pc == RIdle && ReadTimeout !in acts && !t.finished ==>
                  t.r.ret == n && |t.delivered| == |s.delivered| + n)
            && |s.delivered| <= |s.accepted|
            && (t.r.pc == RIdle ==> |t.delivered| - |s.delivered| >= Min(n, |s.accepted| - |s.delivered|))
  {
    hide Inv, DoRead, DoWrite;
    InvBounds(s);
    DeliveredIsAccepted(s);
    KeepsInv(s, CallRead(n));
    assert ([CallRead(n)] + acts)[1..] == acts;
    RunKeepsReading(Do(s, CallRead(n)).value, acts, n, |s.delivered|, |s.accepted|, ReadTimeout !in acts);
  }

  // A write of bs that began when `was` had been accepted and there was room for
  // `room` bytes.
  predicate Writing(s: System, bs: seq<byte>, was: seq<byte>, room: nat, patient: bool) {
    && was <= s.accepted && |was| + room <= |s.ring.data| + |s.delivered|
    && (s.w.pc != WLocking && s.w.pc != WTop ==> |s.accepted| >= |was| + Min(|bs|, room))
    && (s.w.pc != WIdle ==> s.w.bytes == bs && s.w.start == |was|)
    && (s.w.pc == WIdle && patient && !s.finished ==> s.w.ret == |bs| && s.accepted == was + bs)
  }

  lemma WriteStepKeepsWriting(s: System, bs: seq<byte>, was: seq<byte>, room: nat, patient: bool)
    requires Inv(s) && DoWrite(s).Some? && Writing(s, bs, was, room, patient)
    ensures Writing(DoWrite(s).value, bs, was, room, patient)
  {
    hide Fifo, NoLostWakeup, ReaderCounts, NextBytes;
    FifoBounds(s);
    if s.w.pc == WTop {
      FillIsBalance(s);
    }
    assert s.w.bytes[..|s.w.bytes|] == s.w.bytes;
  }

  lemma KeepsWriting(s: System, a: Action, bs: seq<byte>, was: seq<byte>, room: nat, patient: bool)
    requires Inv(s) && Do(s, a).Some? && Writing(s, bs, was, room, patient)
    requires !a.CallWrite? && (patient ==> a != WriteTimeout)
    ensures Writing(Do(s, a).value, bs, was, room, patient)
  {
    hide DoRead, DoWrite, Exclusive, Fifo, NoLostWakeup, WriterCounts, ReaderCounts;
    FifoBounds(s);
    match a
    case ReadStep => ReadLeavesWriter(s);
    case WriteStep => WriteStepKeepsWriting(s, bs, was, room, patient);
    case _ =>
  }

  lemma {:induction false} RunKeepsWriting(s: System, acts: seq<Action>, bs: seq<byte>, was: seq<byte>, room: nat,
                                           patient: bool)
    requires Inv(s) && Exec(s, acts).Some? && Writing(s, bs, was, room, patient)
    requires forall a :: a in acts ==> !a.CallWrite? && (patient ==> a != WriteTimeout)
    ensures Writing(Exec(s, acts).value, bs, was, room, patient)
    decreases |acts|
  {
    hide Inv, Do, Writing;
    if acts != [] {
      InvBounds(s);
      assert acts[0] in acts && forall a :: a in acts[1..] ==> a in acts;
      KeepsInv(s, acts[0]);
      KeepsWriting(s, acts[0], bs, was, room, patient);
      RunKeepsWriting(Do(s, acts[0]).value, acts[1..], bs, was, room, patient);
    }
  }

  // And a write that is over without a timeout, on a stream that is not finished, has
  // put in and returned exactly the bytes of the call.  However it ends, it has put in
  // as many of them as there was room for when it was called.
  lemma WritePutsAll(s: System, bs: seq<byte>, acts: seq<Action>)
    requires Inv(s) && s.w.pc == WIdle && Exec(s, [CallWrite(bs)] + acts).Some?
    requires forall a :: a in acts ==> !a.CallWrite?
    ensures var t := Exec(s, [CallWrite(bs)] + acts).value;
            && (t.w.pc == WIdle && WriteTimeout !in acts && !t.finished ==>
                  t.w.ret == |bs| && t.accepted == s.accepted + bs)
            && |s.accepted| - |s.delivered| <= |s.ring.data|
            && (t.w.pc == WIdle ==>
                  |t.accepted| - |s.accepted| >= Min(|bs|, |s.ring.data| - (|s.accepted| - |s.delivered|)))
  {
    hide Inv, DoRead, DoWrite;
    InvBounds(s);
    DeliveredIsAccepted(s);
    KeepsInv(s, CallWrite(bs));
    assert ([CallWrite(bs)] + acts)[1..] == acts;
    RunKeepsWriting(Do(s, CallWrite(bs)).value, acts, bs, s.accepted, |s.ring.data| - (|s.accepted| - |s.delivered|),
                    WriteTimeout !in acts);
  }

  lemma FreeIsSettled(s: System)
    requires Inv(s) && s.lock == Free
    ensures Settled(s) == s.ring && s.ring.Valid() && s.ring.fill <= |s.ring.data|
  {
  }

  lemma Goes(s: System, a: Action, next: System, rest: seq<Action>)
    requires Inv(s) && InBounds(s) && Do(s, a) == Some(next)
    ensures Inv(next) && InBounds(next) && Exec(s, [a] + rest) == Exec(next, rest)
  {
    hide Inv, Do, InBounds;
    KeepsInv(s, a);
    InvBounds(next);
    assert ([a] + rest)[1..] == rest;
  }

  function Steps(a: Action, k: nat): seq<Action> {
    if k == 0 then [] else [a] + Steps(a, k - 1)
  }

  // The last steps of a read that has got all of its bytes.
  lemma ReadLeaves(s: System)
    requires Inv(s) && s.r.pc == RCounted && s.r.want == 0 && s.r.got > 0
    ensures Exec(s, Steps(ReadStep, 3))
            == Some(s.(canWrite := true, lock := Free, r := s.r.(pc := RIdle, ret := s.r.got)))
  {
    hide Inv;
    InvBounds(s);
    var given := s.(canWrite := true, r := s.r.(pc := RDone));
    var out := given.(lock := Free, r := given.r.(pc := ROut));
    var idle := out.(r := out.r.(pc := RIdle, ret := s.r.got));
    Goes(s, ReadStep, given, Steps(ReadStep, 2));
    Goes(given, ReadStep, out, Steps(ReadStep, 1));
    Goes(out, ReadStep, idle, Steps(ReadStep, 0));
  }

  // The reader at the top of its loop, once it has taken all it wants.
  function Counted(s: System): System
    requires InBounds(s) && s.r.want <= s.ring.fill <= |s.ring.data|
  {
    var n := s.r.want;
    s.(ring := SkipOut(s.ring, n).(fill := s.ring.fill - n), delivered := s.delivered + CopyOut(s.ring, n),
       r := s.r.(pc := RCounted, chunk := n, want := 0, got := s.r.got + n))
  }

  lemma ReadEnters(s: System, n: nat)
    requires Inv(s) && s.lock == Free && s.r.pc == RIdle
    ensures var top := s.(lock := Reader, r := ReadTask(RTop, n, 0, 0, |s.delivered|, s.r.ret));
            Inv(top) && Exec(s, [CallRead(n)] + Steps(ReadStep, 6)) == Exec(top, Steps(ReadStep, 5))
  {
    hide Inv;
    InvBounds(s);
    var called := s.(r := ReadTask(RLocking, n, 0, 0, |s.delivered|, s.r.ret));
    Goes(s, CallRead(n), called, Steps(ReadStep, 6));
    Goes(called, ReadStep, called.(lock := Reader, r := called.r.(pc := RTop)), Steps(ReadStep, 5));
  }

  lemma ReadMoves(s: System)
    requires Inv(s) && InBounds(s) && s.r.pc == RTop && 0 < s.r.want <= s.ring.fill <= |s.ring.data|
    ensures Inv(Counted(s)) && Exec(s, Steps(ReadStep, 5)) == Exec(Counted(s), Steps(ReadStep, 3))
  {
    hide Inv, CopyOut, SkipOut;
    Goes(s, ReadStep, TakeChunk(s, s.r.want), Steps(ReadStep, 4));
    Goes(TakeChunk(s, s.r.want), ReadStep, Counted(s), Steps(ReadStep, 3));
  }

  // Undisturbed, a read of what is there delivers the oldest bytes and leaves the rest.
  lemma ReadAlone(s: System, n: nat)
    requires Inv(s) && s.lock == Free && s.r.pc == RIdle && 0 < n <= s.ring.fill
    ensures Settled(s) == s.ring && s.ring.Valid()
    ensures var end := Exec(s, [CallRead(n)] + Steps(ReadStep, 6));
            && end.Some? && end.value.r.pc == RIdle && end.value.lock == Free && end.value.r.ret == n
            && end.value.delivered == s.delivered + s.ring.Contents()[..n]
            && end.value.ring.Valid() && end.value.ring.Contents() == s.ring.Contents()[n..]
  {
    FreeIsSettled(s);
    hide Inv, Ring.Valid, Ring.Contents, CopyOut, SkipOut;
    InvBounds(s);
    TakesOldest(s.ring, n);
    ReadEnters(s, n);
    var top := s.(lock := Reader, r := ReadTask(RTop, n, 0, 0, |s.delivered|, s.r.ret));
    ReadMoves(top);
    ReadLeaves(Counted(top));
  }

  lemma WriteLeaves(s: System)
    requires Inv(s) && s.w.pc == WCounted && s.w.put == |s.w.bytes|
    ensures Exec(s, Steps(WriteStep, 2))
            == Some(s.(canRead := true, lock := Free, w := s.w.(pc := WIdle, ret := s.w.put)))
  {
    hide Inv;
    InvBounds(s);
    var given := s.(canRead := true, w := s.w.(pc := WDone));
    var idle := given.(lock := Free, w := given.w.(pc := WIdle, ret := s.w.put));
    Goes(s, WriteStep, given, Steps(WriteStep, 1));
    Goes(given, WriteStep, idle, Steps(WriteStep, 0));
  }

  // The writer at the top of its loop, once it has put in all of its bytes.
  function Stored(s: System): System
    requires InBounds(s) && s.w.put == 0 && |s.w.bytes| + s.ring.fill <= |s.ring.data|
  {
    var bs := s.w.bytes;
    s.(ring := CopyIn(s.ring, bs).(fill := s.ring.fill + |bs|), accepted := s.accepted + bs,
       w := s.w.(pc := WCounted, chunk := |bs|, put := |bs|))
  }

  lemma WriteEnters(s: System, bs: seq<byte>)
    requires Inv(s) && s.lock == Free && s.w.pc == WIdle
    ensures var top := s.(lock := Writer, w := WriteTask(WTop, bs, 0, 0, |s.accepted|, s.w.ret));
            Inv(top) && Exec(s, [CallWrite(bs)] + Steps(WriteStep, 5)) == Exec(top, Steps(WriteStep, 4))
  {
    hide Inv;
    InvBounds(s);
    var called := s.(w := WriteTask(WLocking, bs, 0, 0, |s.accepted|, s.w.ret));
    Goes(s, CallWrite(bs), called, Steps(WriteStep, 5));
    Goes(called, WriteStep, called.(lock := Writer, w := called.w.(pc := WTop)), Steps(WriteStep, 4));
  }

  lemma WriteMoves(s: System)
    requires Inv(s) && InBounds(s) && s.w.pc == WTop && s.w.put == 0 && s.w.bytes != []
    requires |s.w.bytes| + s.ring.fill <= |s.ring.data|
    ensures Inv(Stored(s)) && Exec(s, Steps(WriteStep, 4)) == Exec(Stored(s), Steps(WriteStep, 2))
  {
    hide Inv, CopyIn;
    var n := |s.w.bytes|;
    assert NextBytes(s.w, n) == s.w.bytes;
    Goes(s, WriteStep, PutChunk(s, n), Steps(WriteStep, 3));
    Goes(PutChunk(s, n), WriteStep, Stored(s), Steps(WriteStep, 2));
  }

  // And a write of what there is room for appends its bytes.
  lemma WriteAlone(s: System, bs: seq<byte>)
    requires Inv(s) && s.lock == Free && s.w.pc == WIdle && 0 < |bs| <= |s.ring.data| - s.ring.fill
    ensures Settled(s) == s.ring && s.ring.Valid()
    ensures var end := Exec(s, [CallWrite(bs)] + Steps(WriteStep, 5));
            && end.Some? && end.value.w.pc == WIdle && end.value.lock == Free && end.value.w.ret == |bs|
            && end.value.accepted == s.accepted + bs
            && end.value.ring.Valid() && end.value.ring.Contents() == s.ring.Contents() + bs
  {
    FreeIsSettled(s);
    hide Inv, Ring.Valid, Ring.Contents, CopyIn;
    InvBounds(s);
    PutsNewest(s.ring, bs);
    WriteEnters(s, bs);
    var top := s.(lock := Writer, w := WriteTask(WTop, bs, 0, 0, |s.accepted|, s.w.ret));
    WriteMoves(top);
    WriteLeaves(Stored(top));
  }

  // The end of the stream can be signalled at any time, and is over with one more step.
  lemma FinishAlone(s: System)
    requires Inv(s) && !s.signalling
    ensures Exec(s, [CallFinish, FinishStep]) == Some(s.(finished := true, canRead := true))
  {
    hide Inv;
    InvBounds(s);
    var told := s.(finished := true, signalling := true);
    Goes(s, CallFinish, told, [FinishStep]);
    Goes(told, FinishStep, s.(finished := true, canRead := true), []);
    assert [CallFinish] + [FinishStep] == [CallFinish, FinishStep] && [FinishStep] + [] == [FinishStep];
  }

  // ---------- progress and termination ----------

  predicate IsCall(a: Action) {
    a.CallRead? || a.CallWrite? || a.CallFinish?
  }

  // The only rest states: each task is outside a call, or waits for something
  // that is really missing.
  predicate AtRest(s: System) {
    && !s.signalling && s.lock == Free
    && (s.r.pc == RIdle || (s.r.pc == RWaiting && s.ring.fill == 0 && !s.finished))
    && (s.w.pc == WIdle || (s.w.pc == WWaiting && s.ring.fill == |s.ring.data|))
  }

  // Unless the system is at rest, some step is enabled without any new call and
  // without any timeout.
  lemma Progress(s: System)
    requires Inv(s)
    ensures InBounds(s)
    ensures AtRest(s) || DoRead(s).Some? || DoWrite(s).Some? || Do(s, FinishStep).Some?
  {
    FifoBounds(s);
    hide Ring.Valid, Ring.Contents, CopyIn, CopyOut, SkipOut;
  }

  // Ranks of the program points.  A task that finds nothing to move goes round
  // from its last take of the lock to its wait (`Idle` ranks); a task that will
  // move something goes from its wait to the copy (`Busy` ranks).
  function ReadIdleRank(pc: ReadPc, finished: bool): nat {
    match pc
    case RIdle => 0 case ROut => 1 case RDone => 2 case RWaiting => 3 case RCheck => 4 case RRetry => 5
    case RCounted => 6 case RMoved => 7 case RTop => 8 case RLocking => 9
    case RWoken => if finished then 2 else 10
  }

  function ReadBusyRank(pc: ReadPc): nat {
    match pc
    case RIdle => 0 case ROut => 1 case RDone => 2 case RMoved => 4 case RTop => 5 case RLocking => 6
    case RWoken => 9 case RWaiting => 10 case RCheck => 11 case RRetry => 12 case RCounted => 40
  }

  function WriteIdleRank(pc: WritePc): nat {
    match pc
    case WIdle => 0 case WDone => 2 case WWaiting => 3 case WCheck => 4 case WRetry => 5
    case WCounted => 6 case WMoved => 7 case WTop => 8 case WLocking => 9
  }

  function WriteBusyRank(pc: WritePc): nat {
    match pc
    case WIdle => 0 case WDone => 2 case WMoved => 4 case WTop => 5 case WLocking => 6
    case WWaiting => 10 case WCheck => 11 case WRetry => 12 case WCounted => 40
  }

  // With an empty ring only the reader can go round in vain, once per wakeup;
  // with a full ring only the writer can.
  function Potential(s: System): nat {
    (if s.signalling then 40 else 0)
    + (if s.ring.fill == 0 then (if s.canRead then 20 else 0) + ReadIdleRank(s.r.pc, s.finished)
       else ReadBusyRank(s.r.pc))
    + (if s.ring.fill == |s.ring.data| then (if s.canWrite then 20 else 0) + WriteIdleRank(s.w.pc)
       else WriteBusyRank(s.w.pc))
  }

  // An upper bound on the number of steps before the system is at rest.
  function Budget(s: System): nat
    requires WriterCounts(s)
  {
    200 * (s.r.want + s.w.Want()) + Potential(s)
  }

  lemma RingNotEmpty(s: System)
    requires Fifo(s)
    ensures |s.ring.data| >= 2 && s.ring.fill <= |s.ring.data| && InBounds(s)
  {
  }

  // Updating the counters spends want, or nothing moved and only the rank falls.
  lemma ReadCountSpends(s: System)
    requires InBounds(s) && ReaderCounts(s) && s.r.pc == RMoved && DoRead(s).Some?
    ensures var s' := DoRead(s).value;
            s'.w == s.w && (s'.r.want < s.r.want || (s'.r.want == s.r.want && Potential(s') < Potential(s)))
  {
    hide WriteIdleRank, WriteBusyRank;
  }

  lemma ReadMovesInside(s: System)
    requires InBounds(s) && |s.ring.data| >= 2 && DoRead(s).Some?
    requires s.r.pc == RLocking || s.r.pc == RCounted || s.r.pc == RRetry || s.r.pc == RDone
    ensures var s' := DoRead(s).value;
            s'.w == s.w && s'.r.want == s.r.want && Potential(s') < Potential(s)
  {
    hide WriteIdleRank, WriteBusyRank, TakeChunk, InBounds;
  }

  lemma ReadMovesOutside(s: System)
    requires InBounds(s) && |s.ring.data| >= 2 && DoRead(s).Some?
    requires s.r.pc == RCheck || s.r.pc == RWaiting || s.r.pc == RWoken || s.r.pc == ROut
    ensures var s' := DoRead(s).value;
            s'.w == s.w && s'.r.want == s.r.want && Potential(s') < Potential(s)
  {
    hide WriteIdleRank, WriteBusyRank, TakeChunk, InBounds;
  }

  lemma TakeMovesOn(s: System)
    requires InBounds(s) && s.r.pc == RTop && DoRead(s).Some?
    ensures var s' := DoRead(s).value;
            s'.w == s.w && s'.r.want == s.r.want && Potential(s') < Potential(s)
  {
    hide WriteIdleRank, WriteBusyRank, SkipOut, CopyOut;
  }

  lemma WriteCountSpends(s: System)
    requires InBounds(s) && WriterCounts(s) && s.w.pc == WMoved && DoWrite(s).Some?
    ensures var s' := DoWrite(s).value;
            s'.r == s.r && (s'.w.Want() < s.w.Want() || (s'.w.Want() == s.w.Want() && Potential(s') < Potential(s)))
  {
    hide ReadIdleRank, ReadBusyRank;
  }

  lemma WriteMovesInside(s: System)
    requires InBounds(s) && |s.ring.data| >= 2 && DoWrite(s).Some?
    requires s.w.pc == WLocking || s.w.pc == WCounted || s.w.pc == WRetry || s.w.pc == WDone
    ensures var s' := DoWrite(s).value;
            s'.r == s.r && s'.w.Want() == s.w.Want() && Potential(s') < Potential(s)
  {
    hide ReadIdleRank, ReadBusyRank, PutChunk, InBounds;
  }

  lemma WriteMovesOutside(s: System)
    requires InBounds(s) && |s.ring.data| >= 2 && DoWrite(s).Some? && (s.w.pc == WCheck || s.w.pc == WWaiting)
    ensures var s' := DoWrite(s).value;
            s'.r == s.r && s'.w.Want() == s.w.Want() && Potential(s') < Potential(s)
  {
    hide ReadIdleRank, ReadBusyRank, PutChunk, InBounds;
  }

  lemma PutMovesOn(s: System)
    requires InBounds(s) && s.w.pc == WTop && DoWrite(s).Some?
    ensures var s' := DoWrite(s).value;
            s'.r == s.r && s'.w.Want() == s.w.Want() && Potential(s') < Potential(s)
  {
    hide ReadIdleRank, ReadBusyRank, CopyIn, NextBytes;
  }

  lemma PotentialBounded(s: System)
    ensures Potential(s) < 200
  {
  }

  lemma ReadSpends(s: System)
    requires Inv(s) && DoRead(s).Some?
    ensures Inv(DoRead(s).value) && Budget(DoRead(s).value) < Budget(s)
  {
    KeepsInv(s, ReadStep);
    RingNotEmpty(s);
    if s.r.pc == RMoved {
      ReadCountSpends(s);
    } else if s.r.pc == RTop {
      TakeMovesOn(s);
    } else if ReaderInside(s.r.pc) || s.r.pc == RLocking {
      ReadMovesInside(s);
    } else {
      ReadMovesOutside(s);
    }
    PotentialBounded(DoRead(s).value);
    hide Inv, DoRead, Potential;
  }

  lemma WriteSpends(s: System)
    requires Inv(s) && DoWrite(s).Some?
    ensures Inv(DoWrite(s).value) && Budget(DoWrite(s).value) < Budget(s)
  {
    KeepsInv(s, WriteStep);
    RingNotEmpty(s);
    if s.w.pc == WMoved {
      WriteCountSpends(s);
    } else if s.w.pc == WTop {
      PutMovesOn(s);
    } else if WriterInside(s.w.pc) || s.w.pc == WLocking {
      WriteMovesInside(s);
    } else {
      WriteMovesOutside(s);
    }
    PotentialBounded(DoWrite(s).value);
    hide Inv, DoWrite, Potential;
  }

  // Every step that is not a new call spends some of the budget.
  lemma StepSpends(s: System, a: Action)
    requires Inv(s) && Do(s, a).Some? && !IsCall(a)
    ensures Inv(Do(s, a).value) && Budget(Do(s, a).value) < Budget(s)
  {
    match a
    case ReadStep => ReadSpends(s);
    case WriteStep => WriteSpends(s);
    case _ =>
      KeepsInv(s, a);
      hide DoRead, DoWrite, Fifo, NoLostWakeup;
  }

  // However the two tasks are scheduled and whatever times out: without new
  // calls the system takes at most Budget(s) steps.
  lemma {:induction false} Terminates(s: System, acts: seq<Action>)
    requires Inv(s) && Exec(s, acts).Some? && forall i :: 0 <= i < |acts| ==> !IsCall(acts[i])
    ensures |acts| <= Budget(s)
    decreases |acts|
  {
    if acts != [] {
      FifoBounds(s);
      StepSpends(s, acts[0]);
      Terminates(Do(s, acts[0]).value, acts[1..]);
    }
  }

  // ---------- a stream that ends under a parked writer ----------

  lemma {:induction false} ExecMore(s: System, acts: seq<Action>, a: Action)
    requires Inv(s) && Exec(s, acts).Some?
    ensures InBounds(Exec(s, acts).value) && Exec(s, acts + [a]) == Do(Exec(s, acts).value, a)
    decreases |acts|
  {
    FifoBounds(Exec(s, acts).value);
    if acts == [] {
      assert [a][1..] == [];
      if Do(s, a).Some? {
        KeepsInv(s, a);
        assert Exec(Do(s, a).value, []) == Some(Do(s, a).value);
      }
    } else {
      FifoBounds(s);
      KeepsInv(s, acts[0]);
      ExecMore(Do(s, acts[0]).value, acts[1..], a);
      assert (acts + [a])[1..] == acts[1..] + [a];
    }
  }

  // One more action at the end of a run.
  lemma Then(acts: seq<Action>, s: System, a: Action, t: System) returns (acts': seq<Action>)
    requires Reached(2, acts) == Some(s) && InBounds(s) && Do(s, a) == Some(t)
    ensures Reached(2, acts') == Some(t)
  {
    StartInv(2);
    ExecMore(Start(2), acts, a);
    acts' := acts + [a];
  }

  // The states of the example: only the writer has been called, with four bytes.
  function Example(ring: Ring, canWrite: bool, lock: Owner, pc: WritePc, chunk: nat, put: nat): System {
    System(ring, true, canWrite, lock, false, false, ReadTask(RIdle, 0, 0, 0, 0, 0),
           WriteTask(pc, [1, 2, 3, 4], chunk, put, 0, 0), if pc == WLocking && put == 0 then [] else [1, 2], [])
  }

  lemma StartReached()
    ensures Reached(2, []) == Some(Start(2))
  {
  }

  lemma FirstChunk(s: System)
    requires s.ring == Ring([0, 0], 0, 0, 0) && s.w.bytes == [1, 2, 3, 4] && s.w.put == 0
    ensures NextBytes(s.w, 2) == [1, 2] && CopyIn(s.ring, [1, 2]) == Ring([1, 2], 0, 2, 0)
  {
    assert CopyIn(s.ring, [1, 2]).data == [1, 2];
  }

  // The first chunk goes into the ring.
  lemma FirstChunkMoves() returns (acts: seq<Action>)
    ensures Reached(2, acts) == Some(Example(Ring([1, 2], 0, 2, 0), true, Writer, WMoved, 2, 0))
  {
    hide Inv, Reached, Ring.Valid, Ring.Contents, DoRead;
    var empty, moved := InitRing(2), Ring([1, 2], 0, 2, 0);
    assert empty.data == [0, 0];
    acts := [];
    StartReached();
    var called := Example(empty, true, Free, WLocking, 0, 0);
    var top := called.(lock := Writer, w := called.w.(pc := WTop));
    FirstChunk(top);
    assert top.accepted + [1, 2] == [1, 2];
    acts := Then(acts, Start(2), CallWrite([1, 2, 3, 4]), called);
    acts := Then(acts, called, WriteStep, top);
    acts := Then(acts, top, WriteStep, Example(moved, true, Writer, WMoved, 2, 0));
  }

  // It fills the ring, and the writer parks.
  lemma FirstChunkParks() returns (acts: seq<Action>)
    ensures Reached(2, acts) == Some(Example(Ring([1, 2], 0, 2, 2), true, Free, WWaiting, 2, 2))
  {
    hide Inv, Reached, Ring.Valid, Ring.Contents, DoRead;
    var full := Ring([1, 2], 0, 2, 2);
    acts := FirstChunkMoves();
    var s1 := Example(Ring([1, 2], 0, 2, 0), true, Writer, WMoved, 2, 0);
    var s2 := Example(full, true, Writer, WCounted, 2, 2);
    acts := Then(acts, s1, WriteStep, s2);
    var s3 := Example(full, true, Writer, WRetry, 2, 2);
    acts := Then(acts, s2, WriteStep, s3);
    var s4 := Example(full, true, Free, WCheck, 2, 2);
    acts := Then(acts, s3, WriteStep, s4);
    var s5 := Example(full, true, Free, WWaiting, 2, 2);
    acts := Then(acts, s4, WriteStep, s5);
  }

  lemma EmptyChunk(s: System)
    requires s.ring == Ring([1, 2], 0, 2, 2) && s.w.bytes == [1, 2, 3, 4] && s.w.put == 2
    ensures NextBytes(s.w, 0) == [] && CopyIn(s.ring, []) == s.ring
  {
    assert CopyIn(s.ring, []).data == s.ring.data;
  }

  // The semaphore's first token wakes it to a full ring.
  lemma WokenToFull() returns (acts: seq<Action>)
    ensures Reached(2, acts) == Some(Example(Ring([1, 2], 0, 2, 2), false, Writer, WMoved, 0, 2))
  {
    hide Inv, Reached, Ring.Valid, Ring.Contents, DoRead;
    var full := Ring([1, 2], 0, 2, 2);
    acts := FirstChunkParks();
    var s5 := Example(full, true, Free, WWaiting, 2, 2);
    var s6 := Example(full, false, Free, WLocking, 2, 2);
    acts := Then(acts, s5, WriteStep, s6);
    var s7 := Example(full, false, Writer, WTop, 2, 2);
    acts := Then(acts, s6, WriteStep, s7);
    EmptyChunk(s7);
    acts := Then(acts, s7, WriteStep, Example(full, false, Writer, WMoved, 0, 2));
  }

  // It finds nothing to copy.
  lemma WokenInVain() returns (acts: seq<Action>)
    ensures Reached(2, acts) == Some(Example(Ring([1, 2], 0, 2, 2), false, Free, WCheck, 0, 2))
  {
    hide Inv, Reached, Ring.Valid, Ring.Contents, DoRead;
    var full := Ring([1, 2], 0, 2, 2);
    acts := WokenToFull();
    var s8 := Example(full, false, Writer, WMoved, 0, 2);
    var s9 := Example(full, false, Writer, WCounted, 0, 2);
    acts := Then(acts, s8, WriteStep, s9);
    var s10 := Example(full, false, Writer, WRetry, 0, 2);
    acts := Then(acts, s9, WriteStep, s10);
    var s11 := Example(full, false, Free, WCheck, 0, 2);
    acts := Then(acts, s10, WriteStep, s11);
  }

  // The stream ends before it looks again: the call returns WRITER_FINISHED
  // although two of its bytes were accepted.
  lemma AcceptedButNotReported() returns (acts: seq<Action>)
    ensures Reached(2, acts).Some?
    ensures var s := Reached(2, acts).value; s.w.pc == WIdle && s.accepted == [1, 2] && s.w.ret == WRITER_FINISHED
  {
    hide Inv, Reached, Ring.Valid, Ring.Contents, DoRead;
    acts := WokenInVain();
    var s11 := Example(Ring([1, 2], 0, 2, 2), false, Free, WCheck, 0, 2);
    var s12 := s11.(finished := true, signalling := true);
    acts := Then(acts, s11, CallFinish, s12);
    acts := Then(acts, s12, WriteStep, s12.(w := s12.w.(pc := WIdle, ret := WRITER_FINISHED)));
  }
}
