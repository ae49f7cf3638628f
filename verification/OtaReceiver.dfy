/**
 The subscription callback of the OTA task: an incoming message is copied into a
 free event buffer and signalled to the agent, which frees the buffer later.
 */
module OtaReceiver {
  import opened Buffers
  import opened TopicFilter
  import opened OtaDispatch

  // bufferUsed, and the dataLength bytes stored.
  datatype Slot = Slot(inUse: bool, data: seq<byte>)

  // An event the agent has not finished with; `payload` is what the message held.
  datatype Delivery = Delivery(kind: Kind, buffer: nat, payload: seq<byte>)

  // lost: how many events found a buffer and no place in the agent's queue.
  datatype Pool = Pool(slots: seq<Slot>, pending: seq<Delivery>, lost: nat)

  // ---------- what the callback does ----------

  function FirstFree(slots: seq<Slot>): (k: nat)
    ensures k <= |slots|
    ensures forall i :: 0 <= i < k ==> slots[i].inUse
    ensures k < |slots| ==> !slots[k].inUse
  {
    if slots == [] || !slots[0].inUse then 0 else 1 + FirstFree(slots[1..])
  }

  // queued: the agent's queue has room.  Whether it has is not looked at.
  function Signal(p: Pool, kind: Kind, payload: seq<byte>, queued: bool): Pool {
    var k := FirstFree(p.slots);
    if k == |p.slots| then p
    else if queued then Pool(p.slots[k := Slot(true, payload)], p.pending + [Delivery(kind, k, payload)], p.lost)
    else Pool(p.slots[k := Slot(true, payload)], p.pending, p.lost + 1)
  }

  function Receive(p: Pool, name: string, payload: seq<byte>, queued: bool): Pool {
    var kind := KindOf(Levels(name));
    if kind == NotForUs then p else Signal(p, kind, payload, queued)
  }

  // The agent is done with one of its events.
  function Release(p: Pool, i: nat): Pool
    requires i < |p.pending| && p.pending[i].buffer < |p.slots|
  {
    var k := p.pending[i].buffer;
    Pool(p.slots[k := p.slots[k].(inUse := false)], p.pending[..i] + p.pending[i + 1..], p.lost)
  }

  class Receiver {
    const slots: array<Slot>
    var pending: seq<Delivery>
    var lost: nat

    ghost function State(): Pool
      reads this, slots
    {
      Pool(slots[..], pending, lost)
    }

    constructor (count: nat)
      ensures State() == Pool(seq(count, _ => Slot(false, [])), [], 0)
      ensures fresh(slots)
    {
      slots := new Slot[count](_ => Slot(false, []));
      pending, lost := [], 0;
    }

    // prvOtaEventBufferGet, between taking and giving the semaphore.
    method GetBuffer() returns (found: bool, k: nat)
      modifies slots
      ensures k == FirstFree(old(slots[..])) && found == (k < slots.Length)
      ensures slots[..] == if found then old(slots[..])[k := old(slots[..])[k].(inUse := true)] else old(slots[..])
    {
      found, k := false, 0;
      while k < slots.Length
        invariant k <= slots.Length && !found && slots[..] == old(slots[..])
        invariant FirstFree(slots[..]) == k + FirstFree(slots[k..])
      {
        if !slots[k].inUse {
          slots[k] := slots[k].(inUse := true);
          found := true;
          return;
        }
        assert slots[k..][1..] == slots[k + 1..];
        k := k + 1;
      }
    }

    // prvOtaEventBufferFree.
    method FreeBuffer(i: nat)
      requires i < |pending| && pending[i].buffer < slots.Length
      modifies this, slots
      ensures State() == Release(old(State()), i)
    {
      var k := pending[i].buffer;
      slots[k] := slots[k].(inUse := false);
      pending := pending[..i] + pending[i + 1..];
    }

    // The part of the callback repeated for each filter.
    method Post(kind: Kind, payload: seq<byte>, queued: bool) returns (done: bool)
      modifies this, slots
      ensures State() == Signal(old(State()), kind, payload, queued)
      ensures done <==> FirstFree(old(slots[..])) < slots.Length
    {
      var k;
      done, k := GetBuffer();
      if done {
        slots[k] := slots[k].(data := payload);
        if queued {
          pending := pending + [Delivery(kind, k, payload)];
        } else {
          lost := lost + 1;
        }
        assert slots[..] == old(slots[..])[k := Slot(true, payload)];
      }
    }

    // iot_subscribe_callback_handler.
    method Handle(name: string, payload: seq<byte>, queued: bool)
      requires TopicName(name)
      modifies this, slots
      ensures State() == Receive(old(State()), name, payload, queued)
    {
      FiltersAreExact(name);
      AtMostOneFilter(Levels(name));
      hide Scan, LevelMatch, Levels, TopicName, Signal;
      var done := false;
      var match0 := MatchTopicFilter(name, JOB_NOTIFY);
      if match0 {
        done := Post(JobDocument, payload, queued);
        if done { return; }
      }
      var match1 := MatchTopicFilter(name, JOB_ACCEPTED);
      if match1 {
        done := Post(JobDocument, payload, queued);
        if done { return; }
      }
      var match2 := MatchTopicFilter(name, DATA_STREAM);
      if match2 {
        done := Post(FileBlock, payload, queued);
        if done { return; }
      }
    }
  }

  // ---------- over whole runs ----------

  datatype Op = Message(name: string, payload: seq<byte>, queued: bool) | Done(event: nat)

  function InUse(slots: seq<Slot>): (n: nat)
    ensures n <= |slots|
  {
    if slots == [] then 0 else InUse(slots[1..]) + if slots[0].inUse then 1 else 0
  }

  // Every event still with the agent owns a buffer of its own, which holds the
  // message's payload, and the other buffers in use are those of the lost events.
  ghost predicate Intact(p: Pool) {
    && (forall i :: 0 <= i < |p.pending| ==>
          p.pending[i].buffer < |p.slots| && p.slots[p.pending[i].buffer] == Slot(true, p.pending[i].payload))
    && (forall i, j :: 0 <= i < j < |p.pending| ==> p.pending[i].buffer != p.pending[j].buffer)
    && InUse(p.slots) == |p.pending| + p.lost
  }

  lemma {:induction false} InUseUpdate(slots: seq<Slot>, k: nat, s: Slot)
    requires k < |slots|
    ensures InUse(slots[k := s]) == InUse(slots) + (if s.inUse then 1 else 0) - (if slots[k].inUse then 1 else 0)
  {
    if k > 0 {
      InUseUpdate(slots[1..], k - 1, s);
      assert slots[k := s][1..] == slots[1..][k - 1 := s];
    }
  }

  lemma {:induction false} FullWhenNoneFree(slots: seq<Slot>)
    ensures FirstFree(slots) == |slots| <==> InUse(slots) == |slots|
  {
    if slots != [] {
      FullWhenNoneFree(slots[1..]);
    }
  }

  lemma SignalKeepsIntact(p: Pool, kind: Kind, payload: seq<byte>, queued: bool)
    requires Intact(p)
    ensures var q := Signal(p, kind, payload, queued);
            && Intact(q) && q.lost >= p.lost
            && q.pending == p.pending + if queued && |p.pending| + p.lost < |p.slots|
                                        then [Delivery(kind, FirstFree(p.slots), payload)] else []
  {
    var k := FirstFree(p.slots);
    FullWhenNoneFree(p.slots);
    if k < |p.slots| {
      InUseUpdate(p.slots, k, Slot(true, payload));
    }
  }

  lemma ReleaseKeepsIntact(p: Pool, e: nat)
    requires Intact(p) && e < |p.pending|
    ensures Intact(Release(p, e))
  {
    InUseUpdate(p.slots, p.pending[e].buffer, p.slots[p.pending[e].buffer].(inUse := false));
  }

  // What one step may do: the agent only gives back events it has.
  ghost predicate Enabled(p: Pool, op: Op) {
    op.Done? ==> op.event < |p.pending| && p.pending[op.event].buffer < |p.slots|
  }

  ghost function Step(p: Pool, op: Op): Pool
    requires Enabled(p, op)
  {
    match op
    case Message(name, payload, queued) => Receive(p, name, payload, queued)
    case Done(e) => Release(p, e)
  }

  ghost predicate Runs(p: Pool, ops: seq<Op>, q: Pool)
    decreases |ops|
  {
    if ops == [] then q == p else Enabled(p, ops[0]) && Runs(Step(p, ops[0]), ops[1..], q)
  }

  function Fresh(count: nat): Pool {
    Pool(seq(count, _ => Slot(false, [])), [], 0)
  }

  lemma {:induction false} FreshIntact(count: nat)
    ensures Intact(Fresh(count)) && InUse(Fresh(count).slots) == 0
  {
    if count > 0 {
      FreshIntact(count - 1);
      assert Fresh(count).slots[1..] == Fresh(count - 1).slots;
    }
  }

  lemma {:induction false} RunKeepsIntact(p: Pool, ops: seq<Op>, q: Pool)
    requires Intact(p) && Runs(p, ops, q)
    ensures Intact(q) && |q.slots| == |p.slots| && p.lost <= q.lost <= |p.slots|
    decreases |ops|
  {
    if ops != [] {
      var op := ops[0];
      hide Intact, Levels, KindOf;
      if op.Message? {
        SignalKeepsIntact(p, KindOf(Levels(op.name)), op.payload, op.queued);
      } else {
        ReleaseKeepsIntact(p, op.event);
      }
      RunKeepsIntact(Step(p, op), ops[1..], q);
    }
  }

  // In every run over a pool of `count` buffers no event's payload is overwritten
  // before the agent gives its buffer back; a message for the agent becomes one event
  // of its kind, except when the agent's queue is full or all the buffers are taken, by
  // events or by those that were lost.
  lemma DeliveredIntact(count: nat, ops: seq<Op>, p: Pool, name: string, payload: seq<byte>, queued: bool)
    requires Runs(Fresh(count), ops, p)
    ensures |p.slots| == count
    ensures forall i :: 0 <= i < |p.pending| ==>
              p.pending[i].buffer < count && p.slots[p.pending[i].buffer].data == p.pending[i].payload
    ensures |p.pending| + p.lost <= count
    ensures var q, kind := Receive(p, name, payload, queued), KindOf(Levels(name));
            q.pending == p.pending + if kind == NotForUs || !queued || |p.pending| + p.lost == count then []
                                     else [Delivery(kind, FirstFree(p.slots), payload)]
  {
    FreshIntact(count);
    RunKeepsIntact(Fresh(count), ops, p);
    hide KindOf, Levels;
    SignalKeepsIntact(p, KindOf(Levels(name)), payload, queued);
  }

  // The buffer of an event that did not get into the agent's queue is never given
  // back: once as many events are lost as there are buffers, nothing is delivered
  // any more, whatever the agent does.
  lemma LostForGood(count: nat, before: seq<Op>, p: Pool, after: seq<Op>, q: Pool)
    requires Runs(Fresh(count), before, p) && Runs(p, after, q)
    ensures q.lost >= p.lost && |q.pending| <= count - p.lost
    ensures p.lost == count ==> q.pending == []
  {
    FreshIntact(count);
    RunKeepsIntact(Fresh(count), before, p);
    RunKeepsIntact(p, after, q);
    hide Runs;
  }

  // A message for the agent that finds a buffer and a full queue loses one.
  lemma FullQueueLoses(count: nat, ops: seq<Op>, p: Pool, name: string, payload: seq<byte>)
    requires Runs(Fresh(count), ops, p) && KindOf(Levels(name)) != NotForUs
    ensures var q := Receive(p, name, payload, false);
            q.pending == p.pending && q.lost == if |p.pending| + p.lost < count then p.lost + 1 else p.lost
  {
    FreshIntact(count);
    RunKeepsIntact(Fresh(count), ops, p);
    hide KindOf, Levels, Runs;
    FullWhenNoneFree(p.slots);
  }
}
