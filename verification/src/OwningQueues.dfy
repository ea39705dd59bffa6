/** Clients that keep every buffer of a queue in flight and give it back as soon as it is popped: the
    owning queue, and the input device with its event queue, which is filled in the same way.

    Both rely on token `i` always carrying buffer `i`.  That holds only because `pop_used` puts the
    descriptor it frees at the front of the free list, where the next `add` takes it. */
module OwningQueues {
  import opened Sequences
  import opened QueueProtocol
  import opened VirtQueues

  /** Every descriptor not free carries its own buffer, and nothing else. */
  ghost predicate Holds(q: Queue, buffers: seq<Buffer>)
  {
    && |buffers| == q.size
    && (forall i | 0 <= i < q.size ::
          i in q.free || (i in q.inflight && q.inflight[i].descs == [i]
                          && q.inflight[i].segs == [Segment(buffers[i], DeviceToDriver)]))
  }

  predicate UsableBuffers(buffers: seq<Buffer>)
  {
    forall i | 0 <= i < |buffers| :: 0 < buffers[i].len < U32
  }

  lemma SingleOutput(buffer: Buffer)
    ensures Segments([], [buffer]) == [Segment(buffer, DeviceToDriver)]
    ensures TotalLen([Segment(buffer, DeviceToDriver)]) == buffer.len
  {
    assert Segments([], []) == [];
  }

  /** The descriptors freed by taking a chain a client holds are just its head. */
  lemma TakeHolds(q: Queue, buffers: seq<Buffer>)
    requires Inv(q) && Holds(q, buffers) && CanPop(q)
    ensures var head := q.done[q.popped].head;
      && head < q.size && head in q.inflight
      && q.inflight[head].segs == [Segment(buffers[head], DeviceToDriver)]
      && q.done[q.popped].len <= buffers[head].len
      && Take(q).free == [head] + q.free && Holds(Take(q), buffers)
  {
    NextDone(q);
    var head := q.done[q.popped].head;
    OwnsHead(q.size, q.indirect, q.free, q.inflight, head);
    SingleOutput(buffers[head]);
  }

  /** Adding the buffer of the first free descriptor returns that descriptor. */
  lemma OfferHolds(q: Queue, buffers: seq<Buffer>, table: nat)
    requires Inv(q) && Holds(q, buffers) && q.free != [] && q.free[0] < |buffers|
    ensures AddResult(q, 1) == Ok(q.free[0])
    ensures var q' := Apply(q, AddStep([], [buffers[q.free[0]]], table));
      && Inv(q') && q'.free == q.free[1..] && Holds(q', buffers)
      && q'.done == q.done && q'.popped == q.popped
  {
    hide Holds, Inv;
    FreeBound(q);
    SingleOutput(buffers[q.free[0]]);
    var segs := [Segment(buffers[q.free[0]], DeviceToDriver)];
    assert Apply(q, AddStep([], [buffers[q.free[0]]], table)) == Offer(q, segs, table);
    OfferInv(q, segs, table);
    assert q.free[..1] == [q.free[0]];
    HoldsMore(q, Offer(q, segs, table), buffers);
  }

  lemma HoldsMore(q: Queue, q': Queue, buffers: seq<Buffer>)
    requires Holds(q, buffers) && q.free != [] && q.free[0] < |buffers| && q'.size == q.size && q'.free == q.free[1..]
    requires q'.inflight.Keys == q.inflight.Keys + {q.free[0]}
    requires forall i | i in q.inflight && i != q.free[0] :: q'.inflight[i] == q.inflight[i]
    requires q'.inflight[q.free[0]].descs == [q.free[0]]
    requires q'.inflight[q.free[0]].segs == [Segment(buffers[q.free[0]], DeviceToDriver)]
    ensures Holds(q', buffers)
  {
    forall i | 0 <= i < q.size && i !in q'.free
      ensures i in q'.inflight && q'.inflight[i].descs == [i]
              && q'.inflight[i].segs == [Segment(buffers[i], DeviceToDriver)]
    {
      if i in q.free {
        assert q.free == [q.free[0]] + q.free[1..];
      }
    }
  }

  /** The device on a receiving queue: it reads offers, and completes one by writing bytes to the
      start of its buffer. */
  datatype RxAction = RxFetch | RxDeliver(head: nat, bytes: seq<int>)

  function Overwrite(buffer: seq<int>, bytes: seq<int>): seq<int>
    requires |bytes| <= |buffer|
  {
    bytes + buffer[|bytes|..]
  }

  /** Every finished buffer still holds the bytes delivered to it. */
  ghost predicate Intact(q: Queue, contents: seq<seq<int>>, delivered: seq<seq<int>>)
  {
    && |delivered| == |q.done|
    && (forall k | 0 <= q.popped <= k < |q.done| ::
          && q.done[k].head < |contents| && q.done[k].len == |delivered[k]| <= |contents[q.done[k].head]|
          && contents[q.done[k].head][..|delivered[k]|] == delivered[k])
  }

  predicate Sized(buffers: seq<Buffer>, contents: seq<seq<int>>)
  {
    |contents| == |buffers| && forall i | 0 <= i < |buffers| :: |contents[i]| == buffers[i].len
  }

  /** A delivery only writes a buffer the device owns, so it keeps every unread one. */
  lemma DeliverIntact(
    q: Queue, buffers: seq<Buffer>, contents: seq<seq<int>>, delivered: seq<seq<int>>, head: nat, bytes: seq<int>)
    requires Inv(q) && Holds(q, buffers) && Sized(buffers, contents) && Intact(q, contents, delivered)
    requires head in q.pending && head in q.inflight && |bytes| <= TotalLen(q.inflight[head].segs)
    ensures head < |contents| && |bytes| <= |contents[head]|
    ensures Sized(buffers, contents[head := Overwrite(contents[head], bytes)])
    ensures Intact(Complete(q, head, |bytes|), contents[head := Overwrite(contents[head], bytes)], delivered + [bytes])
  {
    OwnsHead(q.size, q.indirect, q.free, q.inflight, head);
    SingleOutput(buffers[head]);
    var q' := Complete(q, head, |bytes|);
    forall k | q.popped <= k < |q.done| ensures q.done[k].head != head {
      assert Flies(q, q.done[k].head, q.done[k].serial);
      assert DoneFrom(q, 0, q.done[k].serial);
    }
    assert Overwrite(contents[head], bytes)[..|bytes|] == bytes;
  }

  lemma InitialHolds(size: nat, indirect: bool, buffers: seq<Buffer>, contents: seq<seq<int>>)
    requires |buffers| == size
    ensures var q := Initial(size, indirect); Holds(q, buffers) && Intact(q, contents, [])
  {
    forall i | 0 <= i < size ensures i in Initial(size, indirect).free {
      assert Initial(size, indirect).free[i] == i;
    }
  }

  lemma HoldsKept(q: Queue, q': Queue, buffers: seq<Buffer>)
    requires Holds(q, buffers) && q'.size == q.size && q'.free == q.free && q'.inflight == q.inflight
    ensures Holds(q', buffers)
  {
  }

  lemma IntactKept(q: Queue, q': Queue, contents: seq<seq<int>>, delivered: seq<seq<int>>)
    requires Intact(q, contents, delivered) && q'.done == q.done && q'.popped == q.popped
    ensures Intact(q', contents, delivered)
  {
  }

  class OwningQueue {
    const queue: VirtQueue
    const buffers: seq<Buffer>
    const contents: array<seq<int>>
    /** What the device delivered, completion by completion. */
    ghost var delivered: seq<seq<int>>

    ghost predicate Shape()
      reads this, queue.Memory(), contents
    {
      && queue.Valid() && Holds(queue.q, buffers) && UsableBuffers(buffers)
      && Sized(buffers, contents[..]) && Intact(queue.q, contents[..], delivered)
      && this !in queue.Memory() && contents !in queue.Memory()
    }

    /** Between calls every buffer is in the queue. */
    ghost predicate Valid()
      reads this, queue.Memory(), contents
    {
      Shape() && queue.q.free == []
    }

    /** Takes over an empty queue and adds all buffers to it.  `boxes` are the buffers the heap
        hands out; the device may run between any two adds. */
    constructor (queue: VirtQueue, boxes: seq<Buffer>, device: nat -> seq<RxAction>)
      requires queue.Valid() && queue.q == Initial(queue.size, queue.indirect)
      requires |boxes| == queue.size && UsableBuffers(boxes)
      modifies queue, queue.desc, queue.shadow, queue.avail, queue.used, queue.lists
      ensures Valid() && this.queue == queue && buffers == boxes && fresh(contents)
    {
      hide VirtQueue.Valid, Inv, Holds, Intact, Apply;
      this.queue, buffers := queue, boxes;
      contents := new seq<int>[|boxes|](i requires 0 <= i < |boxes| => seq(boxes[i].len, _ => 0));
      delivered := [];
      new;
      assert contents !in queue.Memory() && this !in queue.Memory();
      assert unchanged(queue.Memory());
      queue.ValidFacts();
      InitialHolds(queue.size, queue.indirect, boxes, contents[..]);
      ghost var everyDescriptor := Initial(queue.size, queue.indirect).free;
      for i := 0 to |boxes|
        invariant Shape() && queue.q.free == everyDescriptor[i..]
      {
        Run(device(i));
        queue.ValidFacts();
        OfferHolds(queue.q, buffers, 0);
        SingleOutput(buffers[i]);
        ghost var before := queue.q;
        var token := queue.Add([], [buffers[i]], 0);
        assert token == Ok(i);
        IntactKept(before, queue.q, contents[..], delivered);
      }
    }

    /** The device between two calls. */
    method Run(actions: seq<RxAction>)
      requires Shape()
      modifies this, queue, queue.used, contents
      ensures Shape() && DriverSideKept(old(queue.q), queue.q) && old(delivered) <= delivered
    {
      hide VirtQueue.Valid, Inv, Holds, Intact, Sized, Apply;
      for i := 0 to |actions|
        invariant Shape() && DriverSideKept(old(queue.q), queue.q) && old(delivered) <= delivered
      {
        Act(actions[i]);
      }
    }

    method Act(action: RxAction)
      requires Shape()
      modifies this, queue, queue.used, contents
      ensures Shape() && DriverSideKept(old(queue.q), queue.q) && old(delivered) <= delivered
    {
      hide VirtQueue.Valid, Inv, Holds, Intact, Sized, Apply;
      queue.ValidFacts();
      match action
      case RxFetch =>
        DeviceApplyInv(queue.q, DeviceFetch);
        HoldsKept(queue.q, DeviceApply(queue.q, DeviceFetch), buffers);
        IntactKept(queue.q, DeviceApply(queue.q, DeviceFetch), contents[..], delivered);
        queue.Device(DeviceFetch);
      case RxDeliver(head, bytes) =>
        DeviceApplyInv(queue.q, DeviceComplete(head, |bytes|));
        HoldsKept(queue.q, DeviceApply(queue.q, DeviceComplete(head, |bytes|)), buffers);
        var fits := queue.MayComplete(head, |bytes|);
        if fits {
          DeliverIntact(queue.q, buffers, contents[..], delivered, head, bytes);
          contents[head] := Overwrite(contents[head], bytes);
          delivered := delivered + [bytes];
          queue.Device(DeviceComplete(head, |bytes|));
        }
    }
  
    /** Takes the next finished buffer out of the queue; the answer is what the device wrote and the
        buffer's token.  Nothing can go wrong while buffer and token are paired. */
    method Pop() returns (r: Option<(seq<int>, nat)>)
      requires Valid()
      modifies queue, queue.desc, queue.shadow, queue.lists
      ensures Shape()
      ensures var q := old(queue.q);
        if !CanPop(q) then r == None && queue.q == q
        else
          && q.popped < |delivered| && q.done[q.popped].head in q.inflight
          && r == Some((delivered[q.popped], q.done[q.popped].head))
          && queue.q == Take(q) && queue.q.free == [q.done[q.popped].head]
          && q.done[q.popped].head < |buffers|
    {
      hide VirtQueue.Valid, Inv;
      var peeked := queue.PeekUsed();
      if peeked.None? {
        return None;
      }
      queue.ValidFacts();
      var token := peeked.value;
      TakeHolds(queue.q, buffers);
      SingleOutput(buffers[token]);
      var popped := queue.PopUsed(token, [], [buffers[token]]);
      assert popped.Ok?;
      r := Some((contents[token][..popped.value], token));
    }

    /** Gives the buffer at `index` back to the queue. */
    method AddBufferToQueue(index: nat) returns (r: Result<()>)
      requires Shape() && (index < |buffers| ==> queue.q.free == [index])
      modifies queue, queue.desc, queue.shadow, queue.avail, queue.lists
      ensures r == if index < |buffers| then Ok(()) else Err(WrongToken)
      ensures r.Ok? ==> Valid()
      ensures queue.q.done == old(queue.q.done) && queue.q.popped == old(queue.q.popped)
    {
      hide VirtQueue.Valid, Inv, Holds, Intact, Sized, Apply;
      if index >= |buffers| {
        return Err(WrongToken);
      }
      queue.ValidFacts();
      ghost var before := queue.q;
      OfferHolds(queue.q, buffers, 0);
      SingleOutput(buffers[index]);
      var token := queue.Add([], [buffers[index]], 0);
      // If the buffer were given a different token, the pairing would be broken.
      assert token == Ok(index);
      IntactKept(before, queue.q, contents[..], delivered);
      r := Ok(());
    }

    /** Hands the next finished buffer to `handler` and gives it back, whatever `handler` answers.
        The device runs before the call and while the handler does. */
    method Poll<T>(handler: seq<int> -> Result<Option<T>>, early: seq<RxAction>, meanwhile: seq<RxAction>)
      returns (r: Result<Option<T>>)
      requires Valid()
      modifies this, queue, queue.desc, queue.shadow, queue.avail, queue.used, queue.lists, contents
      ensures Valid()
      ensures old(delivered) <= delivered
      ensures queue.q.popped == old(queue.q.popped) ==> r == Ok(None) && |delivered| == old(queue.q.popped)
      ensures queue.q.popped != old(queue.q.popped) ==>
                && queue.q.popped == old(queue.q.popped) + 1 <= |delivered|
                && r == handler(delivered[old(queue.q.popped)])
    {
      hide VirtQueue.Valid, Inv, Holds, Sized;
      Run(early);
      var next := Pop();
      if next.None? {
        queue.ValidFacts();
        RingBounds(queue.q);
        return Ok(None);
      }
      r := handler(next.value.0);
      Run(meanwhile);
      var added := AddBufferToQueue(next.value.1);
    }

    /** The input device's own pop: it copies the whole event and gives its buffer back at once. */
    method PopPendingEvent() returns (r: Option<seq<int>>)
      requires Valid()
      modifies queue, queue.desc, queue.shadow, queue.avail, queue.lists
      ensures Valid()
      ensures var q := old(queue.q);
        if !CanPop(q) then r == None && queue.q == q
        else
          && queue.q.popped == q.popped + 1 && q.popped < |delivered| && q.done[q.popped].head < |buffers|
          && r.Some? && |r.value| == buffers[q.done[q.popped].head].len && delivered[q.popped] <= r.value
    {
      hide VirtQueue.Valid, Inv, Holds, Sized;
      var peeked := queue.PeekUsed();
      if peeked.None? {
        return None;
      }
      queue.ValidFacts();
      var token := peeked.value;
      TakeHolds(queue.q, buffers);
      SingleOutput(buffers[token]);
      SizedAt(buffers, contents[..], token);
      var popped := queue.PopUsed(token, [], [buffers[token]]);
      assert popped.Ok? && queue.q == Take(old(queue.q));
      var event := contents[token];
      queue.ValidFacts();
      ghost var before := queue.q;
      OfferHolds(queue.q, buffers, 0);
      var again := queue.Add([], [buffers[token]], 0);
      // The descriptor just freed is the one that is reused.
      assert again == Ok(token);
      IntactKept(before, queue.q, contents[..], delivered);
      r := Some(event);
    }
  }

  lemma SizedAt(buffers: seq<Buffer>, contents: seq<seq<int>>, i: nat)
    requires Sized(buffers, contents) && i < |buffers|
    ensures i < |contents| && |contents[i]| == buffers[i].len
  {
  }
}
