/** The console's receive side: one page-sized buffer that is either with the device or being read.

    The driver promises that bytes come out of `recv` exactly as the device delivered them.  What
    has to be shown is that the buffer is never with the device while unread bytes are in it. */
module Consoles {
  import opened Sequences
  import opened MemorySpaces
  import opened QueueProtocol
  import opened VirtQueues
  import opened OwningQueues

  const QUEUE_SIZE: nat := 2

  /** Nothing in flight but, possibly, the receive request. */
  ghost predicate OnlyReceive(q: Queue, token: Option<nat>, buffer: Buffer)
  {
    match token
    case None => q.inflight == map[]
    case Some(t) => q.inflight.Keys == {t} && q.inflight[t].segs == [Segment(buffer, DeviceToDriver)]
  }

  lemma TakeFirst(consumed: seq<int>, unread: seq<int>, delivered: seq<int>)
    requires consumed + unread == delivered
    ensures consumed <= delivered && (consumed == delivered <==> unread == [])
    ensures unread != [] ==>
              && delivered[|consumed|] == unread[0]
              && delivered[..|consumed| + 1] == consumed + [unread[0]]
              && (consumed + [unread[0]]) + unread[1..] == delivered
  {
    if unread != [] {
      assert (consumed + [unread[0]]) + unread[1..] == delivered;
    }
  }

  class Console {
    const receiveq: VirtQueue
    const buffer: Buffer
    /** The bytes of the receive buffer. */
    const rx: array<int>
    var cursor: nat
    var pendingLen: nat
    var receiveToken: Option<nat>
    /** Every byte the device delivered and every byte `recv` has popped, in order. */
    ghost var delivered: seq<int>
    ghost var consumed: seq<int>

    /** What the buffer holds that has not been popped: a completion not yet taken, or the rest of
        the last one taken. */
    ghost function Unread(): seq<int>
      requires cursor <= pendingLen <= rx.Length && rx.Length == PAGE
      requires CanPop(receiveq.q) ==> receiveq.q.done[receiveq.q.popped].len <= PAGE
      reads this, receiveq, rx
    {
      if CanPop(receiveq.q) then rx[..receiveq.q.done[receiveq.q.popped].len] else rx[cursor..pendingLen]
    }

    ghost predicate Shape()
      reads this, receiveq.Memory(), rx
    {
      && receiveq.Valid() && receiveq.size == QUEUE_SIZE
      && buffer.len == PAGE == rx.Length && rx !in receiveq.Memory() && this !in receiveq.Memory()
      && OnlyReceive(receiveq.q, receiveToken, buffer)
      && cursor <= pendingLen <= PAGE
      && (receiveToken.Some? ==> cursor == pendingLen)
      && (CanPop(receiveq.q) ==> 0 < receiveq.q.done[receiveq.q.popped].len <= PAGE)
      && consumed + Unread() == delivered
    }

    /** Between calls a receive request is outstanding exactly when every byte taken from the queue
        has been popped. */
    ghost predicate Valid()
      reads this, receiveq.Memory(), rx
    {
      Shape() && (cursor == pendingLen ==> receiveToken.Some?)
    }

    constructor (receiveq: VirtQueue, buffer: Buffer)
      requires receiveq.Valid() && receiveq.size == QUEUE_SIZE
      requires receiveq.q == Initial(QUEUE_SIZE, receiveq.indirect) && buffer.len == PAGE
      modifies receiveq, receiveq.desc, receiveq.shadow, receiveq.avail, receiveq.lists
      ensures Valid() && this.receiveq == receiveq && fresh(rx)
      ensures delivered == [] && consumed == []
    {
      hide VirtQueue.Valid, Inv;
      this.receiveq, this.buffer := receiveq, buffer;
      rx := new int[PAGE](_ => 0);
      cursor, pendingLen, receiveToken := 0, 0, None;
      delivered, consumed := [], [];
      new;
      assert unchanged(receiveq.Memory());
      var r := PollRetrieve();
    }

    /** Asks the device for data, unless a request is outstanding or bytes are left to read. */
    method PollRetrieve() returns (r: Result<()>)
      requires Shape()
      modifies this`receiveToken, receiveq, receiveq.desc, receiveq.shadow, receiveq.avail, receiveq.lists
      ensures Valid() && r == Ok(())
      ensures receiveq.q.done == old(receiveq.q.done) && receiveq.q.popped == old(receiveq.q.popped)
    {
      hide VirtQueue.Valid, Inv;
      r := Ok(());
      if receiveToken.None? && cursor == pendingLen {
        receiveq.ValidFacts();
        NoChain(receiveq.q);
        FreeBound(receiveq.q);
        SingleOutput(buffer);
        var added := receiveq.Add([], [buffer], 0);
        assert added.Ok?;
        receiveToken := Some(added.value);
      }
    }

    /** Takes the outstanding request back if the device has finished it. */
    method FinishReceive() returns (r: Result<bool>)
      requires Valid()
      modifies this`cursor, this`pendingLen, this`receiveToken, receiveq, receiveq.desc, receiveq.shadow, receiveq.lists
      ensures Valid() && !CanPop(receiveq.q)
      ensures r == Ok(old(CanPop(receiveq.q)))
    {
      hide VirtQueue.Valid, Inv;
      var flag := false;
      receiveq.ValidFacts();
      if receiveToken.Some? {
        SingleChain(receiveq.q, receiveToken.value);
        var peeked := receiveq.PeekUsed();
        if receiveToken == peeked {
          SingleOutput(buffer);
          TakeInv(receiveq.q);
          var len := receiveq.PopUsed(receiveToken.value, [], [buffer]);
          flag := true;
          assert len.Ok? && len.value != 0;
          cursor := 0;
          pendingLen := len.value;
          receiveToken := None;
          NoChain(receiveq.q);
        }
      } else {
        NoChain(receiveq.q);
      }
      r := Ok(flag);
    }

    method AckInterrupt(queueInterrupt: bool) returns (r: Result<bool>)
      requires Valid()
      modifies this`cursor, this`pendingLen, this`receiveToken, receiveq, receiveq.desc, receiveq.shadow, receiveq.lists
      ensures Valid()
      ensures r == Ok(queueInterrupt && old(CanPop(receiveq.q)))
    {
      if !queueInterrupt {
        return Ok(false);
      }
      r := FinishReceive();
    }

    /** The next byte, if any; `pop` takes it. */
    method Recv(pop: bool) returns (r: Result<Option<int>>)
      requires Valid()
      modifies this`cursor, this`pendingLen, this`receiveToken, this`consumed
      modifies receiveq, receiveq.desc, receiveq.shadow, receiveq.avail, receiveq.lists
      ensures Valid()
      ensures |consumed| >= |old(consumed)| && old(consumed) <= delivered
      ensures r == Ok(if old(consumed) == delivered then None else Some(delivered[|old(consumed)|]))
      ensures consumed == if pop && old(consumed) != delivered then delivered[..|old(consumed)| + 1] else old(consumed)
    {
      hide VirtQueue.Valid, Inv, OnlyReceive;
      var finished := FinishReceive();
      TakeFirst(consumed, rx[cursor..pendingLen], delivered);
      if cursor == pendingLen {
        return Ok(None);
      }
      var ch := rx[cursor];
      if pop {
        PopByte();
      }
      r := Ok(Some(ch));
    }

    /** Advances past the byte at the cursor, and asks for more if it was the last. */
    method PopByte()
      requires Valid() && cursor < pendingLen && !CanPop(receiveq.q)
      modifies this`cursor, this`receiveToken, this`consumed
      modifies receiveq, receiveq.desc, receiveq.shadow, receiveq.avail, receiveq.lists
      ensures Valid() && consumed == old(consumed) + [old(rx[cursor])]
    {
      hide VirtQueue.Valid, Inv, OnlyReceive;
      TakeFirst(consumed, rx[cursor..pendingLen], delivered);
      assert rx[cursor..pendingLen][1..] == rx[cursor + 1..pendingLen];
      consumed := consumed + [rx[cursor]];
      cursor := cursor + 1;
      var polled := PollRetrieve();
    }

    // ------------------------------------------------------------ device

    /** One action of the device.  It never completes a receive request without data. */
    method Act(action: RxAction)
      requires Valid()
      modifies this`delivered, receiveq, receiveq.used, rx
      ensures Valid() && old(delivered) <= delivered
      ensures old(CanPop(receiveq.q)) ==> CanPop(receiveq.q)
    {
      hide VirtQueue.Valid, Inv;
      receiveq.ValidFacts();
      match action
      case RxFetch =>
        DeviceApplyInv(receiveq.q, DeviceFetch);
        receiveq.Device(DeviceFetch);
      case RxDeliver(head, bytes) =>
        DeviceApplyInv(receiveq.q, DeviceComplete(head, |bytes|));
        var fits := receiveq.MayComplete(head, |bytes|);
        if fits && bytes != [] {
          Deliver(head, bytes);
        }
    }

    method Deliver(head: nat, bytes: seq<int>)
      requires Valid() && bytes != []
      requires head in receiveq.q.pending && head in receiveq.q.inflight
      requires |bytes| <= TotalLen(receiveq.q.inflight[head].segs)
      modifies this`delivered, receiveq, receiveq.used, rx
      ensures Valid() && delivered == old(delivered) + bytes && CanPop(receiveq.q)
    {
      hide VirtQueue.Valid, Inv;
      receiveq.ValidFacts();
      SingleChain(receiveq.q, receiveToken.value);
      RingBounds(receiveq.q);
      SingleOutput(buffer);
      for i := 0 to |bytes|
        modifies rx
        invariant rx[..i] == bytes[..i]
      {
        rx[i] := bytes[i];
      }
      receiveq.Device(DeviceComplete(head, |bytes|));
      delivered := delivered + bytes;
    }

    /** Spins until a byte is available.  `device` is what the device does between two polls; if it
        delivers nothing in all of that the wait is still going on, and the answer is `None`. */
    method WaitForReceive(device: seq<seq<RxAction>>) returns (r: Option<Result<()>>)
      requires Valid()
      modifies this, receiveq, receiveq.desc, receiveq.shadow, receiveq.avail, receiveq.used, receiveq.lists, rx
      ensures Valid() && consumed == old(consumed) && old(delivered) <= delivered
      ensures r == if consumed != delivered then Some(Ok(())) else None
    {
      hide VirtQueue.Valid, Inv;
      var polled := PollRetrieve();
      var finished := FinishReceive();
      for i := 0 to |device|
        invariant Valid() && !CanPop(receiveq.q)
        invariant consumed == old(consumed) && old(delivered) <= delivered
      {
        if cursor != pendingLen {
          return Some(Ok(()));
        }
        for j := 0 to |device[i]|
          invariant Valid() && consumed == old(consumed) && old(delivered) <= delivered
        {
          Act(device[i][j]);
        }
        finished := FinishReceive();
      }
      r := if cursor != pendingLen then Some(Ok(())) else None;
    }
  }
}
