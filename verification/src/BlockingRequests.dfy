/** `add_notify_wait_pop`: one request at a time, waiting for the device to finish it. */
module BlockingRequests {
  import opened Sequences
  import opened RingIndex
  import opened QueueProtocol
  import opened VirtQueues

  /** Spins until something is in the used ring, or `rounds` is over. */
  method WaitUsed(queue: VirtQueue, rounds: seq<seq<DeviceAction>>) returns (can: bool)
    requires queue.Valid()
    modifies queue, queue.used
    ensures queue.Valid() && DriverSideKept(old(queue.q), queue.q) && can == CanPop(queue.q)
  {
    hide Inv, TablesRep, FreeLinks, AvailRep, UsedRep, ClaimedRep, AllUsable, ValidSize, Wrap;
    can := queue.CanPopUsed();
    for i := 0 to |rounds|
      invariant queue.Valid() && DriverSideKept(old(queue.q), queue.q) && can == CanPop(queue.q)
    {
      if can {
        break;
      }
      DeviceRunInv(queue.q, rounds[i]);
      queue.Devices(rounds[i]);
      can := queue.CanPopUsed();
    }
  }

  /** The next completion is for `segs`, and taking it leaves the queue as idle as `q0`. */
  ghost predicate Restores(q0: Queue, segs: seq<Segment>, q: Queue)
  {
    && CanPop(q) && q0.free != [] && q.done[q.popped].head == q0.free[0]
    && q0.free[0] in q.inflight && q.inflight[q0.free[0]].segs == segs
    && q.done[q.popped].len <= TotalLen(segs)
    && Take(q).free == q0.free && Take(q).inflight == map[]
  }

  /** The only request of an idle queue is the one that completes, and taking it back restores the
      free list. */
  lemma SoloRequest(q0: Queue, segs: seq<Segment>, table: nat, q: Queue)
    requires q0.inflight == map[] && AddError(q0, |segs|).None?
    requires DescsNeeded(q0.indirect, |segs|) <= |q0.free| && q0.free != []
    requires DriverSideKept(Offer(q0, segs, table), q) && CanPop(q) && Inv(q)
    ensures Restores(q0, segs, q)
  {
    hide Inv, TotalLen;
    var n := DescsNeeded(q0.indirect, |segs|);
    var c := Offer(q0, segs, table).inflight[q0.free[0]];
    assert q0.free[..n] + q0.free[n..] == q0.free;
    assert q.inflight.Keys == {q0.free[0]};
    SoloTaken(q, q0.free[0], c);
  }

  lemma SoloTaken(q: Queue, head: nat, c: Chain)
    requires q.inflight.Keys == {head} && q.inflight[head] == c && CanPop(q) && Inv(q)
    ensures q.done[q.popped].head == head && q.done[q.popped].len <= TotalLen(c.segs)
    ensures Take(q).free == c.descs + q.free && Take(q).inflight == map[]
  {
    hide Inv;
    SingleChain(q, head);
    NextDone(q);
  }

  /** On an otherwise idle queue the request either is refused, is still being waited for after all
      of `rounds`, or is answered with its own length, leaving the queue as it was: the same free
      list in the same order and nothing in flight.  It never sees another request's token. */
  method AddNotifyWaitPop(queue: VirtQueue, inputs: seq<Buffer>, outputs: seq<Buffer>, rounds: seq<seq<DeviceAction>>)
    returns (r: Option<Result<nat>>)
    requires queue.Valid() && queue.q.inflight == map[]
    requires AddError(queue.q, |inputs| + |outputs|).None? ==> Usable(Segments(inputs, outputs))
    modifies queue, queue.desc, queue.shadow, queue.avail, queue.used, queue.lists
    ensures queue.Valid()
    ensures AddError(old(queue.q), |inputs| + |outputs|).Some? ==>
              r == Some(Err(AddError(old(queue.q), |inputs| + |outputs|).value)) && queue.q == old(queue.q)
    ensures AddError(old(queue.q), |inputs| + |outputs|).None? && r.Some? ==>
              && r.value.Ok? && r.value.value <= TotalLen(Segments(inputs, outputs))
              && queue.q.free == old(queue.q.free) && queue.q.inflight == map[]
              && queue.q.asked == old(queue.q.asked) + [Segments(inputs, outputs)]
              && queue.q.popped == old(queue.q.popped) + 1 <= |queue.q.done|
              && queue.q.done[old(queue.q.popped)].len == r.value.value
    ensures r.None? ==> !CanPop(queue.q) && queue.q.asked == old(queue.q.asked) + [Segments(inputs, outputs)]
  {
    hide Inv, TablesRep, FreeLinks, AvailRep, UsedRep, ClaimedRep, AllUsable, ValidSize, Wrap;
    var table := queue.AllocateTable();
    ghost var q0 := queue.q;
    var added := queue.Add(inputs, outputs, table);
    if added.Err? {
      return Some(Err(added.error));
    }
    AddFits(q0, |inputs| + |outputs|);
    var can := WaitUsed(queue, rounds);
    if !can {
      return None;
    }
    SoloRequest(q0, Segments(inputs, outputs), table, queue.q);
    var popped := queue.PopUsed(added.value, inputs, outputs);
    r := Some(popped);
  }
}
