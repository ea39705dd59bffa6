/** Playing PCM frames: a ring of request slots over the transmit queue.

    `pcm_xfer` keeps adding chunks while the queue has room and pops them in the order it added
    them, using `head` and `tail` into arrays of tokens, buffers and statuses.  `head == tail` can
    mean that all slots are in flight or that none is; the loop may only stop in the second case. */
module PcmTransfers {
  import opened Sequences
  import opened Arithmetic
  import opened RingIndex
  import opened QueueProtocol
  import opened VirtQueues

  const QUEUE_SIZE: nat := 32

  /** `VIRTIO_SND_S_OK`. */
  const STATUS_OK: nat := 0x8000

  /** A transfer's fixed part: the stream id, the chunks of the frames, and the status slots. */
  datatype Job = Job(header: Buffer, chunks: seq<Buffer>, statuses: seq<Buffer>)

  /** The local variables of the loop. */
  datatype Locals = Locals(next: nat, head: nat, tail: nat, tokens: seq<nat>, buffers: seq<Option<Buffer>>)

  /** `frames.chunks(period)`: consecutive pieces of `period` bytes, the last one shorter. */
  function Chunks(frames: Buffer, period: nat): (r: seq<Buffer>)
    requires period > 0
    ensures forall i | 0 <= i < |r| :: 0 < r[i].len <= period
    decreases frames.len
  {
    if frames.len == 0 then []
    else if frames.len <= period then [frames]
    else [Buffer(frames.addr, period)] + Chunks(Buffer(frames.addr + period, frames.len - period), period)
  }

  function Total(chunks: seq<Buffer>): nat
  {
    if chunks == [] then 0 else chunks[0].len + Total(chunks[1..])
  }

  /** The chunks cover the frames from first to last byte without a gap or an overlap. */
  lemma {:induction false} ChunksCover(frames: Buffer, period: nat)
    requires period > 0
    ensures var cs := Chunks(frames, period);
      && Total(cs) == frames.len
      && (cs != [] ==> cs[0].addr == frames.addr)
      && (forall i | 0 <= i < |cs| - 1 :: cs[i].len == period)
      && (forall i | 0 <= i < |cs| :: 0 < cs[i].len <= period)
      && (forall i | 0 <= i < |cs| - 1 :: cs[i].addr + cs[i].len == cs[i + 1].addr)
    decreases frames.len
  {
    if frames.len > period {
      var rest := Buffer(frames.addr + period, frames.len - period);
      ChunksCover(rest, period);
      var cs := Chunks(frames, period);
      assert cs[1..] == Chunks(rest, period);
      forall i | 0 <= i < |cs| - 1 ensures cs[i].addr + cs[i].len == cs[i + 1].addr && cs[i].len == period {
        if i > 0 {
          assert cs[i] == cs[1..][i - 1] && cs[i + 1] == cs[1..][i];
        } else {
          assert cs[1] == Chunks(rest, period)[0];
        }
      }
    }
  }

  function Request(job: Job, k: nat): seq<Segment>
    requires k < |job.chunks| && |job.statuses| == QUEUE_SIZE
  {
    Segments([job.header, job.chunks[k]], [job.statuses[k % QUEUE_SIZE]])
  }

  lemma RequestShape(job: Job, k: nat)
    requires k < |job.chunks| && |job.statuses| == QUEUE_SIZE
    ensures |Request(job, k)| == 3
    ensures Request(job, k)[0].buf == job.header && Request(job, k)[1].buf == job.chunks[k]
    ensures Request(job, k)[2].buf == job.statuses[k % QUEUE_SIZE]
  {
    var ins, outs := [job.header, job.chunks[k]], [job.statuses[k % QUEUE_SIZE]];
    assert Segments(ins, outs)[|ins| + 0] == Segment(outs[0], DeviceToDriver);
  }

  lemma SerialUnique(q: Queue, h: nat, k: nat)
    requires Inv(q) && h in q.inflight && k in q.inflight && q.inflight[h].serial == q.inflight[k].serial
    ensures h == k
  {
  }

  lemma DoneNotPending(q: Queue, k: nat, h: nat)
    requires Inv(q) && q.popped <= k < |q.done| && h in q.pending && h in q.inflight
    ensures Flies(q, q.done[k].head, q.done[k].serial)
    ensures q.done[k].serial != q.inflight[h].serial
  {
    assert DoneFrom(q, 0, q.done[k].serial);
  }

  predicate Fits(q: Queue, l: Locals, job: Job)
  {
    q.size == QUEUE_SIZE == |l.tokens| == |l.buffers| == |job.statuses|
  }

  ghost predicate InSlot(q: Queue, l: Locals, job: Job, base: nat, k: nat)
    requires Fits(q, l, job) && k < |job.chunks|
  {
    var slot := k % QUEUE_SIZE;
    && Flies(q, l.tokens[slot], base + k)
    && q.inflight[l.tokens[slot]].segs == Request(job, k)
    && l.buffers[slot] == Some(job.chunks[k])
  }

  /** Chunks `fin` to `sent` are in flight, each in the slot of its number, and nothing else is. */
  ghost predicate Ring(q: Queue, l: Locals, job: Job, base: nat, fin: nat, sent: nat)
  {
    && Fits(q, l, job)
    && fin <= sent <= |job.chunks|
    && l.next == sent && l.head == sent % QUEUE_SIZE && l.tail == fin % QUEUE_SIZE
    && |q.offered| == base + sent && q.popped == base + fin
    && (forall k | fin <= k < sent :: InSlot(q, l, job, base, k))
    && (forall h | h in q.inflight :: base + fin <= q.inflight[h].serial)
    && Asked(q, job, base, sent)
  }

  /** The transfer's requests so far are its first `sent` chunks, in order. */
  ghost predicate Asked(q: Queue, job: Job, base: nat, sent: nat)
    requires |job.statuses| == QUEUE_SIZE && sent <= |job.chunks|
  {
    && |q.asked| == base + sent
    && (forall k | 0 <= k < sent :: q.asked[base + k] == Request(job, k))
  }

  /** The descriptors not free are those of the requests in flight. */
  predicate Spent(q: Queue, n: int)
  {
    |q.free| + n * DescsNeeded(q.indirect, 3) == q.size
  }

  /** While fewer than ten requests are in flight there is room for another one. */
  lemma RoomForTen(q: Queue, n: nat)
    requires q.size == QUEUE_SIZE && Spent(q, n) && n < 10
    ensures AddError(q, 3).None?
  {
  }

  lemma SpentOffer(q: Queue, segs: seq<Segment>, table: nat, n: nat)
    requires Spent(q, n) && |segs| == 3 && AddError(q, 3).None? && DescsNeeded(q.indirect, 3) <= |q.free|
    ensures Spent(Offer(q, segs, table), n + 1)
  {
  }

  lemma SpentTake(q: Queue, n: int)
    requires Inv(q) && Spent(q, n) && CanPop(q) && q.done[q.popped].head in q.inflight
    requires |q.inflight[q.done[q.popped].head].segs| == 3
    ensures Spent(Take(q), n - 1)
  {
    var head := q.done[q.popped].head;
    assert ChainOk(q.size, q.indirect, head, q.inflight[head]);
  }

  lemma NoneSpent(q: Queue)
    requires Inv(q) && q.inflight == map[]
    ensures Spent(q, 0)
  {
    var all := seq(q.size, i => i);
    forall x: nat | x < q.size ensures x in q.free {
      assert x in q.free || exists h :: Owns(q.inflight, h, x);
    }
    DistinctSize(all);
    DistinctSize(q.free);
    SubsetSize(Elements(all), Elements(q.free));
    FreeBound(q);
  }

  function Advance(i: nat): nat
  {
    if i + 1 >= QUEUE_SIZE then 0 else i + 1
  }

  /** The locals after the chunk `buffer` was added under `token`. */
  function Submitted(l: Locals, token: nat, buffer: Buffer): Locals
    requires l.head < |l.tokens| && l.head < |l.buffers|
  {
    Locals(l.next + 1, Advance(l.head), l.tail, l.tokens[l.head := token], l.buffers[l.head := Some(buffer)])
  }

  /** No more requests are in flight than there are slots. */
  lemma SlotsSuffice(q: Queue, l: Locals, job: Job, base: nat, fin: nat, sent: nat)
    requires Inv(q) && Ring(q, l, job, base, fin, sent)
    ensures sent - fin == |q.inflight| <= QUEUE_SIZE
    ensures AddError(q, 3).None? ==> sent - fin < QUEUE_SIZE
    ensures AddError(q, 3).None? && l.head == l.tail ==> sent == fin && q.inflight == map[]
  {
    RingBounds(q);
    if AddError(q, 3).None? {
      AddFits(q, 3);
      OfferRoom(q);
      if sent != fin {
        SlotsDistinct(fin, sent, QUEUE_SIZE);
      }
      assert |q.inflight| == 0 ==> q.inflight == map[];
    }
  }

  /** The slot at `head` is not in flight, so filling it in keeps every request's slot. */
  lemma SubmitRing(q: Queue, l: Locals, job: Job, base: nat, fin: nat, sent: nat, table: nat)
    requires Inv(q) && Ring(q, l, job, base, fin, sent) && sent < |job.chunks|
    requires AddError(q, 3).None? && q.free != [] && DescsNeeded(q.indirect, 3) <= |q.free|
    ensures Ring(Offer(q, Request(job, sent), table), Submitted(l, q.free[0], job.chunks[sent]),
                 job, base, fin, sent + 1)
  {
    hide Inv, Request;
    RequestShape(job, sent);
    SlotsSuffice(q, l, job, base, fin, sent);
    var q' := Offer(q, Request(job, sent), table);
    var l' := Submitted(l, q.free[0], job.chunks[sent]);
    OfferedFresh(q);
    forall k | fin <= k < sent + 1 ensures InSlot(q', l', job, base, k) {
      if k < sent {
        SubmitSlot(q, l, job, base, sent, table, k);
      }
    }
  }

  lemma SubmitSlot(q: Queue, l: Locals, job: Job, base: nat, sent: nat, table: nat, k: nat)
    requires Fits(q, l, job) && l.head == sent % QUEUE_SIZE && k < sent < |job.chunks| && sent - k < QUEUE_SIZE
    requires InSlot(q, l, job, base, k)
    requires AddError(q, |Request(job, sent)|).None? && q.free != [] && q.free[0] !in q.inflight
    requires DescsNeeded(q.indirect, |Request(job, sent)|) <= |q.free|
    ensures InSlot(Offer(q, Request(job, sent), table), Submitted(l, q.free[0], job.chunks[sent]), job, base, k)
  {
    SlotsDistinct(k, sent, QUEUE_SIZE);
  }

  lemma OfferedFresh(q: Queue)
    requires Inv(q) && q.free != []
    ensures q.free[0] !in q.inflight
  {
    assert q.free[0] in q.free;
    if q.free[0] in q.inflight {
      OwnsHead(q.size, q.indirect, q.free, q.inflight, q.free[0]);
      assert false;
    }
  }

  /** Taking back the request at `tail` leaves the later ones in their slots. */
  lemma CollectRing(q: Queue, l: Locals, job: Job, base: nat, fin: nat, sent: nat)
    requires Inv(q) && Ring(q, l, job, base, fin, sent) && fin < sent
    requires CanPop(q) && q.done[q.popped].head == l.tokens[l.tail]
    ensures q.done[q.popped].head in q.inflight
    ensures Ring(Take(q), l.(tail := Advance(l.tail)), job, base, fin + 1, sent)
  {
    hide Inv, Request;
    NextDone(q);
    assert InSlot(q, l, job, base, fin);
    var q' := Take(q);
    var l' := l.(tail := Advance(l.tail));
    forall h | h in q'.inflight ensures base + fin + 1 <= q'.inflight[h].serial {
      if q.inflight[h].serial == base + fin {
        SerialUnique(q, h, l.tokens[l.tail]);
      }
    }
    forall k | fin + 1 <= k < sent ensures InSlot(q', l', job, base, k) {
      assert InSlot(q, l, job, base, k);
    }
  }

  /** Since offer number `base`, the device has completed chains in the order they were offered. */
  predicate InOrder(q: Queue, base: nat)
  {
    forall k | base <= k < |q.done| :: q.done[k].serial == k
  }

  /** What the device still owns of a transfer, buffers and status slots: the requests added and not taken
      back, and nothing else. */
  ghost predicate StillOwned(q: Queue, job: Job, base: nat)
    requires |job.statuses| == QUEUE_SIZE
  {
    && base <= q.popped <= |q.offered| <= base + |job.chunks| && |q.inflight| == |q.offered| - q.popped
    && (forall h | h in q.inflight ::
          q.popped <= q.inflight[h].serial < |q.offered|
          && q.inflight[h].segs == Request(job, q.inflight[h].serial - base))
  }

  lemma RingOwned(q: Queue, l: Locals, job: Job, base: nat, fin: nat, sent: nat)
    requires Inv(q) && Ring(q, l, job, base, fin, sent)
    ensures |job.statuses| == QUEUE_SIZE && StillOwned(q, job, base)
  {
    hide Inv, Request;
    SlotsSuffice(q, l, job, base, fin, sent);
    forall h | h in q.inflight
      ensures q.popped <= q.inflight[h].serial < |q.offered|
              && q.inflight[h].segs == Request(job, q.inflight[h].serial - base)
    {
      InFlightSlot(q, l, job, base, fin, sent, h);
    }
  }

  /** With an in-order device the next completion is the request at `tail`. */
  lemma InOrderToken(q: Queue, l: Locals, job: Job, base: nat, fin: nat, sent: nat)
    requires Inv(q) && Ring(q, l, job, base, fin, sent) && CanPop(q)
    ensures fin < sent
    ensures InOrder(q, base) ==> q.done[q.popped].head == l.tokens[l.tail]
  {
    SlotsSuffice(q, l, job, base, fin, sent);
    NextDone(q);
    assert fin < sent ==> InSlot(q, l, job, base, fin);
  }

  // ---------------------------------------------------------------- status

  /** Memory the device writes its status to. */
  type Store = map<nat, nat>

  function Load(store: Store, addr: nat): nat
  {
    if addr in store then store[addr] else 0
  }

  predicate Failed(codes: seq<nat>, k: nat)
  {
    k < |codes| && codes[k] != STATUS_OK
  }

  predicate AllOk(codes: seq<nat>, from: nat, to: nat)
  {
    from <= to <= |codes| && forall k | from <= k < to :: codes[k] == STATUS_OK
  }

  lemma AllOkGrows(codes: seq<nat>, codes': seq<nat>, from: nat, to: nat)
    requires AllOk(codes, from, to) && codes <= codes'
    ensures AllOk(codes', from, to)
  {
  }

  lemma AllOkNext(codes: seq<nat>, from: nat, to: nat)
    requires AllOk(codes, from, to) && to < |codes| && codes[to] == STATUS_OK
    ensures AllOk(codes, from, to + 1)
  {
  }

  predicate DistinctSlots(job: Job)
  {
    |job.statuses| == QUEUE_SIZE
    && forall i, j | 0 <= i < j < QUEUE_SIZE :: job.statuses[i].addr != job.statuses[j].addr
  }

  /** The status of every finished request is still in its slot; `codes` lists them by completion. */
  ghost predicate StatusKept(q: Queue, job: Job, base: nat, store: Store, codes: seq<nat>)
    requires |job.statuses| == QUEUE_SIZE
  {
    && |codes| == |q.done|
    && (forall k | 0 <= q.popped <= k < |q.done| ::
          q.done[k].serial >= base
          && Load(store, job.statuses[(q.done[k].serial - base) % QUEUE_SIZE].addr) == codes[k])
  }

  /** Every chain in flight is the request of its slot. */
  lemma InFlightSlot(q: Queue, l: Locals, job: Job, base: nat, fin: nat, sent: nat, h: nat)
    requires Inv(q) && Ring(q, l, job, base, fin, sent) && h in q.inflight
    ensures fin <= q.inflight[h].serial - base < sent <= |job.chunks|
    ensures q.inflight[h].segs == Request(job, q.inflight[h].serial - base)
  {
    var k := q.inflight[h].serial - base;
    assert k < sent by { assert q.inflight[h].serial < |q.offered|; }
    assert InSlot(q, l, job, base, k);
    assert q.offered[base + k] == h;
  }

  /** Completing a request writes its own slot, which no other request in flight uses. */
  lemma CompleteStatus(
    q: Queue, l: Locals, job: Job, base: nat, fin: nat, sent: nat,
    store: Store, codes: seq<nat>, h: nat, len: nat, code: nat, addr: nat)
    requires Inv(q) && Ring(q, l, job, base, fin, sent) && DistinctSlots(job)
    requires StatusKept(q, job, base, store, codes)
    requires h in q.pending && h in q.inflight
    requires addr == q.inflight[h].segs[|q.inflight[h].segs| - 1].buf.addr
    ensures StatusKept(Complete(q, h, len), job, base, store[addr := code], codes + [code])
  {
    hide Inv, Ring, Request;
    InFlightSlot(q, l, job, base, fin, sent, h);
    var s := q.inflight[h].serial;
    SlotsSuffice(q, l, job, base, fin, sent);
    RequestShape(job, s - base);
    forall k | q.popped <= k < |q.done|
      ensures (q.done[k].serial - base) % QUEUE_SIZE != (s - base) % QUEUE_SIZE
    {
      var t := q.done[k].serial;
      DoneNotPending(q, k, h);
      InFlightSlot(q, l, job, base, fin, sent, q.done[k].head);
      if t < s {
        SlotsDistinct(t - base, s - base, QUEUE_SIZE);
      } else {
        SlotsDistinct(s - base, t - base, QUEUE_SIZE);
      }
    }
  }

  /** What a device may do: read a request, complete one, or read the next one and complete it at once. */
  datatype TxAction = TxFetch | TxComplete(head: nat, len: nat, code: nat) | TxServe

  // ------------------------------------------------------------ a prompt device

  /** The queue after the device has read the next request, if there is one, and completed it. */
  function ServeNext(q: Queue): Queue
    requires q.fetched < |q.offered| ==> q.offered[q.fetched] in q.inflight
  {
    if q.fetched < |q.offered| then Complete(Fetch(q), q.offered[q.fetched], 0) else q
  }

  /** The device has completed all it has read, in order, and has at most one request left to read. */
  predicate KeepsUp(q: Queue, base: nat)
  {
    q.pending == {} && |q.done| == q.fetched <= |q.offered| <= q.fetched + 1 && InOrder(q, base)
  }

  lemma ServedKeepsUp(q: Queue, base: nat)
    requires Inv(q) && KeepsUp(q, base)
    ensures q.fetched < |q.offered| ==> q.offered[q.fetched] in q.inflight
    ensures KeepsUp(ServeNext(q), base) && ServeNext(q).fetched == |q.offered|
  {
    if q.fetched < |q.offered| {
      assert Flies(q, q.offered[q.fetched], q.fetched);
    }
  }

  lemma StartKeepsUp(q: Queue)
    requires Inv(q) && q.inflight == map[]
    ensures KeepsUp(q, |q.offered|) && q.fetched == |q.offered|
  {
    RingBounds(q);
    forall h | h in q.pending ensures false {
    }
  }

  /** Whatever the driver does, the device's side stays put. */
  predicate DeviceSideKept(q: Queue, q': Queue)
  {
    q'.done == q.done && q'.pending == q.pending && q'.fetched == q.fetched
  }

  /** Where the loop stands after `i` turns when the device keeps up: one chunk is added in each turn and
      taken back in the next. */
  predicate OnTime(i: nat, chunks: nat, fin: nat, sent: nat)
  {
    i <= chunks + 1 && sent == Min(i, chunks) && fin == if i == 0 then 0 else i - 1
  }

  /** A turn when the device has served all requests: there is room, and a completion to take unless all
      have been taken. */
  lemma TurnDue(q: Queue, l: Locals, job: Job, base: nat, fin: nat, sent: nat, i: nat)
    requires Ring(q, l, job, base, fin, sent) && Spent(q, sent - fin) && KeepsUp(q, base) && q.fetched == |q.offered|
    requires OnTime(i, |job.chunks|, fin, sent)
    ensures AddError(q, 3).None? && (CanPop(q) <==> fin < sent)
  {
    RoomForTen(q, sent - fin);
  }

  /** Before every turn the device serves at least one request, if there is one. */
  predicate Prompt(rounds: seq<seq<TxAction>>)
  {
    forall i | 0 <= i < |rounds| :: Serving(rounds[i])
  }

  predicate Serving(actions: seq<TxAction>)
  {
    actions != [] && forall j | 0 <= j < |actions| :: actions[j].TxServe?
  }

  class Sound {
    const tx: VirtQueue
    var store: Store
    /** The status of every completion of the transmit queue, in order. */
    ghost var codes: seq<nat>

    constructor (tx: VirtQueue)
      ensures this.tx == tx && store == map[] && |codes| == |tx.q.done|
    {
      this.tx := tx;
      store := map[];
      codes := seq(|tx.q.done|, _ => STATUS_OK);
    }

    /** The loop's invariant. */
    ghost predicate Running(l: Locals, job: Job, base: nat, fin: nat, sent: nat)
      reads this, tx.Memory()
    {
      && tx.Valid() && this !in tx.Memory() && Spent(tx.q, sent - fin)
      && Ring(tx.q, l, job, base, fin, sent) && DistinctSlots(job)
      && StatusKept(tx.q, job, base, store, codes)
    }

    /** The device has kept up with the transfer so far and reported OK throughout. */
    ghost predicate UpToDate(base: nat)
      reads this, tx
    {
      KeepsUp(tx.q, base) && AllOk(codes, base, |codes|)
    }

    method Reads(ghost l: Locals, ghost job: Job, ghost base: nat, ghost fin: nat, ghost sent: nat)
      requires Running(l, job, base, fin, sent)
      modifies this, tx, tx.used
      ensures Running(l, job, base, fin, sent)
      ensures tx.q == DeviceApply(old(tx.q), DeviceFetch) && DriverSideKept(old(tx.q), tx.q) && codes == old(codes)
    {
      hide VirtQueue.Valid, Inv, Ring, StatusKept, DistinctSlots;
      tx.ValidFacts();
      DeviceApplyInv(tx.q, DeviceFetch);
      RingKept(tx.q, DeviceApply(tx.q, DeviceFetch), l, job, base, fin, sent);
      StatusSame(tx.q, DeviceApply(tx.q, DeviceFetch), l, job, base, fin, sent, store, codes);
      tx.Device(DeviceFetch);
    }

    method Completes(
      head: nat, len: nat, code: nat, ghost l: Locals, ghost job: Job, ghost base: nat, ghost fin: nat, ghost sent: nat)
      requires Running(l, job, base, fin, sent)
      modifies this, tx, tx.used
      ensures Running(l, job, base, fin, sent)
      ensures tx.q == DeviceApply(old(tx.q), DeviceComplete(head, len)) && DriverSideKept(old(tx.q), tx.q)
      ensures codes == old(codes) + if tx.q == old(tx.q) then [] else [code]
    {
      hide VirtQueue.Valid, Inv, Ring, StatusKept, DistinctSlots;
      tx.ValidFacts();
      DeviceApplyInv(tx.q, DeviceComplete(head, len));
      RingKept(tx.q, DeviceApply(tx.q, DeviceComplete(head, len)), l, job, base, fin, sent);
      var fits := tx.MayComplete(head, len);
      if fits {
        InFlightSlot(tx.q, l, job, base, fin, sent, head);
        var chain := tx.claimed[head];
        var addr := chain[|chain| - 1].addr;
        CompleteStatus(tx.q, l, job, base, fin, sent, store, codes, head, len, code, addr);
        store := store[addr := code];
        codes := codes + [code];
        tx.Device(DeviceComplete(head, len));
      }
    }

    /** Reads the next request, if there is one, and completes it at once with status OK. */
    method Serves(ghost l: Locals, ghost job: Job, ghost base: nat, ghost fin: nat, ghost sent: nat)
      requires Running(l, job, base, fin, sent)
      modifies this, tx, tx.used
      ensures Running(l, job, base, fin, sent)
      ensures DriverSideKept(old(tx.q), tx.q) && old(codes) <= codes
      ensures old(UpToDate(base)) ==> UpToDate(base) && tx.q.fetched == |tx.q.offered|
    {
      hide VirtQueue.Valid, Inv, Ring, StatusKept, DistinctSlots, Spent, DeviceApply;
      tx.ValidFacts();
      var head := tx.NextHead();
      if head.None? {
        return;
      }
      ghost var q, was := tx.q, codes;
      Reads(l, job, base, fin, sent);
      ghost var q1 := tx.q;
      Completes(head.value, 0, STATUS_OK, l, job, base, fin, sent);
      ServedSteps(q, q1, tx.q, base);
      if KeepsUp(q, base) && AllOk(was, base, |was|) {
        AllOkMore(was, codes, base);
      }
    }

    method Act(action: TxAction, ghost l: Locals, ghost job: Job, ghost base: nat, ghost fin: nat, ghost sent: nat)
      requires Running(l, job, base, fin, sent)
      modifies this, tx, tx.used
      ensures Running(l, job, base, fin, sent)
      ensures DriverSideKept(old(tx.q), tx.q) && old(codes) <= codes
      ensures action.TxServe? && old(UpToDate(base)) ==> UpToDate(base) && tx.q.fetched == |tx.q.offered|
    {
      hide Running, UpToDate, DeviceApply;
      match action
      case TxFetch => Reads(l, job, base, fin, sent);
      case TxComplete(head, len, code) => Completes(head, len, code, l, job, base, fin, sent);
      case TxServe => Serves(l, job, base, fin, sent);
    }

    method Acts(
      actions: seq<TxAction>, ghost l: Locals, ghost job: Job, ghost base: nat, ghost fin: nat, ghost sent: nat)
      requires Running(l, job, base, fin, sent)
      modifies this, tx, tx.used
      ensures Running(l, job, base, fin, sent)
      ensures DriverSideKept(old(tx.q), tx.q) && old(codes) <= codes
      ensures Serving(actions) && old(UpToDate(base)) ==> UpToDate(base) && tx.q.fetched == |tx.q.offered|
    {
      hide Running, UpToDate;
      for j := 0 to |actions|
        invariant Running(l, job, base, fin, sent)
        invariant DriverSideKept(old(tx.q), tx.q) && old(codes) <= codes
        invariant Serving(actions) && old(UpToDate(base)) ==>
                    UpToDate(base) && (j > 0 ==> tx.q.fetched == |tx.q.offered|)
      {
        Act(actions[j], l, job, base, fin, sent);
      }
    }

    /** Adds the next chunk to the queue, if there is one. */
    method Submit(l: Locals, job: Job, ghost base: nat, ghost fin: nat, ghost sent: nat) returns (l': Locals)
      requires Running(l, job, base, fin, sent) && sent < |job.chunks| && AddError(tx.q, 3).None?
      requires UsableJob(job)
      modifies tx, tx.desc, tx.shadow, tx.avail, tx.lists
      ensures Running(l', job, base, fin, sent + 1)
      ensures DeviceSideKept(old(tx.q), tx.q) && tx.q.popped == old(tx.q.popped)
    {
      hide VirtQueue.Valid, Inv, Ring, StatusKept, DistinctSlots, Request, UsableJob, Spent;
      tx.ValidFacts();
      RingFacts(tx.q, l, job, base, fin, sent);
      RequestShape(job, sent);
      RequestUsable(job, sent);
      AddFits(tx.q, 3);
      var table := tx.AllocateTable();
      SubmitRing(tx.q, l, job, base, fin, sent, table);
      SpentOffer(tx.q, Request(job, sent), table, sent - fin);
      ghost var q := tx.q;
      RequestIs(job, sent);
      var token := tx.Add([job.header, job.chunks[l.next]], [job.statuses[l.head]], table);
      assert token.Ok?;
      StatusSame(q, tx.q, l, job, base, fin, sent, store, codes);
      l' := Submitted(l, token.value, job.chunks[l.next]);
    }

    /** Takes back the request at `tail` once a completion is waiting, and looks at its status. */
    method Collect(l: Locals, job: Job, ghost base: nat, ghost fin: nat, ghost sent: nat)
      returns (r: Result<()>, l': Locals)
      requires Running(l, job, base, fin, sent) && CanPop(tx.q)
      modifies tx, tx.desc, tx.shadow, tx.lists
      ensures DeviceSideKept(old(tx.q), tx.q)
      ensures fin < sent
      ensures r == Err(WrongToken) ==> !InOrder(tx.q, base) && tx.q.popped == base + fin
      ensures r == Err(IoError) ==> Failed(codes, base + fin) && tx.q.popped == base + fin + 1
      ensures r.Err? ==> r.error in {WrongToken, IoError} && tx.Valid() && StillOwned(tx.q, job, base)
      ensures r.Ok? ==> Running(l', job, base, fin + 1, sent)
                          && base + fin < |codes| && codes[base + fin] == STATUS_OK
    {
      hide VirtQueue.Valid, Inv, Ring, StatusKept, DistinctSlots, Request, Spent, StillOwned;
      l' := l;
      tx.ValidFacts();
      InOrderToken(tx.q, l, job, base, fin, sent);
      RingFacts(tx.q, l, job, base, fin, sent);
      TailFacts(tx.q, l, job, base, fin, sent, store, codes);
      RequestIs(job, fin);
      ghost var q := tx.q;
      if q.done[q.popped].head == l.tokens[l.tail] {
        CollectRing(q, l, job, base, fin, sent);
        RequestShape(job, fin);
        SpentTake(q, sent - fin);
      }
      var popped := tx.PopUsed(l.tokens[l.tail], [job.header, l.buffers[l.tail].value], [job.statuses[l.tail]]);
      if popped.Err? {
        RingOwned(tx.q, l, job, base, fin, sent);
        return Err(popped.error), l;
      }
      tx.ValidFacts();
      RingOwned(tx.q, l.(tail := Advance(l.tail)), job, base, fin + 1, sent);
      RingFacts(tx.q, l.(tail := Advance(l.tail)), job, base, fin + 1, sent);
      if Load(store, job.statuses[l.tail].addr) != STATUS_OK {
        return Err(IoError), l;
      }
      StatusSame(q, tx.q, l, job, base, fin, sent, store, codes);
      l' := l.(tail := Advance(l.tail));
      r := Ok(());
    }
  
    /** What an ended transfer guarantees. */
    ghost predicate Outcome(r: Result<()>, job: Job, base: nat)
      requires |job.statuses| == QUEUE_SIZE
      reads this, tx.Memory()
    {
      match r
      case Err(e) =>
        && tx.Valid() && StillOwned(tx.q, job, base)
        && ((e == WrongToken && !InOrder(tx.q, base) && AllOk(codes, base, tx.q.popped))
            || (e == IoError && base < tx.q.popped && Failed(codes, tx.q.popped - 1)
                && AllOk(codes, base, tx.q.popped - 1)))
      case Ok(_) =>
        && tx.Valid() && tx.q.inflight == map[]
        && tx.q.popped == |tx.q.asked| == base + |job.chunks| <= |tx.q.done| == |codes|
        && (forall k | 0 <= k < |job.chunks| :: tx.q.asked[base + k] == Request(job, k))
        && AllOk(codes, base, base + |job.chunks|)
    }

    /** A device that kept up leaves no error to report. */
    lemma OutcomeOk(r: Result<()>, job: Job, base: nat, q: Queue)
      requires |job.statuses| == QUEUE_SIZE && Outcome(r, job, base) && KeepsUp(q, base) && DeviceSideKept(q, tx.q)
      requires AllOk(codes, base, |codes|)
      ensures r == Ok(())
    {
      hide VirtQueue.Valid, StillOwned, Request;
      assert InOrder(tx.q, base);
      if r.Ok? {
        assert r.value == ();
      }
    }

    /** One turn of the loop. */
    method Turn(l: Locals, job: Job, ghost base: nat, ghost fin: nat, ghost sent: nat)
      returns (r: Option<Result<()>>, l': Locals, ghost fin': nat, ghost sent': nat)
      requires Running(l, job, base, fin, sent) && AllOk(codes, base, base + fin) && UsableJob(job)
      requires |job.statuses| == QUEUE_SIZE
      modifies tx, tx.desc, tx.shadow, tx.avail, tx.lists
      ensures r.None? ==> Running(l', job, base, fin', sent') && AllOk(codes, base, base + fin')
      ensures r.None? ==> fin' == fin + if CanPop(old(tx.q)) then 1 else 0
      ensures sent' == sent + if AddError(old(tx.q), 3).None? && sent < |job.chunks| then 1 else 0
      ensures r == Some(Ok(())) <==> AddError(old(tx.q), 3).None? && fin == sent == |job.chunks|
      ensures DeviceSideKept(old(tx.q), tx.q)
      ensures r.Some? ==> Outcome(r.value, job, base)
    {
      hide VirtQueue.Valid, Inv, Ring, StatusKept, Request, UsableJob, AllOk, DistinctSlots, Spent, StillOwned,
        InOrder, Failed;
      r, l', fin', sent' := None, l, fin, sent;
      RingFacts(tx.q, l, job, base, fin, sent);
      tx.ValidFacts();
      var room := tx.AvailableDesc();
      assert AddError(tx.q, 3).None? <==> 3 <= room;
      if room >= 3 {
        if l.next < |job.chunks| {
          l' := Submit(l, job, base, fin, sent);
          sent' := sent + 1;
        } else if l.head == l.tail {
          SlotsSuffice(tx.q, l, job, base, fin, sent);
          AskedAll(tx.q, l, job, base, fin, sent, store, codes);
          r := Some(Ok(()));
          return;
        }
      }
      var can := tx.CanPopUsed();
      if can {
        var result;
        result, l' := Collect(l', job, base, fin', sent');
        if result.Err? {
          r := Some(result);
          return;
        }
        AllOkNext(codes, base, base + fin);
        fin' := fin + 1;
      }
    }

    /** What the device does before a turn, and the turn. */
    method Round(
      actions: seq<TxAction>, l: Locals, job: Job, ghost base: nat, ghost fin: nat, ghost sent: nat, ghost i: nat)
      returns (r: Option<Result<()>>, l': Locals, ghost fin': nat, ghost sent': nat)
      requires Running(l, job, base, fin, sent) && AllOk(codes, base, base + fin) && UsableJob(job)
      requires |job.statuses| == QUEUE_SIZE
      modifies this, tx, tx.desc, tx.shadow, tx.avail, tx.used, tx.lists
      ensures r.None? ==> Running(l', job, base, fin', sent') && AllOk(codes, base, base + fin')
      ensures r.None? && sent < 10 ==> sent' == Min(sent + 1, |job.chunks|)
      ensures r.None? ==> sent' >= sent
      ensures r.Some? ==> Outcome(r.value, job, base)
      ensures Serving(actions) && old(UpToDate(base)) && OnTime(i, |job.chunks|, fin, sent) ==>
                r == Some(Ok(())) || (r.None? && UpToDate(base) && OnTime(i + 1, |job.chunks|, fin', sent'))
    {
      hide VirtQueue.Valid, Inv, Ring, StatusKept, Request, UsableJob, AllOk, DistinctSlots, Outcome, Spent, AddError;
      ghost var before := codes;
      ghost var due := Serving(actions) && UpToDate(base) && OnTime(i, |job.chunks|, fin, sent);
      Acts(actions, l, job, base, fin, sent);
      AllOkGrows(before, codes, base, base + fin);
      RingFacts(tx.q, l, job, base, fin, sent);
      ghost var q := tx.q;
      if sent < 10 {
        RoomForTen(tx.q, sent - fin);
      }
      if due {
        TurnDue(tx.q, l, job, base, fin, sent, i);
      }
      r, l', fin', sent' := Turn(l, job, base, fin, sent);
      if r.None? {
        RingFacts(tx.q, l', job, base, fin', sent');
      } else if due {
        OutcomeOk(r.value, job, base, q);
      }
    }

    /** Plays `frames`, `period` bytes at a time.  `rounds` is what the device does before each turn
        of the loop; if the loop is not over after that, the answer is `None`, and the loop has added
        a chunk in each of the first ten turns or all chunks.  With a device that serves a request before
        each turn, the loop is over after two turns more than there are chunks, and all is well. */
    method PcmXfer(
      parametersSet: bool, header: Buffer, frames: Buffer, period: nat, statuses: seq<Buffer>,
      rounds: seq<seq<TxAction>>)
      returns (r: Option<Result<()>>)
      requires tx.Valid() && tx.size == QUEUE_SIZE && this !in tx.Memory() && |codes| == |tx.q.done|
      requires tx.q.inflight == map[]
      requires 0 < period < U32
      requires DistinctSlots(Job(header, Chunks(frames, period), statuses))
      requires UsableJob(Job(header, Chunks(frames, period), statuses))
      modifies this, tx, tx.desc, tx.shadow, tx.avail, tx.used, tx.lists
      ensures !parametersSet ==> r == Some(Err(IoError))
      ensures parametersSet && r.None? ==>
                |tx.q.offered| - |old(tx.q).offered| >= Min(|rounds|, Min(10, |Chunks(frames, period)|))
      ensures parametersSet && Prompt(rounds) && |rounds| >= |Chunks(frames, period)| + 2 ==> r == Some(Ok(()))
      ensures parametersSet && r.Some? ==>
                Outcome(r.value, Job(header, Chunks(frames, period), statuses), |old(tx.q).offered|)
    {
      hide VirtQueue.Valid, Inv, Ring, StatusKept, Request, UsableJob, Usable, AllOk, Chunks, Outcome, KeepsUp, Spent;
      if !parametersSet {
        return Some(Err(IoError));
      }
      var job := Job(header, Chunks(frames, period), statuses);
      var l := Locals(0, 0, 0, seq(QUEUE_SIZE, _ => 0), seq(QUEUE_SIZE, _ => None));
      ghost var base: nat, fin: nat, sent: nat := |tx.q.offered|, 0, 0;
      tx.ValidFacts();
      StartRing(tx.q, l, job, store, codes);
      NoneSpent(tx.q);
      StartKeepsUp(tx.q);
      for i := 0 to |rounds|
        invariant Running(l, job, base, fin, sent) && AllOk(codes, base, base + fin)
        invariant sent >= Min(i, Min(10, |job.chunks|))
        invariant Prompt(rounds) ==> UpToDate(base) && OnTime(i, |job.chunks|, fin, sent)
      {
        r, l, fin, sent := Round(rounds[i], l, job, base, fin, sent, i);
        if r.Some? {
          return;
        }
      }
      RingFacts(tx.q, l, job, base, fin, sent);
      r := None;
    }
  }

  lemma AllOkMore(codes: seq<nat>, codes': seq<nat>, from: nat)
    requires AllOk(codes, from, |codes|) && (codes' == codes || codes' == codes + [STATUS_OK])
    ensures AllOk(codes', from, |codes'|)
  {
  }

  /** Reading and completing at once is serving the next request. */
  lemma ServedSteps(q: Queue, q1: Queue, q2: Queue, base: nat)
    requires Inv(q) && q.fetched < |q.offered| && q1 == DeviceApply(q, DeviceFetch)
    requires q2 == DeviceApply(q1, DeviceComplete(q.offered[q.fetched], 0))
    ensures KeepsUp(q, base) ==> KeepsUp(q2, base) && q2.fetched == |q2.offered|
  {
    hide Inv, KeepsUp;
    NextOffered(q);
    assert q2 == ServeNext(q);
    if KeepsUp(q, base) {
      ServedKeepsUp(q, base);
    }
  }

  lemma StartRing(q: Queue, l: Locals, job: Job, store: Store, codes: seq<nat>)
    requires Inv(q) && q.inflight == map[] && q.size == QUEUE_SIZE && DistinctSlots(job) && |codes| == |q.done|
    requires l.next == l.head == l.tail == 0 && |l.tokens| == |l.buffers| == QUEUE_SIZE
    ensures Ring(q, l, job, |q.offered|, 0, 0) && StatusKept(q, job, |q.offered|, store, codes)
    ensures AllOk(codes, |q.offered|, |q.offered|)
  {
    RingBounds(q);
  }

  lemma AskedAll(q: Queue, l: Locals, job: Job, base: nat, fin: nat, sent: nat, store: Store, codes: seq<nat>)
    requires Inv(q) && Ring(q, l, job, base, fin, sent) && fin == sent == |job.chunks|
    requires StatusKept(q, job, base, store, codes)
    ensures |q.asked| == base + sent == q.popped <= |q.done| == |codes|
    ensures forall k | 0 <= k < sent :: q.asked[base + k] == Request(job, k)
  {
  }

  predicate UsableJob(job: Job)
  {
    && Usable([Segment(job.header, DriverToDevice)])
    && (forall i | 0 <= i < |job.chunks| :: 0 < job.chunks[i].len < U32)
    && (forall i | 0 <= i < |job.statuses| :: 0 < job.statuses[i].len < U32)
  }

  lemma RequestUsable(job: Job, k: nat)
    requires UsableJob(job) && k < |job.chunks| && |job.statuses| == QUEUE_SIZE
    ensures Usable(Request(job, k))
  {
    RequestShape(job, k);
    assert [Segment(job.header, DriverToDevice)][0].buf == job.header;
  }

  lemma RequestIs(job: Job, k: nat)
    requires k < |job.chunks| && |job.statuses| == QUEUE_SIZE
    ensures Request(job, k) == Segments([job.header, job.chunks[k]], [job.statuses[k % QUEUE_SIZE]])
  {
  }

  lemma RingFacts(q: Queue, l: Locals, job: Job, base: nat, fin: nat, sent: nat)
    requires Ring(q, l, job, base, fin, sent)
    ensures Fits(q, l, job) && fin <= sent <= |job.chunks| && q.popped == base + fin
    ensures l.next == sent && l.head == sent % QUEUE_SIZE && l.tail == fin % QUEUE_SIZE
    ensures |q.offered| == base + sent
  {
  }

  /** What the loop finds in the slot at `tail` when a completion waits and it is the right one. */
  lemma TailFacts(
    q: Queue, l: Locals, job: Job, base: nat, fin: nat, sent: nat, store: Store, codes: seq<nat>)
    requires Inv(q) && Ring(q, l, job, base, fin, sent) && fin < sent && CanPop(q)
    requires StatusKept(q, job, base, store, codes)
    ensures l.buffers[l.tail] == Some(job.chunks[fin])
    ensures Flies(q, l.tokens[l.tail], base + fin)
    ensures q.inflight[l.tokens[l.tail]].segs == Request(job, fin)
    ensures q.done[q.popped].head == l.tokens[l.tail] ==>
              base + fin < |codes| && Load(store, job.statuses[l.tail].addr) == codes[base + fin]
  {
    assert InSlot(q, l, job, base, fin);
    assert Flies(q, q.done[q.popped].head, q.done[q.popped].serial);
  }

  lemma RingKept(q: Queue, q': Queue, l: Locals, job: Job, base: nat, fin: nat, sent: nat)
    requires Ring(q, l, job, base, fin, sent) && DriverSideKept(q, q')
    ensures Ring(q', l, job, base, fin, sent) && |job.statuses| == QUEUE_SIZE
  {
    forall k | fin <= k < sent ensures InSlot(q', l, job, base, k) {
      assert InSlot(q, l, job, base, k);
    }
  }

  lemma StatusSame(
    q: Queue, q': Queue, l: Locals, job: Job, base: nat, fin: nat, sent: nat, store: Store, codes: seq<nat>)
    requires Ring(q, l, job, base, fin, sent) && StatusKept(q, job, base, store, codes)
    requires q'.done == q.done && q'.popped >= q.popped
    ensures StatusKept(q', job, base, store, codes)
  {
  }
}
