/** The split virtqueue as a protocol between driver and device (VIRTIO 1.1, section 2.6).

    A `Queue` value says who owns every descriptor and how far each side has come, without the
    linked list, the rings or the 16-bit counters.  `VirtQueues.VirtQueue` is proved to be a
    representation of it; here the protocol's own safety is proved for every run. */
module QueueProtocol {
  import opened Sequences

  datatype Direction = DriverToDevice | DeviceToDriver

  /** A buffer as the device addresses it: what `Hal::share` returned, and its length. */
  datatype Buffer = Buffer(addr: nat, len: nat)

  datatype Segment = Segment(buf: Buffer, dir: Direction)

  datatype Error = InvalidParam | QueueFull | NotReady | WrongToken | IoError | AlreadyUsed | DmaError

  datatype Result<+T> = Ok(value: T) | Err(error: Error)

  /** A chain the driver has offered: the descriptors it occupies, what it describes, the shared
      address of its indirect table if it has one, and how many chains were offered before it. */
  datatype Chain = Chain(descs: seq<nat>, segs: seq<Segment>, table: Option<nat>, serial: nat)

  datatype Completion = Completion(head: nat, serial: nat, len: nat)

  /** `free` is the free list front first.  `offered` holds the heads in the order they were
      offered and `asked` what each described, `fetched` how many of them the device has read,
      `pending` those it has read and not completed, `done` its completions in order and `popped` how
      many the driver has taken. */
  datatype Queue = Queue(
    size: nat,
    indirect: bool,
    free: seq<nat>,
    inflight: map<nat, Chain>,
    offered: seq<nat>,
    asked: seq<seq<Segment>>,
    fetched: nat,
    pending: set<nat>,
    done: seq<Completion>,
    popped: nat)

  /** The order `InputOutputIter` yields: every input, then every output. */
  function Segments(inputs: seq<Buffer>, outputs: seq<Buffer>): (r: seq<Segment>)
    ensures |r| == |inputs| + |outputs|
    ensures forall i | 0 <= i < |inputs| :: r[i] == Segment(inputs[i], DriverToDevice)
    ensures forall i | 0 <= i < |outputs| :: r[|inputs| + i] == Segment(outputs[i], DeviceToDriver)
  {
    if inputs != [] then [Segment(inputs[0], DriverToDevice)] + Segments(inputs[1..], outputs)
    else if outputs != [] then [Segment(outputs[0], DeviceToDriver)] + Segments([], outputs[1..])
    else []
  }

  lemma SegmentsReadableFirst(inputs: seq<Buffer>, outputs: seq<Buffer>)
    ensures ReadableFirst(Segments(inputs, outputs))
  {
    var r := Segments(inputs, outputs);
    assert forall i | |inputs| <= i < |r| :: r[i] == Segment(outputs[i - |inputs|], DeviceToDriver) by {
      forall i | |inputs| <= i < |r| ensures r[i] == Segment(outputs[i - |inputs|], DeviceToDriver) {
        assert r[|inputs| + (i - |inputs|)] == Segment(outputs[i - |inputs|], DeviceToDriver);
      }
    }
  }

  function TotalLen(segs: seq<Segment>): nat
  {
    if segs == [] then 0 else segs[0].buf.len + TotalLen(segs[1..])
  }

  predicate ReadableFirst(segs: seq<Segment>)
  {
    forall i, j | 0 <= i < j < |segs| :: segs[i].dir == DeviceToDriver ==> segs[j].dir == DeviceToDriver
  }

  function NumUsed(q: Queue): int
  {
    q.size - |q.free|
  }

  /** Whether a chain of `n` segments goes into an indirect table. */
  predicate UsesTable(indirect: bool, n: nat)
  {
    indirect && n > 1
  }

  function DescsNeeded(indirect: bool, n: nat): nat
  {
    if UsesTable(indirect, n) then 1 else n
  }

  function AddError(q: Queue, n: nat): Option<Error>
  {
    if n == 0 then Some(InvalidParam)
    else if NumUsed(q) + 1 > q.size || n > q.size || (!q.indirect && NumUsed(q) + n > q.size)
    then Some(QueueFull)
    else None
  }

  /** What `add` answers for `n` buffers: the head of the free list, unless it refuses. */
  function AddResult(q: Queue, n: nat): Result<nat>
  {
    match AddError(q, n)
    case Some(e) => Err(e)
    case None => Ok(q.free[0])
  }

  /** What `pop_used` answers for `token`. */
  function PopResult(q: Queue, token: nat): Result<nat>
  {
    if !CanPop(q) then Err(NotReady)
    else if q.done[q.popped].head != token then Err(WrongToken)
    else Ok(q.done[q.popped].len)
  }

  // ---------------------------------------------------------------- steps

  /** The driver offers a chain; `table` is the shared address of the indirect table, if used. */
  function Offer(q: Queue, segs: seq<Segment>, table: nat): Queue
    requires AddError(q, |segs|).None? && DescsNeeded(q.indirect, |segs|) <= |q.free|
  {
    var n := DescsNeeded(q.indirect, |segs|);
    var chain := Chain(q.free[..n], segs, if UsesTable(q.indirect, |segs|) then Some(table) else None, |q.offered|);
    q.(free := q.free[n..],
       inflight := q.inflight[q.free[0] := chain],
       offered := q.offered + [q.free[0]],
       asked := q.asked + [segs])
  }

  /** The device reads the next entry of the available ring. */
  function Fetch(q: Queue): Queue
    requires q.fetched < |q.offered|
  {
    q.(fetched := q.fetched + 1, pending := q.pending + {q.offered[q.fetched]})
  }

  /** The device is done with a chain it has read: any one of them, in any order. */
  function Complete(q: Queue, head: nat, len: nat): Queue
    requires head in q.pending && head in q.inflight
  {
    q.(pending := q.pending - {head},
       done := q.done + [Completion(head, q.inflight[head].serial, len)])
  }

  predicate CanPop(q: Queue)
  {
    q.popped < |q.done|
  }

  /** The driver takes back the oldest completion it has not taken, and frees its descriptors. */
  function Take(q: Queue): Queue
    requires CanPop(q) && q.done[q.popped].head in q.inflight
  {
    var head := q.done[q.popped].head;
    q.(free := q.inflight[head].descs + q.free,
       inflight := q.inflight - {head},
       popped := q.popped + 1)
  }

  // ------------------------------------------------------------ invariant

  ghost predicate ChainOk(size: nat, indirect: bool, h: nat, c: Chain)
  {
    && |c.descs| >= 1 && c.descs[0] == h && Distinct(c.descs)
    && (forall x | x in c.descs :: x < size)
    && 1 <= |c.segs| <= size && ReadableFirst(c.segs)
    && c.table.Some? == UsesTable(indirect, |c.segs|)
    && |c.descs| == DescsNeeded(indirect, |c.segs|)
  }

  ghost predicate Owns(inflight: map<nat, Chain>, h: nat, x: nat)
  {
    h in inflight && x in inflight[h].descs
  }

  /** Free list and in-flight chains partition the descriptors, without repetition. */
  ghost predicate Partition(size: nat, indirect: bool, free: seq<nat>, inflight: map<nat, Chain>)
  {
    && Distinct(free)
    && (forall x | x in free :: x < size)
    && (forall h | h in inflight :: ChainOk(size, indirect, h, inflight[h]))
    && (forall h, x | Owns(inflight, h, x) :: x !in free)
    && (forall h, k, x | Owns(inflight, h, x) && Owns(inflight, k, x) :: h == k)
    && (forall x: nat | x < size :: x in free || exists h :: Owns(inflight, h, x))
  }

  /** Live indirect tables have distinct addresses. */
  ghost predicate TablesDistinct(inflight: map<nat, Chain>)
  {
    forall h, k | h in inflight && k in inflight && inflight[h].table.Some?
                  && inflight[h].table == inflight[k].table :: h == k
  }

  /** The chain in flight with head `h` was offered as number `serial`. */
  predicate Flies(q: Queue, h: nat, serial: nat)
  {
    h in q.inflight && q.inflight[h].serial == serial
  }

  ghost predicate DoneFrom(q: Queue, from: nat, serial: nat)
  {
    exists k :: from <= k < |q.done| && q.done[k].serial == serial
  }

  predicate Bounds(q: Queue)
  {
    && q.fetched <= |q.offered| == |q.asked| && q.popped <= |q.done|
    && (forall h | h in q.inflight ::
          q.inflight[h].serial < |q.offered| && q.offered[q.inflight[h].serial] == h
          && q.asked[q.inflight[h].serial] == q.inflight[h].segs)
    && (forall k | 0 <= k < |q.done| ::
          q.done[k].serial < q.fetched && q.offered[q.done[k].serial] == q.done[k].head)
    && (forall i, j | 0 <= i < j < |q.done| :: q.done[i].serial != q.done[j].serial)
  }

  /** A chain not yet read, being processed, or completed and not taken is in flight. */
  ghost predicate LiveFlies(q: Queue)
    requires Bounds(q)
  {
    && (forall k | q.fetched <= k < |q.offered| :: Flies(q, q.offered[k], k))
    && (forall h | h in q.pending ::
          h in q.inflight && q.inflight[h].serial < q.fetched && !DoneFrom(q, 0, q.inflight[h].serial))
    && (forall k | q.popped <= k < |q.done| :: Flies(q, q.done[k].head, q.done[k].serial))
  }

  /** A chain in flight is not yet read, being processed, or completed and not taken; and a chain
      the device has read is being processed or completed. */
  ghost predicate FliesLive(q: Queue)
    requires Bounds(q)
  {
    && (forall h | h in q.inflight ::
          q.fetched <= q.inflight[h].serial || h in q.pending || DoneFrom(q, q.popped, q.inflight[h].serial))
    && (forall k | 0 <= k < q.fetched ::
          DoneFrom(q, 0, k) || (q.offered[k] in q.pending && Flies(q, q.offered[k], k)))
  }

  /** A completion's length fits the chain it completes. */
  ghost predicate LensFit(q: Queue)
  {
    forall k | 0 <= q.popped <= k < |q.done| && q.done[k].head in q.inflight ::
      q.done[k].len <= TotalLen(q.inflight[q.done[k].head].segs)
  }

  /** Every offered chain is in exactly one place: not yet read, being processed, completed and not
      taken, or taken. */
  ghost predicate Progress(q: Queue)
  {
    Bounds(q) && LiveFlies(q) && FliesLive(q)
  }

  predicate Counts(q: Queue)
  {
    && |q.inflight| == |q.offered| - q.popped
    && |q.pending| == q.fetched - |q.done|
  }

  ghost predicate Inv(q: Queue)
  {
    && Counts(q)
    && Partition(q.size, q.indirect, q.free, q.inflight)
    && TablesDistinct(q.inflight)
    && LensFit(q)
    && Progress(q)
  }

  function Initial(size: nat, indirect: bool): Queue
  {
    Queue(size, indirect, seq(size, i => i), map[], [], [], 0, {}, [], 0)
  }

  lemma InitialInv(size: nat, indirect: bool)
    ensures Inv(Initial(size, indirect))
  {
    var q := Initial(size, indirect);
    forall x: nat | x < size ensures x in q.free {
      assert q.free[x] == x;
    }
  }

  // ------------------------------------------------- every step keeps Inv

  /** Adding `n` buffers is refused for one of two reasons only: there are none, or the chain would be longer
      than the queue or the free list does not hold the descriptors it occupies, which is one if the queue may
      use indirect tables. */
  lemma AddExactly(q: Queue, n: nat)
    requires Inv(q)
    ensures AddError(q, n).None? <==> 1 <= n <= q.size && (if q.indirect then 1 else n) <= |q.free|
    ensures AddError(q, n) == Some(InvalidParam) <==> n == 0
    ensures AddError(q, n).Some? ==> AddError(q, n).value in {InvalidParam, QueueFull}
  {
    FreeBound(q);
  }

  /** When `Add` does not refuse, the free list holds the descriptors it will use. */
  lemma AddFits(q: Queue, n: nat)
    requires AddError(q, n).None?
    ensures 1 <= DescsNeeded(q.indirect, n) <= |q.free|
  {
  }

  ghost predicate FreshTable(q: Queue, table: nat)
  {
    forall h | h in q.inflight :: q.inflight[h].table != Some(table)
  }

  lemma OwnsHead(size: nat, indirect: bool, free: seq<nat>, inflight: map<nat, Chain>, h: nat)
    requires Partition(size, indirect, free, inflight) && h in inflight
    ensures Owns(inflight, h, h) && h !in free && h < size
  {
    assert ChainOk(size, indirect, h, inflight[h]);
    assert inflight[h].descs[0] == h;
    assert Owns(inflight, h, h);
  }

  lemma OfferPartition(size: nat, indirect: bool, free: seq<nat>, inflight: map<nat, Chain>, n: nat, c: Chain)
    requires Partition(size, indirect, free, inflight) && 1 <= n <= |free|
    requires c.descs == free[..n] && ChainOk(size, indirect, free[0], c)
    ensures free[0] !in inflight
    ensures Partition(size, indirect, free[n..], inflight[free[0] := c])
  {
    var head, free', inflight' := free[0], free[n..], inflight[free[0] := c];
    DistinctSplit(free, n);
    if head in inflight {
      OwnsHead(size, indirect, free, inflight, head);
      assert false;
    }
    forall h, x | Owns(inflight', h, x)
      ensures x !in free' && (h != head ==> Owns(inflight, h, x) && x !in c.descs)
    {
      assert h != head ==> Owns(inflight, h, x);
    }
    forall x: nat | x < size ensures x in free' || exists h :: Owns(inflight', h, x) {
      if x in free[..n] {
        assert Owns(inflight', head, x);
      } else if x !in free' {
        assert x !in free;
        var h :| Owns(inflight, h, x);
        assert Owns(inflight', h, x);
      }
    }
  }

  lemma OfferBounds(q: Queue, segs: seq<Segment>, table: nat)
    requires Bounds(q) && AddError(q, |segs|).None?
    requires DescsNeeded(q.indirect, |segs|) <= |q.free| && q.free[0] !in q.inflight
    ensures Bounds(Offer(q, segs, table))
  {
  }

  lemma OfferLive(q: Queue, segs: seq<Segment>, table: nat)
    requires Progress(q) && AddError(q, |segs|).None?
    requires DescsNeeded(q.indirect, |segs|) <= |q.free| && q.free[0] !in q.inflight
    requires Bounds(Offer(q, segs, table))
    ensures LiveFlies(Offer(q, segs, table))
  {
    var q' := Offer(q, segs, table);
    forall k | q'.fetched <= k < |q'.offered| ensures Flies(q', q'.offered[k], k) {
      assert k < |q.offered| ==> Flies(q, q.offered[k], k);
    }
    forall h | h in q'.pending ensures !DoneFrom(q', 0, q'.inflight[h].serial) {
      assert !DoneFrom(q, 0, q.inflight[h].serial);
    }
    forall k | q'.popped <= k < |q'.done| ensures Flies(q', q'.done[k].head, q'.done[k].serial) {
      assert Flies(q, q.done[k].head, q.done[k].serial);
    }
  }

  lemma OfferFlies(q: Queue, segs: seq<Segment>, table: nat)
    requires Progress(q) && AddError(q, |segs|).None?
    requires DescsNeeded(q.indirect, |segs|) <= |q.free| && q.free[0] !in q.inflight
    requires Bounds(Offer(q, segs, table))
    ensures FliesLive(Offer(q, segs, table))
  {
    var q' := Offer(q, segs, table);
    forall f, s ensures DoneFrom(q', f, s) == DoneFrom(q, f, s) {
    }
    hide DoneFrom, Bounds;
    forall k | 0 <= k < q'.fetched
      ensures DoneFrom(q', 0, k) || (q'.offered[k] in q'.pending && Flies(q', q'.offered[k], k))
    {
      assert DoneFrom(q, 0, k) || (q.offered[k] in q.pending && Flies(q, q.offered[k], k));
    }
  }

  lemma OfferProgress(q: Queue, segs: seq<Segment>, table: nat)
    requires Progress(q) && AddError(q, |segs|).None?
    requires DescsNeeded(q.indirect, |segs|) <= |q.free| && q.free[0] !in q.inflight
    ensures Progress(Offer(q, segs, table))
  {
    OfferBounds(q, segs, table);
    OfferLive(q, segs, table);
    OfferFlies(q, segs, table);
  }

  lemma OfferLens(q: Queue, segs: seq<Segment>, table: nat)
    requires Progress(q) && LensFit(q) && AddError(q, |segs|).None?
    requires DescsNeeded(q.indirect, |segs|) <= |q.free| && q.free[0] !in q.inflight
    ensures LensFit(Offer(q, segs, table))
  {
    assert forall k | q.popped <= k < |q.done| :: Flies(q, q.done[k].head, q.done[k].serial);
  }

  lemma OfferInv(q: Queue, segs: seq<Segment>, table: nat)
    requires Inv(q) && AddError(q, |segs|).None? && ReadableFirst(segs)
    requires UsesTable(q.indirect, |segs|) ==> FreshTable(q, table)
    requires DescsNeeded(q.indirect, |segs|) <= |q.free|
    ensures Inv(Offer(q, segs, table))
  {
    hide Progress, LensFit;
    var n := DescsNeeded(q.indirect, |segs|);
    var c := Offer(q, segs, table).inflight[q.free[0]];
    assert ChainOk(q.size, q.indirect, q.free[0], c) by { DistinctSplit(q.free, n); }
    OfferPartition(q.size, q.indirect, q.free, q.inflight, n, c);
    OfferProgress(q, segs, table);
    OfferLens(q, segs, table);
  }

  lemma FetchProgress(q: Queue)
    requires Progress(q) && q.fetched < |q.offered|
    ensures q.offered[q.fetched] !in q.pending
    ensures Progress(Fetch(q))
  {
    var q' := Fetch(q);
    var head := q.offered[q.fetched];
    assert Flies(q, head, q.fetched);
    assert !DoneFrom(q, 0, q.fetched);
    forall f, s ensures DoneFrom(q', f, s) == DoneFrom(q, f, s) {
    }
    assert forall h, s :: Flies(q', h, s) == Flies(q, h, s);
  }

  lemma FetchInv(q: Queue)
    requires Inv(q) && q.fetched < |q.offered|
    ensures Inv(Fetch(q))
  {
    FetchProgress(q);
  }

  lemma DoneAfterComplete(q: Queue, head: nat, len: nat, from: nat, serial: nat)
    requires head in q.pending && head in q.inflight && from <= |q.done|
    ensures DoneFrom(Complete(q, head, len), from, serial)
            == (DoneFrom(q, from, serial) || serial == q.inflight[head].serial)
  {
    var q' := Complete(q, head, len);
    assert q'.done[|q.done|].serial == q.inflight[head].serial;
    if DoneFrom(q, from, serial) {
      var k :| from <= k < |q.done| && q.done[k].serial == serial;
      assert q'.done[k].serial == serial;
    }
  }

  lemma CompleteProgress(q: Queue, head: nat, len: nat)
    requires Progress(q) && head in q.pending
    ensures Progress(Complete(q, head, len))
  {
    var q' := Complete(q, head, len);
    var s := q.inflight[head].serial;
    assert !DoneFrom(q, 0, s);
    assert Bounds(q');
    forall t ensures DoneFrom(q', 0, t) == (DoneFrom(q, 0, t) || t == s)
                  && DoneFrom(q', q.popped, t) == (DoneFrom(q, q.popped, t) || t == s)
    {
      DoneAfterComplete(q, head, len, 0, t);
      DoneAfterComplete(q, head, len, q.popped, t);
    }
    assert LiveFlies(q') by {
      assert forall h, t :: Flies(q', h, t) == Flies(q, h, t);
    }
    assert FliesLive(q') by {
      assert forall h, t :: Flies(q', h, t) == Flies(q, h, t);
    }
  }

  lemma CompleteInv(q: Queue, head: nat, len: nat)
    requires Inv(q) && head in q.pending && head in q.inflight && len <= TotalLen(q.inflight[head].segs)
    ensures Inv(Complete(q, head, len))
  {
    hide Progress, Partition, TablesDistinct;
    CompleteProgress(q, head, len);
  }

  lemma TakePartition(size: nat, indirect: bool, free: seq<nat>, inflight: map<nat, Chain>, head: nat)
    requires Partition(size, indirect, free, inflight) && head in inflight
    ensures Partition(size, indirect, inflight[head].descs + free, inflight - {head})
  {
    var c := inflight[head];
    var free', inflight' := c.descs + free, inflight - {head};
    assert ChainOk(size, indirect, head, c);
    forall x | x in c.descs ensures x !in free { assert Owns(inflight, head, x); }
    DistinctConcat(c.descs, free);
    forall h, x | Owns(inflight', h, x) ensures Owns(inflight, h, x) && x !in free' {
      assert Owns(inflight, h, x);
      if x in c.descs {
        assert Owns(inflight, head, x);
      }
    }
    forall x: nat | x < size ensures x in free' || exists h :: Owns(inflight', h, x) {
      if x !in free' {
        var h :| Owns(inflight, h, x);
        assert Owns(inflight', h, x);
      }
    }
  }

  lemma TakeLive(q: Queue)
    requires Bounds(q) && LiveFlies(q) && CanPop(q)
    ensures Flies(q, q.done[q.popped].head, q.done[q.popped].serial)
    ensures Bounds(Take(q)) && LiveFlies(Take(q))
  {
    var serial := q.done[q.popped].serial;
    assert Flies(q, q.done[q.popped].head, serial);
    var q' := Take(q);
    assert DoneFrom(q, 0, serial);
    assert forall h, s | Flies(q, h, s) && s != serial :: Flies(q', h, s);
    forall s ensures DoneFrom(q', 0, s) == DoneFrom(q, 0, s) {
    }
  }

  lemma TakeProgress(q: Queue)
    requires Progress(q) && CanPop(q)
    ensures q.done[q.popped].head in q.inflight
    ensures Progress(Take(q))
  {
    TakeLive(q);
    hide LiveFlies;
    var q' := Take(q);
    forall k | 0 <= k < q'.fetched
      ensures DoneFrom(q', 0, k) || (q'.offered[k] in q'.pending && Flies(q', q'.offered[k], k))
    {
      assert DoneFrom(q', 0, k) == DoneFrom(q, 0, k);
      assert DoneFrom(q, 0, q.done[q.popped].serial);
    }
    forall h | h in q'.inflight && DoneFrom(q, q.popped, q.inflight[h].serial)
      ensures DoneFrom(q', q'.popped, q'.inflight[h].serial)
    {
      var k :| q.popped <= k < |q.done| && q.done[k].serial == q.inflight[h].serial;
      assert q.offered[q.inflight[h].serial] == h;
      assert k != q.popped;
    }
  }

  lemma TakeInv(q: Queue)
    requires Inv(q) && CanPop(q)
    ensures q.done[q.popped].head in q.inflight
    ensures Inv(Take(q))
  {
    hide Progress, Partition;
    TakeProgress(q);
    TakePartition(q.size, q.indirect, q.free, q.inflight, q.done[q.popped].head);
  }

  // ------------------------------------------------------------ every run

  datatype Step =
    | AddStep(inputs: seq<Buffer>, outputs: seq<Buffer>, table: nat)
    | FetchStep
    | CompleteStep(head: nat, len: nat)
    | PopStep(token: nat)

  /** What the environment keeps to: the heap hands out an unused table address, and the device
      reads only what is offered and completes only what it has read, with a length that fits. */
  ghost predicate Allowed(q: Queue, step: Step)
  {
    match step
    case AddStep(inputs, outputs, table) => FreshTable(q, table)
    case FetchStep => q.fetched < |q.offered|
    case CompleteStep(head, len) =>
      head in q.pending && head in q.inflight && len <= TotalLen(q.inflight[head].segs)
    case PopStep(_) => true
  }

  function Apply(q: Queue, step: Step): Queue
  {
    match step
    case AddStep(inputs, outputs, table) =>
      if AddError(q, |inputs| + |outputs|).None? then Offer(q, Segments(inputs, outputs), table) else q
    case FetchStep => if q.fetched < |q.offered| then Fetch(q) else q
    case CompleteStep(head, len) =>
      if head in q.pending && head in q.inflight then Complete(q, head, len) else q
    case PopStep(token) =>
      if CanPop(q) && q.done[q.popped].head == token && token in q.inflight then Take(q) else q
  }

  function Run(q: Queue, steps: seq<Step>): Queue
    decreases |steps|
  {
    if steps == [] then q else Run(Apply(q, steps[0]), steps[1..])
  }

  ghost predicate AllAllowed(q: Queue, steps: seq<Step>)
    decreases |steps|
  {
    steps != [] ==> Allowed(q, steps[0]) && AllAllowed(Apply(q, steps[0]), steps[1..])
  }

  lemma AddStepInv(q: Queue, inputs: seq<Buffer>, outputs: seq<Buffer>, table: nat)
    requires Inv(q) && FreshTable(q, table)
    ensures Inv(Apply(q, AddStep(inputs, outputs, table)))
  {
    if AddError(q, |inputs| + |outputs|).None? {
      SegmentsReadableFirst(inputs, outputs);
      OfferInv(q, Segments(inputs, outputs), table);
    }
  }

  lemma PopStepInv(q: Queue, token: nat)
    requires Inv(q)
    ensures Inv(Apply(q, PopStep(token)))
  {
    hide Inv;
    if CanPop(q) {
      TakeInv(q);
    }
  }

  lemma StepInv(q: Queue, step: Step)
    requires Inv(q) && Allowed(q, step)
    ensures Inv(Apply(q, step))
  {
    match step
    case AddStep(inputs, outputs, table) => AddStepInv(q, inputs, outputs, table);
    case FetchStep => FetchInv(q);
    case CompleteStep(head, len) => CompleteInv(q, head, len);
    case PopStep(token) => PopStepInv(q, token);
  }

  lemma StepGrows(q: Queue, step: Step)
    ensures Apply(q, step).size == q.size
    ensures q.done <= Apply(q, step).done && q.offered <= Apply(q, step).offered
    ensures q.asked <= Apply(q, step).asked && q.popped <= Apply(q, step).popped
  {
  }

  /** In-flight chains and free descriptors together are at most `size`, and outstanding ring
      entries are no more than the chains in flight. */
  lemma RingBounds(q: Queue)
    requires Inv(q)
    ensures q.popped <= |q.done| <= q.fetched <= |q.offered|
    ensures |q.offered| - q.popped == |q.inflight| <= q.size
    ensures |q.offered| - q.fetched <= q.size
    ensures |q.done| - q.popped <= q.size
  {
    forall h | h in q.inflight.Keys ensures h < q.size {
      OwnsHead(q.size, q.indirect, q.free, q.inflight, h);
    }
    DistinctBelow(q.inflight.Keys, q.size);
  }

  /** Over every run with the environment keeping to its part, descriptors stay partitioned, no
      more than `size` chains are between add and pop, so no ring entry still to be read is
      overwritten, and both sides' histories only grow. */
  lemma {:induction false} RunSafe(q: Queue, steps: seq<Step>)
    requires Inv(q) && AllAllowed(q, steps)
    ensures Inv(Run(q, steps)) && Run(q, steps).size == q.size
    ensures |Run(q, steps).offered| - Run(q, steps).popped <= q.size
    ensures q.done <= Run(q, steps).done && q.offered <= Run(q, steps).offered
    ensures q.asked <= Run(q, steps).asked && q.popped <= Run(q, steps).popped
    decreases |steps|
  {
    hide Inv, Apply, Allowed;
    if steps == [] {
      RingBounds(q);
    } else {
      StepInv(q, steps[0]);
      StepGrows(q, steps[0]);
      RunSafe(Apply(q, steps[0]), steps[1..]);
    }
  }

  ghost predicate Popped(q: Queue, serial: nat)
    requires q.popped <= |q.done|
  {
    exists k :: 0 <= k < q.popped && q.done[k].serial == serial
  }

  /** Every chain ever offered is either popped, exactly once and as the chain that was offered, or
      still in flight, and never both. */
  lemma ExactlyOnce(q: Queue, serial: nat)
    requires Inv(q) && serial < |q.offered|
    ensures Popped(q, serial) <==> !Flies(q, q.offered[serial], serial)
    ensures forall i, j | 0 <= i < q.popped && 0 <= j < q.popped
                          && q.done[i].serial == q.done[j].serial == serial :: i == j
    ensures forall k | 0 <= k < q.popped && q.done[k].serial == serial :: q.done[k].head == q.offered[serial]
  {
    var h := q.offered[serial];
    if Popped(q, serial) {
      var k :| 0 <= k < q.popped && q.done[k].serial == serial;
      assert !DoneFrom(q, q.popped, serial);
      assert DoneFrom(q, 0, serial);
    } else if serial < q.fetched && DoneFrom(q, 0, serial) {
      var k :| 0 <= k < |q.done| && q.done[k].serial == serial;
      assert q.popped <= k;
      assert Flies(q, q.done[k].head, serial);
    }
  }

  /** Popping a chain and then adding a single buffer hands out the popped token again, and leaves
      every other free descriptor where it was. */
  lemma PopThenAddReusesToken(q: Queue, seg: Segment, table: nat)
    requires Inv(q) && CanPop(q) && q.done[q.popped].head in q.inflight
    ensures var head := q.done[q.popped].head;
      && AddError(Take(q), 1).None? && Take(q).free != []
      && Offer(Take(q), [seg], table).offered == q.offered + [head]
      && Offer(Take(q), [seg], table).free == q.inflight[head].descs[1..] + q.free
  {
    hide Inv;
    TakeInv(q);
    FreeBound(Take(q));
    HeadIsFirst(q, q.done[q.popped].head);
    var descs := q.inflight[q.done[q.popped].head].descs;
    assert (descs + q.free)[1..] == descs[1..] + q.free;
  }

  lemma HeadIsFirst(q: Queue, head: nat)
    requires Inv(q) && head in q.inflight
    ensures q.inflight[head].descs != [] && q.inflight[head].descs[0] == head < q.size
  {
    OwnsHead(q.size, q.indirect, q.free, q.inflight, head);
    assert ChainOk(q.size, q.indirect, head, q.inflight[head]);
  }

  lemma NextOffered(q: Queue)
    requires Inv(q) && q.fetched < |q.offered|
    ensures q.offered[q.fetched] in q.inflight
  {
    assert Flies(q, q.offered[q.fetched], q.fetched);
  }

  /** A chain being processed leaves room for its completion in the used ring. */
  lemma PendingRoom(q: Queue, head: nat)
    requires Inv(q) && head in q.pending
    ensures q.popped <= |q.done| && |q.done| - q.popped < q.size
  {
    RingBounds(q);
    assert q.pending == (q.pending - {head}) + {head};
  }

  /** While a descriptor is free, the available ring has a free slot. */
  lemma OfferRoom(q: Queue)
    requires Inv(q) && q.free != []
    ensures q.fetched <= |q.offered| && |q.offered| - q.fetched < q.size
    ensures |q.inflight| < q.size
  {
    RingBounds(q);
    var all := q.inflight.Keys + {q.free[0]};
    forall h | h in all ensures h < q.size && q.free[0] !in q.inflight {
      assert q.free[0] in q.free;
      if h in q.inflight {
        OwnsHead(q.size, q.indirect, q.free, q.inflight, h);
      }
      if q.free[0] in q.inflight {
        OwnsHead(q.size, q.indirect, q.free, q.inflight, q.free[0]);
      }
    }
    assert q.free[0] in all;
    DistinctBelow(all, q.size);
  }

  lemma NextDone(q: Queue)
    requires Inv(q) && CanPop(q)
    ensures q.done[q.popped].head in q.inflight
    ensures q.done[q.popped].head < q.size
    ensures q.done[q.popped].len <= TotalLen(q.inflight[q.done[q.popped].head].segs)
  {
    assert Flies(q, q.done[q.popped].head, q.done[q.popped].serial);
    OwnsHead(q.size, q.indirect, q.free, q.inflight, q.done[q.popped].head);
  }

  lemma FreeBound(q: Queue)
    requires Inv(q)
    ensures |q.free| <= q.size
  {
    DistinctSize(q.free);
    DistinctBelow(Elements(q.free), q.size);
  }

  /** With one chain in flight, a chain being processed means no completion is waiting, and a
      waiting completion is the chain in flight. */
  lemma SingleChain(q: Queue, t: nat)
    requires Inv(q) && q.inflight.Keys == {t}
    ensures forall h | h in q.pending :: h == t && !CanPop(q)
    ensures CanPop(q) ==> q.done[q.popped].head == t
  {
    RingBounds(q);
    assert |q.inflight| == 1;
    if CanPop(q) {
      NextDone(q);
      assert |q.pending| == 0;
    }
  }

  lemma NoChain(q: Queue)
    requires Inv(q) && q.inflight == map[] && q.size >= 1
    ensures !CanPop(q) && q.pending == {} && q.free != []
  {
    RingBounds(q);
    assert forall h, x :: !Owns(q.inflight, h, x);
    assert 0 in q.free;
  }

  // ------------------------------------------------------- device activity

  /** The device's part of a run.  An action the device may not take is skipped. */
  datatype DeviceAction = DeviceFetch | DeviceComplete(head: nat, len: nat)

  function DeviceApply(q: Queue, a: DeviceAction): Queue
  {
    match a
    case DeviceFetch => if q.fetched < |q.offered| then Fetch(q) else q
    case DeviceComplete(head, len) =>
      if head in q.pending && head in q.inflight && len <= TotalLen(q.inflight[head].segs)
      then Complete(q, head, len) else q
  }

  function DeviceRun(q: Queue, actions: seq<DeviceAction>): Queue
    decreases |actions|
  {
    if actions == [] then q else DeviceRun(DeviceApply(q, actions[0]), actions[1..])
  }

  /** Whatever the device does, the driver's side stays put and completions only accumulate. */
  ghost predicate DriverSideKept(q: Queue, q': Queue)
  {
    && q'.size == q.size && q'.indirect == q.indirect && q'.free == q.free && q'.inflight == q.inflight
    && q'.offered == q.offered && q'.asked == q.asked && q'.popped == q.popped && q.done <= q'.done
  }

  lemma {:induction false} DeviceRunInv(q: Queue, actions: seq<DeviceAction>)
    requires Inv(q)
    ensures Inv(DeviceRun(q, actions)) && DriverSideKept(q, DeviceRun(q, actions))
    decreases |actions|
  {
    hide Inv;
    if actions != [] {
      DeviceApplyInv(q, actions[0]);
      DeviceRunInv(DeviceApply(q, actions[0]), actions[1..]);
    }
  }

  lemma DeviceApplyInv(q: Queue, a: DeviceAction)
    requires Inv(q)
    ensures Inv(DeviceApply(q, a)) && DriverSideKept(q, DeviceApply(q, a))
  {
    hide Inv;
    match a
    case DeviceFetch =>
      if q.fetched < |q.offered| {
        FetchInv(q);
      }
    case DeviceComplete(head, len) =>
      if head in q.pending && head in q.inflight && len <= TotalLen(q.inflight[head].segs) {
        CompleteInv(q, head, len);
      }
  }
}
