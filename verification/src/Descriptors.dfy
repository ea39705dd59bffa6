/** Descriptor tables: how a chain is laid out in memory, and how a device reads it back. */
module Descriptors {
  import opened Sequences
  import opened QueueProtocol

  /** `DescFlags`: NEXT, WRITE and INDIRECT. */
  datatype Flags = Flags(next: bool, write: bool, indirect: bool)

  datatype Descriptor = Descriptor(addr: nat, len: nat, flags: Flags, next: nat)

  const ZERO_DESCRIPTOR := Descriptor(0, 0, Flags(false, false, false), 0)

  /** `size_of::<Descriptor>()`, the entry size of an indirect table. */
  const DESCRIPTOR_BYTES: nat := 16

  function SetBuf(d: Descriptor, seg: Segment): Descriptor
  {
    d.(addr := seg.buf.addr, len := seg.buf.len, flags := Flags(true, seg.dir == DeviceToDriver, false))
  }

  function UnsetBuf(d: Descriptor): Descriptor
  {
    d.(addr := 0, len := 0)
  }

  function EndChain(d: Descriptor): Descriptor
  {
    d.(flags := d.flags.(next := false))
  }

  function NextOf(d: Descriptor): Option<nat>
  {
    if d.flags.next then Some(d.next) else None
  }

  // ---------------------------------------------------------------- layout

  predicate Describes(d: Descriptor, seg: Segment, more: bool)
  {
    d.addr == seg.buf.addr && d.len == seg.buf.len
    && d.flags == Flags(more, seg.dir == DeviceToDriver, false)
  }

  predicate InTable(descs: seq<nat>, size: nat)
  {
    forall j | 0 <= j < |descs| :: descs[j] < size
  }

  /** The segments lie in `table` at positions `descs`, each linked to the next. */
  predicate DirectLayout(table: seq<Descriptor>, descs: seq<nat>, segs: seq<Segment>)
  {
    && |descs| == |segs| && InTable(descs, |table|)
    && (forall j | 0 <= j < |descs| :: Describes(table[descs[j]], segs[j], j + 1 < |descs|))
    && (forall j | 0 <= j < |descs| - 1 :: table[descs[j]].next == descs[j + 1])
  }

  /** The segments fill an indirect table from its start. */
  predicate TableLayout(table: seq<Descriptor>, segs: seq<Segment>)
  {
    && |table| == |segs|
    && (forall j | 0 <= j < |table| :: Describes(table[j], segs[j], j + 1 < |table|))
    && (forall j | 0 <= j < |table| :: table[j].next == j + 1)
  }

  /** The single descriptor that refers to an indirect table. */
  predicate RefersTo(d: Descriptor, addr: nat, entries: nat)
  {
    d.addr == addr && d.len == DESCRIPTOR_BYTES * entries && d.flags == Flags(false, false, true)
  }

  // ----------------------------------------------------------- device walk

  /** Device memory: what it reads at an address. */
  type Memory = (nat, nat) -> seq<int>

  /** What a device makes of a chain: the bytes it reads, and the buffers it may write. */
  datatype Request = Request(input: seq<int>, writable: seq<Buffer>)

  /** Follows NEXT links from `i`.  A device would follow a cyclic chain for ever; `steps` bounds
      the walk, and `None` stands for a walk that leaves the table or exceeds the bound. */
  function WalkDirect(table: seq<Descriptor>, i: nat, steps: nat): Option<seq<Descriptor>>
    decreases steps
  {
    if steps == 0 || i >= |table| then None
    else
      match NextOf(table[i])
      case None => Some([table[i]])
      case Some(n) =>
        match WalkDirect(table, n, steps - 1)
        case None => None
        case Some(rest) => Some([table[i]] + rest)
  }

  /** Reads descriptors until the first device-writable one. */
  function ReadPhase(ds: seq<Descriptor>, mem: Memory): seq<int>
  {
    if ds == [] || ds[0].flags.write then [] else mem(ds[0].addr, ds[0].len) + ReadPhase(ds[1..], mem)
  }

  /** The descriptors left for writing; `None` if a readable one is among them, which a device
      rejects. */
  function WritePhase(ds: seq<Descriptor>): Option<seq<Buffer>>
  {
    if ds == [] then Some([])
    else if !ds[0].flags.write then WritePhase(ds[1..])
    else if forall j | 0 <= j < |ds| :: ds[j].flags.write
    then Some(seq(|ds|, j requires 0 <= j < |ds| => Buffer(ds[j].addr, ds[j].len)))
    else None
  }

  function Interpret(ds: seq<Descriptor>, mem: Memory): Option<Request>
  {
    match WritePhase(ds)
    case None => None
    case Some(w) => Some(Request(ReadPhase(ds, mem), w))
  }

  /** The descriptors a device finds at `head`: an INDIRECT descriptor sends it to the table at its
      address, which it reads to the end; otherwise it follows the links. */
  function DeviceChain(table: seq<Descriptor>, tables: map<nat, seq<Descriptor>>, head: nat): Option<seq<Descriptor>>
  {
    if head >= |table| then None
    else if table[head].flags.indirect then
      if table[head].flags != Flags(false, false, true) || table[head].addr !in tables
         || table[head].len != DESCRIPTOR_BYTES * |tables[table[head].addr]| then None
      else Some(tables[table[head].addr])
    else WalkDirect(table, head, |table|)
  }

  function DeviceRequest(
    table: seq<Descriptor>, tables: map<nat, seq<Descriptor>>, head: nat, mem: Memory): Option<Request>
  {
    match DeviceChain(table, tables, head)
    case None => None
    case Some(ds) => Interpret(ds, mem)
  }

  function ByteCount(ds: seq<Descriptor>): nat
  {
    if ds == [] then 0 else ds[0].len + ByteCount(ds[1..])
  }

  function Gather(bufs: seq<Buffer>, mem: Memory): seq<int>
  {
    if bufs == [] then [] else mem(bufs[0].addr, bufs[0].len) + Gather(bufs[1..], mem)
  }

  /** The meaning a driver gives to a chain: inputs concatenated in order, then the outputs. */
  function Meaning(inputs: seq<Buffer>, outputs: seq<Buffer>, mem: Memory): Request
  {
    Request(Gather(inputs, mem), outputs)
  }

  predicate AreSegments(ds: seq<Descriptor>, segs: seq<Segment>)
  {
    && |ds| == |segs|
    && forall j | 0 <= j < |ds| ::
         ds[j].addr == segs[j].buf.addr && ds[j].len == segs[j].buf.len
         && ds[j].flags.write == (segs[j].dir == DeviceToDriver)
  }

  lemma {:induction false} InterpretSegments(
    ds: seq<Descriptor>, inputs: seq<Buffer>, outputs: seq<Buffer>, mem: Memory)
    requires AreSegments(ds, Segments(inputs, outputs))
    ensures Interpret(ds, mem) == Some(Meaning(inputs, outputs, mem))
    decreases |inputs|
  {
    var segs := Segments(inputs, outputs);
    if inputs == [] {
      assert forall j | 0 <= j < |ds| :: segs[j] == Segment(outputs[j], DeviceToDriver) by {
        forall j | 0 <= j < |ds| ensures segs[j] == Segment(outputs[j], DeviceToDriver) {
          assert segs[|inputs| + j] == Segment(outputs[j], DeviceToDriver);
        }
      }
      if ds != [] {
        assert seq(|ds|, j requires 0 <= j < |ds| => Buffer(ds[j].addr, ds[j].len)) == outputs;
      }
    } else {
      assert segs[0] == Segment(inputs[0], DriverToDevice);
      assert segs[1..] == Segments(inputs[1..], outputs);
      InterpretSegments(ds[1..], inputs[1..], outputs, mem);
    }
  }

  /** Walking a laid-out chain from its head visits exactly its descriptors in order. */
  lemma {:induction false} WalkFollows(table: seq<Descriptor>, descs: seq<nat>, segs: seq<Segment>, j: nat, steps: nat)
    requires DirectLayout(table, descs, segs) && j < |descs| && |descs| - j <= steps
    ensures WalkDirect(table, descs[j], steps)
         == Some(seq(|descs| - j, i requires 0 <= i < |descs| - j => table[descs[j + i]]))
    decreases |descs| - j
  {
    assert Describes(table[descs[j]], segs[j], j + 1 < |descs|);
    var all := seq(|descs| - j, i requires 0 <= i < |descs| - j => table[descs[j + i]]);
    if j + 1 < |descs| {
      WalkFollows(table, descs, segs, j + 1, steps - 1);
      var rest := seq(|descs| - j - 1, i requires 0 <= i < |descs| - j - 1 => table[descs[j + 1 + i]]);
      assert all == [table[descs[j]]] + rest;
    } else {
      assert all == [table[descs[j]]];
    }
  }

  lemma {:induction false} ByteCountSegments(ds: seq<Descriptor>, segs: seq<Segment>)
    requires AreSegments(ds, segs)
    ensures ByteCount(ds) == TotalLen(segs)
  {
    if ds != [] {
      ByteCountSegments(ds[1..], segs[1..]);
    }
  }

  /** What a device finds at the head of a chain built without a table. */
  lemma DirectChain(
    table: seq<Descriptor>, tables: map<nat, seq<Descriptor>>, descs: seq<nat>, segs: seq<Segment>)
    requires DirectLayout(table, descs, segs) && 1 <= |descs| <= |table|
    ensures DeviceChain(table, tables, descs[0]).Some?
    ensures AreSegments(DeviceChain(table, tables, descs[0]).value, segs)
  {
    WalkFollows(table, descs, segs, 0, |table|);
    assert forall j | 0 <= j < |descs| :: Describes(table[descs[j]], segs[j], j + 1 < |descs|);
  }

  /** For every list of inputs and outputs, a chain built on linked descriptors and a chain built
      in an indirect table mean the same to the device: the inputs concatenated in order, then the
      writable buffers in order. */
  lemma SameMeaning(
    table: seq<Descriptor>, descs: seq<nat>,
    table': seq<Descriptor>, head: nat, addr: nat, tables: map<nat, seq<Descriptor>>,
    inputs: seq<Buffer>, outputs: seq<Buffer>, mem: Memory)
    requires DirectLayout(table, descs, Segments(inputs, outputs)) && 1 <= |descs| <= |table|
    requires head < |table'| && addr in tables && TableLayout(tables[addr], Segments(inputs, outputs))
    requires RefersTo(table'[head], addr, |tables[addr]|)
    ensures DeviceRequest(table, tables, descs[0], mem)
         == DeviceRequest(table', tables, head, mem)
         == Some(Meaning(inputs, outputs, mem))
  {
    DirectChain(table, tables, descs, Segments(inputs, outputs));
    InterpretSegments(DeviceChain(table, tables, descs[0]).value, inputs, outputs, mem);
    InterpretSegments(tables[addr], inputs, outputs, mem);
  }
}
