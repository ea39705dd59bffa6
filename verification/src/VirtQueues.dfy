/** The driver's virtqueue: a free list threaded through a shadow descriptor table, the table and
    rings shared with the device, and 16-bit wrapping counters.

    The ghost field `q` is the protocol state the memory represents.  `Valid` is that
    representation, and every method moves `q` by one protocol step. */
module VirtQueues {
  import opened Sequences
  import opened RingIndex
  import opened QueueProtocol
  import opened Descriptors

  datatype UsedElem = UsedElem(id: nat, len: nat)

  // -------------------------------------------------------- representation

  /** `head` starts a list linked through `next`.  The list is not terminated: only its length says
      where it ends, and the last `next` may be stale. */
  predicate FreeLinks(shadow: seq<Descriptor>, head: nat, free: seq<nat>)
  {
    && InTable(free, |shadow|)
    && (|free| > 0 ==> head == free[0])
    && (forall j | 0 <= j < |free| - 1 :: shadow[free[j]].next == free[j + 1])
  }

  predicate LaidOut(
    shadow: seq<Descriptor>, lists: seq<Option<seq<Descriptor>>>, tables: map<nat, seq<Descriptor>>,
    h: nat, c: Chain)
    requires h < |shadow| == |lists|
  {
    match c.table
    case None => lists[h] == None && DirectLayout(shadow, c.descs, c.segs)
    case Some(addr) =>
      && c.descs == [h] && RefersTo(shadow[h], addr, |c.segs|)
      && lists[h].Some? && TableLayout(lists[h].value, c.segs)
      && addr in tables && tables[addr] == lists[h].value
  }

  predicate Shared(shadow: seq<Descriptor>, desc: seq<Descriptor>, c: Chain)
    requires |shadow| == |desc|
  {
    forall j | 0 <= j < |c.descs| :: c.descs[j] < |shadow| && desc[c.descs[j]] == shadow[c.descs[j]]
  }

  ghost predicate TablesRep(
    shadow: seq<Descriptor>, desc: seq<Descriptor>, lists: seq<Option<seq<Descriptor>>>,
    tables: map<nat, seq<Descriptor>>, inflight: map<nat, Chain>)
  {
    && |shadow| == |desc| == |lists|
    && (forall h | h in inflight ::
          h < |shadow| && LaidOut(shadow, lists, tables, h, inflight[h]) && Shared(shadow, desc, inflight[h]))
    && (forall x | 0 <= x < |lists| && x !in inflight :: lists[x] == None)
  }

  ghost predicate AvailRep(avail: seq<nat>, size: nat, offered: seq<nat>, fetched: nat)
  {
    && |avail| == size >= 1
    && forall k | fetched <= k < |offered| :: avail[k % size] == offered[k]
  }

  ghost predicate UsedRep(used: seq<UsedElem>, size: nat, done: seq<Completion>, popped: nat)
  {
    && |used| == size >= 1
    && forall k | popped <= k < |done| :: used[k % size] == UsedElem(done[k].head, done[k].len)
  }

  /** The device holds the chains it is processing, as the driver described them. */
  ghost predicate ClaimedRep(claimed: map<nat, seq<Descriptor>>, pending: set<nat>, inflight: map<nat, Chain>)
  {
    && claimed.Keys == pending
    && forall h | h in claimed :: h in inflight && AreSegments(claimed[h], inflight[h].segs)
  }

  /** Offering a chain leaves the chains being processed alone. */
  lemma ClaimedKept(claimed: map<nat, seq<Descriptor>>, q: Queue, segs: seq<Segment>, table: nat)
    requires Inv(q) && ClaimedRep(claimed, q.pending, q.inflight)
    requires AddError(q, |segs|).None? && AddFitsIn(q, |segs|)
    ensures ClaimedRep(claimed, q.pending, Offer(q, segs, table).inflight)
  {
    OfferFacts(q, segs, table);
  }

  /** The chain an offer creates sits on the front of the free list. */
  lemma OfferFacts(q: Queue, segs: seq<Segment>, table: nat)
    requires Inv(q) && AddError(q, |segs|).None? && AddFitsIn(q, |segs|)
    ensures q.free[0] !in q.inflight && q.free[0] < q.size
    ensures Distinct(q.free)
    ensures Partition(q.size, q.indirect, q.free, q.inflight)
    ensures forall x | x in Offer(q, segs, table).inflight[q.free[0]].descs :: x in q.free
  {
    assert q.free[0] in q.free;
    if q.free[0] in q.inflight {
      OwnsHead(q.size, q.indirect, q.free, q.inflight, q.free[0]);
      assert false;
    }
  }

  lemma HeadUnlisted(
    shadow: seq<Descriptor>, desc: seq<Descriptor>, lists: seq<Option<seq<Descriptor>>>,
    tables: map<nat, seq<Descriptor>>, q: Queue)
    requires TablesRep(shadow, desc, lists, tables, q.inflight)
    requires |q.free| >= 1 && q.free[0] < |lists| && q.free[0] !in q.inflight
    ensures lists[q.free[0]] == None
  {
  }

  lemma Claim(
    claimed: map<nat, seq<Descriptor>>, pending: set<nat>, inflight: map<nat, Chain>, h: nat, ds: seq<Descriptor>)
    requires ClaimedRep(claimed, pending, inflight) && h in inflight && AreSegments(ds, inflight[h].segs)
    ensures ClaimedRep(claimed[h := ds], pending + {h}, inflight)
  {
  }

  /** A completed chain is not being processed, so taking it back leaves those that are. */
  lemma ClaimedTaken(claimed: map<nat, seq<Descriptor>>, q: Queue)
    requires Inv(q) && CanPop(q) && ClaimedRep(claimed, q.pending, q.inflight)
    requires q.done[q.popped].head in q.inflight
    ensures ClaimedRep(claimed, q.pending, Take(q).inflight)
  {
    hide Partition, TablesDistinct, LensFit, AreSegments;
    assert DoneFrom(q, 0, q.done[q.popped].serial);
    assert Flies(q, q.done[q.popped].head, q.done[q.popped].serial);
  }

  lemma Unclaim(claimed: map<nat, seq<Descriptor>>, pending: set<nat>, inflight: map<nat, Chain>, h: nat)
    requires ClaimedRep(claimed, pending, inflight)
    ensures ClaimedRep(claimed - {h}, pending - {h}, inflight)
  {
  }

  // ------------------------------------------------------------- the rings

  lemma AvailPush(avail: seq<nat>, size: nat, offered: seq<nat>, fetched: nat, head: nat)
    requires AvailRep(avail, size, offered, fetched) && fetched <= |offered| && |offered| - fetched < size
    ensures AvailRep(avail[|offered| % size := head], size, offered + [head], fetched)
  {
    forall k | fetched <= k < |offered| ensures k % size != |offered| % size {
      SlotsDistinct(k, |offered|, size);
    }
  }

  lemma AvailNext(avail: seq<nat>, size: nat, offered: seq<nat>, fetched: nat)
    requires AvailRep(avail, size, offered, fetched) && fetched < |offered|
    ensures |avail| == size >= 1 && avail[fetched % size] == offered[fetched]
    ensures AvailRep(avail, size, offered, fetched + 1)
  {
  }

  lemma UsedNext(used: seq<UsedElem>, size: nat, done: seq<Completion>, popped: nat)
    requires UsedRep(used, size, done, popped) && popped < |done|
    ensures |used| == size >= 1 && used[popped % size] == UsedElem(done[popped].head, done[popped].len)
    ensures UsedRep(used, size, done, popped + 1)
  {
  }

  lemma UsedPush(used: seq<UsedElem>, size: nat, done: seq<Completion>, popped: nat, c: Completion)
    requires UsedRep(used, size, done, popped) && popped <= |done| && |done| - popped < size
    ensures UsedRep(used[|done| % size := UsedElem(c.head, c.len)], size, done + [c], popped)
  {
    forall k | popped <= k < |done| ensures k % size != |done| % size {
      SlotsDistinct(k, |done|, size);
    }
  }

  /** What the device finds at the head of any chain in flight is what the driver offered. */
  lemma DeviceSees(
    shadow: seq<Descriptor>, desc: seq<Descriptor>, lists: seq<Option<seq<Descriptor>>>,
    tables: map<nat, seq<Descriptor>>, q: Queue, h: nat)
    requires |shadow| == q.size && TablesRep(shadow, desc, lists, tables, q.inflight)
    requires Inv(q) && h in q.inflight
    ensures DeviceChain(desc, tables, h).Some?
    ensures AreSegments(DeviceChain(desc, tables, h).value, q.inflight[h].segs)
  {
    var c := q.inflight[h];
    assert ChainOk(q.size, q.indirect, h, c);
    assert LaidOut(shadow, lists, tables, h, c) && Shared(shadow, desc, c);
    if c.table.None? {
      DirectChain(desc, tables, c.descs, c.segs);
    } else {
      assert desc[c.descs[0]] == shadow[c.descs[0]];
    }
  }

  lemma LiveTables(
    shadow: seq<Descriptor>, desc: seq<Descriptor>, lists: seq<Option<seq<Descriptor>>>,
    tables: map<nat, seq<Descriptor>>, q: Queue)
    requires TablesRep(shadow, desc, lists, tables, q.inflight)
    ensures forall h | h in q.inflight && q.inflight[h].table.Some? :: q.inflight[h].table.value in tables
  {
    forall h | h in q.inflight && q.inflight[h].table.Some? ensures q.inflight[h].table.value in tables {
      assert LaidOut(shadow, lists, tables, h, q.inflight[h]);
    }
  }

  // ------------------------------------------------- tables after each step

  /** Chains that avoid every rewritten descriptor are still laid out and shared. */
  lemma ChainKept(
    shadow: seq<Descriptor>, desc: seq<Descriptor>, lists: seq<Option<seq<Descriptor>>>,
    tables: map<nat, seq<Descriptor>>,
    shadow': seq<Descriptor>, desc': seq<Descriptor>, lists': seq<Option<seq<Descriptor>>>,
    tables': map<nat, seq<Descriptor>>, h: nat, c: Chain)
    requires |shadow| == |desc| == |lists| == |shadow'| == |desc'| == |lists'| && h < |shadow|
    requires LaidOut(shadow, lists, tables, h, c) && Shared(shadow, desc, c)
    requires c.descs != [] && c.descs[0] == h && lists'[h] == lists[h]
    requires forall j | 0 <= j < |c.descs| ::
               && c.descs[j] < |shadow| && shadow'[c.descs[j]] == shadow[c.descs[j]]
               && desc'[c.descs[j]] == desc[c.descs[j]]
    requires c.table.Some? ==> c.table.value in tables' && c.table.value in tables
                               && tables'[c.table.value] == tables[c.table.value]
    ensures LaidOut(shadow', lists', tables', h, c) && Shared(shadow', desc', c)
  {
  }

  predicate AddFitsIn(q: Queue, n: nat)
  {
    1 <= DescsNeeded(q.indirect, n) <= |q.free|
  }

  const U32: nat := 0x1_0000_0000

  /** Buffers must not be empty, and their length must fit a descriptor. */
  predicate Usable(segs: seq<Segment>)
  {
    forall i | 0 <= i < |segs| :: 0 < segs[i].buf.len < U32
  }

  ghost predicate AllUsable(inflight: map<nat, Chain>)
  {
    forall h | h in inflight :: Usable(inflight[h].segs)
  }

  lemma UsableOffered(q: Queue, segs: seq<Segment>, table: nat)
    requires AddError(q, |segs|).None? && AddFitsIn(q, |segs|) && AllUsable(q.inflight) && Usable(segs)
    ensures AllUsable(Offer(q, segs, table).inflight)
  {
    hide Usable;
  }

  lemma UsableTaken(inflight: map<nat, Chain>, h: nat)
    requires AllUsable(inflight)
    ensures AllUsable(inflight - {h})
  {
  }

  /** Only the descriptors in `touched` differ. */
  predicate SameExcept<T(==)>(old': seq<T>, new': seq<T>, touched: seq<nat>)
  {
    |old'| == |new'| && forall x | 0 <= x < |old'| && x !in touched :: new'[x] == old'[x]
  }

  lemma LayoutLengths(table: seq<Descriptor>, descs: seq<nat>, segs: seq<Segment>)
    requires DirectLayout(table, descs, segs)
    ensures |descs| == |segs| && InTable(descs, |table|)
  {
  }

  lemma TableLength(table: seq<Descriptor>, segs: seq<Segment>)
    requires TableLayout(table, segs)
    ensures |table| == |segs|
  {
  }

  lemma SameExceptRefl<T>(s: seq<T>, touched: seq<nat>)
    ensures SameExcept(s, s, touched)
  {
  }

  /** The first `k` segments have been written to the first `k` free descriptors. */
  ghost predicate Filled(before: seq<Descriptor>, now: seq<Descriptor>, free: seq<nat>, segs: seq<Segment>, k: nat)
  {
    && k <= |segs| <= |free| && |before| == |now| && InTable(free, |now|)
    && SameExcept(before, now, free[..k])
    && forall j | 0 <= j < k :: now[free[j]] == SetBuf(before[free[j]], segs[j])
  }

  lemma FilledStep(before: seq<Descriptor>, now: seq<Descriptor>, free: seq<nat>, segs: seq<Segment>, k: nat)
    requires Filled(before, now, free, segs, k) && Distinct(free) && k < |segs|
    ensures now[free[k]] == before[free[k]]
    ensures Filled(before, now[free[k] := SetBuf(now[free[k]], segs[k])], free, segs, k + 1)
  {
    DistinctSplit(free, k);
    assert free[k] == free[k..][0];
    assert free[..k + 1] == free[..k] + [free[k]];
  }

  /** The shared table has what the driver wrote to the first `k` free descriptors, and nothing else new. */
  ghost predicate Mirrored(
    before: seq<Descriptor>, desc: seq<Descriptor>, shadow: seq<Descriptor>, free: seq<nat>, k: nat)
  {
    && k <= |free| && |desc| == |shadow| && InTable(free, |shadow|)
    && (forall j | 0 <= j < k :: desc[free[j]] == shadow[free[j]])
    && SameExcept(before, desc, free[..k])
  }

  lemma MirroredNone(desc: seq<Descriptor>, shadow: seq<Descriptor>, free: seq<nat>)
    requires |desc| == |shadow| && InTable(free, |shadow|)
    ensures Mirrored(desc, desc, shadow, free, 0)
  {
  }

  lemma MirroredStep(
    before: seq<Descriptor>, desc: seq<Descriptor>, shadow: seq<Descriptor>, free: seq<nat>, k: nat, d: Descriptor)
    requires Mirrored(before, desc, shadow, free, k) && k < |free|
    ensures Mirrored(before, desc[free[k] := d], shadow[free[k] := d], free, k + 1)
  {
    assert free[..k + 1] == free[..k] + [free[k]];
  }

  lemma MirroredAgain(
    before: seq<Descriptor>, desc: seq<Descriptor>, shadow: seq<Descriptor>, free: seq<nat>, k: nat, d: Descriptor)
    requires Mirrored(before, desc, shadow, free, k) && 0 < k
    ensures Mirrored(before, desc[free[k - 1] := d], shadow[free[k - 1] := d], free, k)
  {
    assert free[k - 1] == free[..k][k - 1];
  }

  lemma FilledEnd(before: seq<Descriptor>, now: seq<Descriptor>, head: nat, free: seq<nat>, segs: seq<Segment>)
    requires Filled(before, now, free, segs, |segs|) && Distinct(free) && |segs| >= 1
    requires FreeLinks(before, head, free)
    ensures var last := free[|segs| - 1];
            var after := now[last := EndChain(now[last])];
      && FreeLinks(after, now[last].next, free[|segs|..])
      && DirectLayout(after, free[..|segs|], segs)
      && SameExcept(before, after, free[..|segs|])
  {
    hide Distinct;
    var n := |segs|;
    var last := free[n - 1];
    assert free[..n][n - 1] == last;
    var after := now[last := EndChain(now[last])];
    FilledAt(before, now, free, segs);
    FilledRest(before, after, now[last].next, head, free, n);
  }

  /** The chain that was filled in, once its last descriptor ends it. */
  lemma FilledAt(before: seq<Descriptor>, now: seq<Descriptor>, free: seq<nat>, segs: seq<Segment>)
    requires Filled(before, now, free, segs, |segs|) && Distinct(free) && |segs| >= 1
    requires forall j | 0 <= j < |free| - 1 :: free[j] < |before| && before[free[j]].next == free[j + 1]
    ensures var last := free[|segs| - 1];
            var after := now[last := EndChain(now[last])];
            now[last].next == before[last].next && DirectLayout(after, free[..|segs|], segs)
  {
    hide SameExcept;
    var n := |segs|;
    var last, used := free[n - 1], free[..n];
    var after := now[last := EndChain(now[last])];
    forall j | 0 <= j < n
      ensures Describes(after[used[j]], segs[j], j + 1 < n) && after[used[j]].next == before[used[j]].next
    {
      assert used[j] == free[j];
    }
  }

  /** What is left of the free list is linked as it was. */
  lemma FilledRest(before: seq<Descriptor>, after: seq<Descriptor>, next: nat, head: nat, free: seq<nat>, n: nat)
    requires FreeLinks(before, head, free) && Distinct(free) && 1 <= n <= |free| && SameExcept(before, after, free[..n])
    requires free[n - 1] < |before| && next == before[free[n - 1]].next
    ensures FreeLinks(after, next, free[n..])
  {
    DistinctSplit(free, n);
    var rest, used := free[n..], free[..n];
    forall j | 0 <= j < |rest| ensures rest[j] == free[n + j] && after[rest[j]] == before[rest[j]] {
      assert rest[j] !in used;
    }
  }

  /** The first `k` descriptors of a chain have been emptied, keeping their links; the last of the
      chain is linked to `tail`. */
  ghost predicate Emptied(before: seq<Descriptor>, now: seq<Descriptor>, descs: seq<nat>, tail: nat, k: nat)
  {
    && k <= |descs| && |before| == |now| && InTable(descs, |now|)
    && SameExcept(before, now, descs[..k])
    && forall j | 0 <= j < k ::
         now[descs[j]] == UnsetBuf(before[descs[j]]).(next := if j + 1 < |descs| then before[descs[j]].next else tail)
  }

  lemma EmptiedStep(
    before: seq<Descriptor>, now: seq<Descriptor>, descs: seq<nat>, segs: seq<Segment>, tail: nat, k: nat)
    requires Emptied(before, now, descs, tail, k) && Distinct(descs) && k < |descs|
    requires DirectLayout(before, descs, segs)
    ensures now[descs[k]] == before[descs[k]]
    ensures NextOf(now[descs[k]]) == if k + 1 < |descs| then Some(descs[k + 1]) else None
    ensures var d := UnsetBuf(now[descs[k]]);
            Emptied(before, now[descs[k] := if NextOf(d).None? then d.(next := tail) else d], descs, tail, k + 1)
  {
    DistinctSplit(descs, k);
    assert descs[k] == descs[k..][0];
    assert descs[..k + 1] == descs[..k] + [descs[k]];
    assert Describes(before[descs[k]], segs[k], k + 1 < |descs|);
  }

  /** The emptied chain, in front of the old free list, is the new free list. */
  lemma EmptiedEnd(
    before: seq<Descriptor>, now: seq<Descriptor>, descs: seq<nat>, segs: seq<Segment>, tail: nat, free: seq<nat>)
    requires Emptied(before, now, descs, tail, |descs|) && descs != []
    requires FreeLinks(before, tail, free) && DirectLayout(before, descs, segs)
    requires forall x | x in descs :: x !in free
    ensures FreeLinks(now, descs[0], descs + free)
    ensures SameExcept(before, now, descs)
  {
    var all := descs + free;
    assert descs[..|descs|] == descs;
    forall j | 0 <= j < |all| - 1 ensures now[all[j]].next == all[j + 1] {
      if j >= |descs| {
        assert free[j - |descs|] !in descs;
      }
    }
  }

  /** Freeing the one descriptor of an indirect chain. */
  lemma FreeOne(before: seq<Descriptor>, h: nat, d: Descriptor, tail: nat, free: seq<nat>)
    requires FreeLinks(before, tail, free) && h < |before| && h !in free && d.next == tail
    ensures FreeLinks(before[h := d], h, [h] + free)
    ensures SameExcept(before, before[h := d], [h])
  {
    var all := [h] + free;
    forall j | 0 <= j < |all| - 1 ensures before[h := d][all[j]].next == all[j + 1] {
      if j > 0 {
        assert free[j - 1] != h;
      }
    }
  }

  /** A chain in flight, as the recycling code needs it. */
  lemma ChainFacts(
    shadow: seq<Descriptor>, desc: seq<Descriptor>, lists: seq<Option<seq<Descriptor>>>,
    tables: map<nat, seq<Descriptor>>, q: Queue, h: nat)
    requires |shadow| == q.size && TablesRep(shadow, desc, lists, tables, q.inflight)
    requires Inv(q) && h in q.inflight
    ensures h < q.size && Partition(q.size, q.indirect, q.free, q.inflight) && TablesDistinct(q.inflight)
    ensures LaidOut(shadow, lists, tables, h, q.inflight[h])
    ensures var c := q.inflight[h];
      && c.descs != [] && c.descs[0] == h && Distinct(c.descs) && h !in q.free
      && (forall x | x in c.descs :: x !in q.free)
      && |c.descs| + |q.free| <= q.size
      && c.table.Some? == shadow[h].flags.indirect
  {
    var c := q.inflight[h];
    assert ChainOk(q.size, q.indirect, h, c);
    assert LaidOut(shadow, lists, tables, h, c);
    forall x | x in c.descs ensures x !in q.free { assert Owns(q.inflight, h, x); }
    DistinctConcat(c.descs, q.free);
    DistinctSize(c.descs + q.free);
    DistinctBelow(Elements(c.descs + q.free), q.size);
    assert c.table.None? ==> Describes(shadow[c.descs[0]], c.segs[0], 1 < |c.descs|);
  }

  /** The tables represent the queue after a chain was laid out on free descriptors. */
  lemma OfferTables(
    shadow: seq<Descriptor>, desc: seq<Descriptor>, lists: seq<Option<seq<Descriptor>>>,
    tables: map<nat, seq<Descriptor>>,
    shadow': seq<Descriptor>, desc': seq<Descriptor>, lists': seq<Option<seq<Descriptor>>>,
    tables': map<nat, seq<Descriptor>>,
    q: Queue, c: Chain)
    requires |shadow| == q.size && TablesRep(shadow, desc, lists, tables, q.inflight)
    requires Partition(q.size, q.indirect, q.free, q.inflight)
    requires c.descs != [] && forall x | x in c.descs :: x in q.free
    requires SameExcept(shadow, shadow', c.descs) && SameExcept(desc, desc', c.descs)
    requires SameExcept(lists, lists', [c.descs[0]])
    requires forall t | t in tables :: t in tables' && (c.table != Some(t) ==> tables'[t] == tables[t])
    requires c.table.Some? ==> FreshTable(q, c.table.value)
    requires c.descs[0] < q.size
    requires LaidOut(shadow', lists', tables', c.descs[0], c) && Shared(shadow', desc', c)
    ensures TablesRep(shadow', desc', lists', tables', q.inflight[c.descs[0] := c])
  {
    var head := c.descs[0];
    forall h | h in q.inflight && h != head
      ensures h < |shadow'| && LaidOut(shadow', lists', tables', h, q.inflight[h])
              && Shared(shadow', desc', q.inflight[h])
    {
      var d := q.inflight[h];
      assert ChainOk(q.size, q.indirect, h, d);
      forall j | 0 <= j < |d.descs| ensures d.descs[j] !in c.descs && d.descs[j] < q.size {
        assert Owns(q.inflight, h, d.descs[j]);
      }
      ChainKept(shadow, desc, lists, tables, shadow', desc', lists', tables', h, d);
    }
  }

  /** The tables represent the queue after a chain's descriptors were recycled. */
  lemma TakeTables(
    shadow: seq<Descriptor>, desc: seq<Descriptor>, lists: seq<Option<seq<Descriptor>>>,
    tables: map<nat, seq<Descriptor>>,
    shadow': seq<Descriptor>, desc': seq<Descriptor>, lists': seq<Option<seq<Descriptor>>>,
    tables': map<nat, seq<Descriptor>>,
    q: Queue, head: nat)
    requires |shadow| == q.size && TablesRep(shadow, desc, lists, tables, q.inflight)
    requires Partition(q.size, q.indirect, q.free, q.inflight) && TablesDistinct(q.inflight)
    requires head in q.inflight
    requires SameExcept(shadow, shadow', q.inflight[head].descs)
    requires SameExcept(desc, desc', q.inflight[head].descs)
    requires SameExcept(lists, lists', [head]) && lists'[head] == None
    requires forall t | t in tables && q.inflight[head].table != Some(t) :: t in tables' && tables'[t] == tables[t]
    ensures TablesRep(shadow', desc', lists', tables', q.inflight - {head})
  {
    forall h | h in q.inflight && h != head
      ensures h < |shadow'| && LaidOut(shadow', lists', tables', h, q.inflight[h])
              && Shared(shadow', desc', q.inflight[h])
    {
      var d := q.inflight[h];
      assert ChainOk(q.size, q.indirect, h, d);
      forall j | 0 <= j < |d.descs| ensures d.descs[j] !in q.inflight[head].descs && d.descs[j] < q.size {
        assert Owns(q.inflight, h, d.descs[j]);
        assert Owns(q.inflight, head, d.descs[j]) ==> h == head;
      }
      assert d.table.Some? ==> q.inflight[head].table != d.table;
      ChainKept(shadow, desc, lists, tables, shadow', desc', lists', tables', h, d);
    }
  }

  /** Freshly linked tables and zeroed rings represent the initial queue. */
  lemma InitialRep(
    shadow: seq<Descriptor>, desc: seq<Descriptor>, lists: seq<Option<seq<Descriptor>>>,
    avail: seq<nat>, used: seq<UsedElem>, size: nat, indirect: bool)
    requires |shadow| == |desc| == |lists| == |avail| == |used| == size >= 1
    requires forall j | 0 <= j < size - 1 :: shadow[j].next == j + 1
    requires forall x | 0 <= x < size :: lists[x] == None
    ensures var q := Initial(size, indirect);
      && FreeLinks(shadow, 0, q.free) && TablesRep(shadow, desc, lists, map[], q.inflight)
      && AvailRep(avail, size, q.offered, q.fetched) && UsedRep(used, size, q.done, q.popped)
      && ClaimedRep(map[], q.pending, q.inflight) && AllUsable(q.inflight)
  {
  }

  lemma InitialCounts(size: nat, indirect: bool)
    ensures var q := Initial(size, indirect);
      && q.size == size && q.indirect == indirect && NumUsed(q) == 0
      && |q.offered| == |q.done| == q.popped == q.fetched == 0
  {
  }

  // -------------------------------------------------------------- the class

  class VirtQueue {
    const size: nat
    const indirect: bool
    /** Descriptor table and rings shared with the device. */
    const desc: array<Descriptor>
    const avail: array<nat>
    const used: array<UsedElem>
    var sharedAvailIdx: nat
    var usedIdx: nat
    /** Indirect tables at the addresses they are shared under. */
    var tables: map<nat, seq<Descriptor>>
    /** The driver's own state. */
    const shadow: array<Descriptor>
    const lists: array<Option<seq<Descriptor>>>
    var numUsed: nat
    var freeHead: nat
    var availIdx: nat
    var lastUsedIdx: nat
    /** How far the device has read the available ring. */
    var deviceIdx: nat
    /** The chains the device has read and not completed, as it found them. */
    var claimed: map<nat, seq<Descriptor>>
    ghost var q: Queue

    ghost function Memory(): set<object>
    {
      {this, desc, avail, used, shadow, lists}
    }

    ghost predicate Counters()
      reads this
    {
      && availIdx == sharedAvailIdx == Wrap(|q.offered|)
      && usedIdx == Wrap(|q.done|)
      && lastUsedIdx == Wrap(q.popped)
      && deviceIdx == Wrap(q.fetched)
      && numUsed == NumUsed(q)
    }

    ghost predicate Represents()
      reads Memory()
    {
      && q.size == size && q.indirect == indirect && ValidSize(size) && desc != shadow
      && Counters()
      && shadow.Length == desc.Length == lists.Length == avail.Length == used.Length == size
      && ClaimedRep(claimed, q.pending, q.inflight) && AllUsable(q.inflight)
      && FreeLinks(shadow[..], freeHead, q.free)
      && TablesRep(shadow[..], desc[..], lists[..], tables, q.inflight)
      && AvailRep(avail[..], size, q.offered, q.fetched)
      && UsedRep(used[..], size, q.done, q.popped)
    }

    ghost predicate Valid()
      reads Memory()
    {
      Represents() && Inv(q)
    }

    lemma ValidFacts()
      requires Valid()
      ensures Inv(q) && q.size == size && q.indirect == indirect && 1 <= size <= 32768 && numUsed == NumUsed(q)
    {
      ValidSizeBound(size);
    }

    constructor (size: nat, indirect: bool)
      requires ValidSize(size)
      ensures Valid() && fresh(Memory())
      ensures q == Initial(size, indirect)
      ensures this.size == size && this.indirect == indirect
    {
      hide Inv, Wrap, WrappingInc, FreeLinks, TablesRep, AvailRep, UsedRep, ValidSize, ClaimedRep, AllUsable,
        Initial, NumUsed;
      ValidSizeBound(size);
      InitialCounts(size, indirect);
      this.size, this.indirect := size, indirect;
      desc := new Descriptor[size](i => ZERO_DESCRIPTOR);
      avail := new nat[size](i => 0);
      used := new UsedElem[size](i => UsedElem(0, 0));
      shadow := new Descriptor[size](i => ZERO_DESCRIPTOR);
      lists := new Option<seq<Descriptor>>[size](i => None);
      sharedAvailIdx, usedIdx, tables := 0, 0, map[];
      numUsed, freeHead, availIdx, lastUsedIdx, deviceIdx, claimed := 0, 0, 0, 0, 0, map[];
      q := Initial(size, indirect);
      new;
      LinkAll();
      WrapStep(0);
      InitialRep(shadow[..], desc[..], lists[..], avail[..], used[..], size, indirect);
      InitialInv(size, indirect);
    }
  
    /** Links the descriptors together in index order. */
    method LinkAll()
      requires shadow.Length == desc.Length == size >= 1 && desc != shadow
      modifies shadow, desc
      ensures forall j | 0 <= j < size - 1 :: shadow[j].next == j + 1
    {
      for i := 0 to size - 1
        invariant forall j | 0 <= j < i :: shadow[j].next == j + 1
      {
        shadow[i] := shadow[i].(next := i + 1);
        desc[i] := desc[i].(next := i + 1);
      }
    }

    // ------------------------------------------------------------ device

    /** The device reads the next available chain, if there is one. */
    method Fetches()
      requires Valid()
      modifies this
      ensures Valid() && q == DeviceApply(old(q), DeviceFetch)
    {
      hide Inv, Wrap, WrappingInc, FreeLinks, TablesRep, AvailRep, UsedRep, ClaimedRep, ValidSize, AreSegments, Slot,
        DeviceChain;
      DeviceApplyInv(q, DeviceFetch);
      RingBounds(q);
      ValidSizeBound(size);
      WrapExact(q.fetched, |q.offered|);
      if deviceIdx != sharedAvailIdx {
        SlotIsMod(q.fetched, size);
        NextOffered(q);
        var head := avail[Slot(deviceIdx, size)];
        AvailNext(avail[..], size, q.offered, q.fetched);
        DeviceSees(shadow[..], desc[..], lists[..], tables, q, head);
        Claim(claimed, q.pending, q.inflight, head, DeviceChain(desc[..], tables, head).value);
        claimed := claimed[head := DeviceChain(desc[..], tables, head).value];
        WrapStep(q.fetched);
        deviceIdx := WrappingInc(deviceIdx);
        q := Fetch(q);
      }
    }

    /** The chain the device reads next. */
    method NextHead() returns (r: Option<nat>)
      requires Valid()
      ensures r == if q.fetched < |q.offered| then Some(q.offered[q.fetched]) else None
    {
      hide Inv, Wrap, WrappingInc, FreeLinks, TablesRep, UsedRep, ClaimedRep, ValidSize, Slot, AllUsable;
      RingBounds(q);
      ValidSizeBound(size);
      WrapExact(q.fetched, |q.offered|);
      r := None;
      if deviceIdx != sharedAvailIdx {
        SlotIsMod(q.fetched, size);
        r := Some(avail[Slot(deviceIdx, size)]);
      }
    }

    /** The device completes a chain it has read, if the length fits it. */
    method Completes(head: nat, len: nat)
      requires Valid()
      modifies this, used
      ensures Valid() && q == DeviceApply(old(q), DeviceComplete(head, len))
    {
      hide Inv, Wrap, WrappingInc, FreeLinks, TablesRep, AvailRep, UsedRep, ValidSize, Slot, AllUsable, AreSegments;
      DeviceApplyInv(q, DeviceComplete(head, len));
      RingBounds(q);
      if head in claimed {
        ByteCountSegments(claimed[head], q.inflight[head].segs);
        if len <= ByteCount(claimed[head]) {
          PendingRoom(q, head);
          SlotIsMod(|q.done|, size);
          UsedPush(used[..], size, q.done, q.popped, Completion(head, q.inflight[head].serial, len));
          used[Slot(usedIdx, size)] := UsedElem(head, len);
          WrapStep(|q.done|);
          usedIdx := WrappingInc(usedIdx);
          Unclaim(claimed, q.pending, q.inflight, head);
          claimed := claimed - {head};
          q := Complete(q, head, len);
        }
      }
    }

    /** Whether the device is processing `head` and `len` bytes fit it. */
    method MayComplete(head: nat, len: nat) returns (r: bool)
      requires Valid()
      ensures r == (head in q.pending && head in q.inflight && len <= TotalLen(q.inflight[head].segs))
      ensures r ==> head in claimed && AreSegments(claimed[head], q.inflight[head].segs)
    {
      hide Inv, Wrap, FreeLinks, TablesRep, AvailRep, UsedRep, ValidSize, AllUsable;
      r := false;
      if head in claimed {
        ByteCountSegments(claimed[head], q.inflight[head].segs);
        r := len <= ByteCount(claimed[head]);
      }
    }

    method Device(a: DeviceAction)
      requires Valid()
      modifies this, used
      ensures Valid() && q == DeviceApply(old(q), a)
    {
      hide Valid;
      match a
      case DeviceFetch => Fetches();
      case DeviceComplete(head, len) => Completes(head, len);
    }

    /** Everything the device does between two calls of the driver. */
    method Devices(actions: seq<DeviceAction>)
      requires Valid()
      modifies this, used
      ensures Valid() && q == DeviceRun(old(q), actions)
    {
      hide Inv, TablesRep, FreeLinks, AvailRep, UsedRep, ClaimedRep, AllUsable, ValidSize, Wrap, DeviceApply;
      for i := 0 to |actions|
        invariant Valid() && DeviceRun(q, actions[i..]) == DeviceRun(old(q), actions)
      {
        assert actions[i..][1..] == actions[i + 1..];
        Device(actions[i]);
      }
    }

    // ----------------------------------------------------------- queries

    method CanPopUsed() returns (r: bool)
      requires Valid()
      ensures r == CanPop(q)
    {
      hide Inv, Wrap, WrappingInc, FreeLinks, TablesRep, AvailRep, UsedRep, ValidSize;
      RingBounds(q);
      ValidSizeBound(size);
      WrapExact(q.popped, |q.done|);
      r := lastUsedIdx != usedIdx;
    }

    method PeekUsed() returns (r: Option<nat>)
      requires Valid()
      ensures r == if CanPop(q) then Some(q.done[q.popped].head) else None
    {
      hide Inv, Wrap, WrappingInc, FreeLinks, TablesRep, AvailRep, ValidSize, Slot;
      var can := CanPopUsed();
      if can {
        SlotIsMod(q.popped, size);
        NextDone(q);
        ValidSizeBound(size);
        r := Some(used[Slot(lastUsedIdx, size)].id % U16);
      } else {
        r := None;
      }
    }

    /** The number of descriptors a single `Add` may need. */
    method AvailableDesc() returns (r: nat)
      requires Valid()
      ensures r == if !indirect then |q.free| else if q.free == [] then 0 else size
      ensures forall n | 1 <= n <= size :: AddError(q, n).None? <==> n <= r
    {
      hide Inv, Wrap, WrappingInc, FreeLinks, TablesRep, AvailRep, UsedRep, ValidSize;
      FreeBound(q);
      r := if indirect then (if numUsed == size then 0 else size) else size - numUsed;
    }
  
    // --------------------------------------------------------------- add

    method WriteDesc(index: nat)
      requires index < shadow.Length == desc.Length && desc != shadow
      modifies desc
      ensures desc[..] == old(desc[..])[index := shadow[index]]
    {
      desc[index] := shadow[index];
    }

    /** Lays the segments out on the descriptors at the front of the free list. */
    method AddDirect(segs: seq<Segment>) returns (head: nat)
      requires shadow.Length == desc.Length == size && desc != shadow
      requires FreeLinks(shadow[..], freeHead, q.free) && Distinct(q.free)
      requires 1 <= |segs| <= |q.free| && Usable(segs)
      modifies this`freeHead, this`numUsed, shadow, desc
      ensures head == q.free[0]
      ensures FreeLinks(shadow[..], freeHead, q.free[|segs|..])
      ensures DirectLayout(shadow[..], q.free[..|segs|], segs)
      ensures SameExcept(old(shadow[..]), shadow[..], q.free[..|segs|])
      ensures SameExcept(old(desc[..]), desc[..], q.free[..|segs|])
      ensures forall j | 0 <= j < |segs| :: q.free[j] < size && desc[q.free[j]] == shadow[q.free[j]]
      ensures numUsed == old(numUsed) + |segs|
    {
      hide Distinct, DirectLayout, SameExcept;
      MirroredNone(desc[..], shadow[..], q.free);
      SameExceptRefl(shadow[..], []);
      ghost var free, before, descBefore := q.free, shadow[..], desc[..];
      head := freeHead;
      var last := freeHead;
      for k := 0 to |segs|
        modifies this`freeHead, shadow, desc
        invariant k < |free| ==> freeHead == free[k]
        invariant k > 0 ==> last == free[k - 1] && freeHead == shadow[last].next
        invariant Filled(before, shadow[..], free, segs, k)
        invariant Mirrored(descBefore, desc[..], shadow[..], free, k)
      {
        assert segs[k].buf.len != 0;
        assert segs[k].buf.len < U32;
        FilledStep(before, shadow[..], free, segs, k);
        MirroredStep(descBefore, desc[..], shadow[..], free, k, SetBuf(shadow[freeHead], segs[k]));
        shadow[freeHead] := SetBuf(shadow[freeHead], segs[k]);
        last := freeHead;
        freeHead := shadow[freeHead].next;
        WriteDesc(last);
      }
      FilledEnd(before, shadow[..], head, free, segs);
      MirroredAgain(descBefore, desc[..], shadow[..], free, |segs|, EndChain(shadow[last]));
      shadow[last] := EndChain(shadow[last]);
      WriteDesc(last);
      numUsed := numUsed + |segs|;
    }
  
    /** Writes the segments to a new indirect table shared at `table`, and spends one descriptor to
        refer to it. */
    method AddIndirect(segs: seq<Segment>, table: nat) returns (head: nat)
      requires shadow.Length == desc.Length == lists.Length == size && desc != shadow
      requires FreeLinks(shadow[..], freeHead, q.free) && Distinct(q.free)
      requires |q.free| >= 1 && 2 <= |segs| && Usable(segs)
      requires lists[q.free[0]] == None
      modifies this`freeHead, this`numUsed, this`tables, shadow, desc, lists
      ensures head == q.free[0] < size
      ensures FreeLinks(shadow[..], freeHead, q.free[1..])
      ensures RefersTo(shadow[head], table, |segs|) && desc[head] == shadow[head]
      ensures lists[head].Some? && TableLayout(lists[head].value, segs)
      ensures tables == old(tables)[table := lists[head].value]
      ensures SameExcept(old(shadow[..]), shadow[..], [head])
      ensures SameExcept(old(desc[..]), desc[..], [head])
      ensures SameExcept(old(lists[..]), lists[..], [head])
      ensures numUsed == old(numUsed) + 1
    {
      head := freeHead;
      var list := seq(|segs|, _ => ZERO_DESCRIPTOR);
      for i := 0 to |segs|
        invariant |list| == |segs|
        invariant forall j | 0 <= j < i :: Describes(list[j], segs[j], true) && list[j].next == j + 1
      {
        list := list[i := SetBuf(list[i], segs[i]).(next := i + 1)];
      }
      list := list[|list| - 1 := EndChain(list[|list| - 1])];

      assert lists[head] == None;
      lists[head] := Some(list);
      tables := tables[table := list];
      freeHead := shadow[head].next;
      shadow[head] := Descriptor(table, DESCRIPTOR_BYTES * |list|, Flags(false, false, true), shadow[head].next);
      WriteDesc(head);
      numUsed := numUsed + 1;

      DistinctSplit(q.free, 1);
      assert q.free[..1] == [head];
      assert forall j | 0 <= j < |q.free| - 1 :: q.free[1..][j] == q.free[j + 1] != head;
    }

    /** The driver's descriptors are as `after` says. */
    ghost predicate Holds(after: Queue)
      reads this, shadow, desc, lists
    {
      && FreeLinks(shadow[..], freeHead, after.free) && numUsed == NumUsed(after)
      && TablesRep(shadow[..], desc[..], lists[..], tables, after.inflight)
    }

    /** Builds the chain, directly or in an indirect table. */
    method BuildChain(segs: seq<Segment>, table: nat) returns (head: nat)
      requires Valid() && AddError(q, |segs|).None? && AddFitsIn(q, |segs|) && Usable(segs)
      requires UsesTable(indirect, |segs|) ==> FreshTable(q, table)
      modifies this`freeHead, this`numUsed, this`tables, shadow, desc, lists
      ensures head == old(q).free[0] && Holds(Offer(old(q), segs, table))
    {
      hide Inv, AvailRep, UsedRep, ClaimedRep, ValidSize, Wrap, TablesRep, FreeLinks, SameExcept, TableLayout,
        AllUsable, Usable, Partition, Distinct, DirectLayout, FreshTable;
      ghost var s, d, l, t := shadow[..], desc[..], lists[..], tables;
      ghost var c := Offer(q, segs, table).inflight[q.free[0]];
      OfferFacts(q, segs, table);
      HeadUnlisted(s, d, l, t, q);
      if indirect && |segs| > 1 {
        head := AddIndirect(segs, table);
        assert c.descs == [head];
      } else {
        head := AddDirect(segs);
        SameExceptRefl(l, [head]);
      }
      OfferTables(s, d, l, t, shadow[..], desc[..], lists[..], tables, q, c);
    }

    /** Puts `head` into the available ring and advances its index. */
    method Publish(head: nat)
      requires avail.Length == size && ValidSize(size) && availIdx == Wrap(|q.offered|)
      requires AvailRep(avail[..], size, q.offered, q.fetched)
      requires q.fetched <= |q.offered| && |q.offered| - q.fetched < size
      modifies this`availIdx, this`sharedAvailIdx, avail
      ensures availIdx == sharedAvailIdx == Wrap(|q.offered| + 1)
      ensures AvailRep(avail[..], size, q.offered + [head], q.fetched)
    {
      hide AvailRep, ValidSize, Wrap, WrappingInc, Slot;
      SlotIsMod(|q.offered|, size);
      AvailPush(avail[..], size, q.offered, q.fetched, head);
      avail[Slot(availIdx, size)] := head;
      WrapStep(|q.offered|);
      availIdx := WrappingInc(availIdx);
      sharedAvailIdx := availIdx;
    }

    /** Any address at which no live indirect table is shared: what the heap may hand out next. */
    method AllocateTable() returns (table: nat)
      requires Valid()
      ensures FreshTable(q, table)
    {
      ghost var bound := BoundOf(tables.Keys);
      assert bound !in tables;
      table :| table !in tables;
      LiveTables(shadow[..], desc[..], lists[..], tables, q);
    }

    /** Builds the chain and lets the device see it. */
    method Enqueue(segs: seq<Segment>, table: nat) returns (head: nat)
      requires Valid() && AddError(q, |segs|).None? && AddFitsIn(q, |segs|) && Usable(segs) && ReadableFirst(segs)
      requires UsesTable(indirect, |segs|) ==> FreshTable(q, table)
      modifies this, desc, shadow, avail, lists
      ensures Valid() && head == old(q).free[0] && q == Offer(old(q), segs, table)
    {
      hide Inv, AvailRep, UsedRep, ClaimedRep, ValidSize, Wrap, TablesRep, FreeLinks, AllUsable, Usable;
      OfferInv(q, segs, table);
      OfferRoom(q);
      head := BuildChain(segs, table);
      Publish(head);
      ClaimedKept(claimed, q, segs, table);
      UsableOffered(q, segs, table);
      q := Offer(q, segs, table);
    }

    /** Offers the buffers to the device.  `table` is where an indirect table would be shared. */
    method Add(inputs: seq<Buffer>, outputs: seq<Buffer>, table: nat) returns (r: Result<nat>)
      requires Valid()
      requires AddError(q, |inputs| + |outputs|).None? ==> Usable(Segments(inputs, outputs))
      requires UsesTable(indirect, |inputs| + |outputs|) ==> FreshTable(q, table)
      modifies this, desc, shadow, avail, lists
      ensures Valid()
      ensures r == AddResult(old(q), |inputs| + |outputs|)
      ensures var n := |inputs| + |outputs|;
              && (r.Ok? <==> 1 <= n <= size && (if indirect then 1 else n) <= |old(q).free|)
              && (r.Ok? ==> r.value == old(q).free[0])
              && (r.Err? ==> r.error == if n == 0 then InvalidParam else QueueFull)
      ensures q == Apply(old(q), AddStep(inputs, outputs, table))
    {
      hide Valid, Inv, Usable;
      ValidFacts();
      AddExactly(q, |inputs| + |outputs|);
      var needed := |inputs| + |outputs|;
      if needed == 0 {
        return Err(InvalidParam);
      }
      if numUsed + 1 > size || needed > size || (!indirect && numUsed + needed > size) {
        return Err(QueueFull);
      }
      var segs := Segments(inputs, outputs);
      SegmentsReadableFirst(inputs, outputs);
      AddFits(q, needed);
      var head := Enqueue(segs, table);
      r := Ok(head);
    }
  
    // --------------------------------------------------------------- pop

    /** Empties the descriptors of a chain built without a table, front to back. */
    method RecycleDirect(head: nat, segs: seq<Segment>, ghost descs: seq<nat>)
      requires shadow.Length == desc.Length == size && desc != shadow
      requires DirectLayout(shadow[..], descs, segs) && Distinct(descs) && descs != [] && descs[0] == head
      requires FreeLinks(shadow[..], freeHead, q.free) && forall x | x in descs :: x !in q.free
      requires Usable(segs) && |descs| <= numUsed
      modifies this`freeHead, this`numUsed, shadow, desc
      ensures FreeLinks(shadow[..], freeHead, descs + q.free)
      ensures SameExcept(old(shadow[..]), shadow[..], descs)
      ensures SameExcept(old(desc[..]), desc[..], descs)
      ensures InTable(descs, size) && forall j | 0 <= j < |descs| ::
                shadow[descs[j]].addr == 0 == shadow[descs[j]].len && desc[descs[j]] == shadow[descs[j]]
      ensures numUsed == old(numUsed) - |descs|
    {
      hide Distinct, DirectLayout, FreeLinks;
      ghost var before, descBefore := shadow[..], desc[..];
      LayoutLengths(before, descs, segs);
      MirroredNone(descBefore, before, descs);
      var originalFreeHead := freeHead;
      freeHead := head;
      var next := Some(head);
      for k := 0 to |segs|
        modifies this`numUsed, shadow, desc
        invariant next == if k < |descs| then Some(descs[k]) else None
        invariant numUsed == old(numUsed) - k
        invariant Emptied(before, shadow[..], descs, originalFreeHead, k)
        invariant Mirrored(descBefore, desc[..], shadow[..], descs, k)
      {
        assert segs[k].buf.len != 0;
        assert next.Some?;
        var index := next.value;
        EmptiedStep(before, shadow[..], descs, segs, originalFreeHead, k);
        ghost var d := UnsetBuf(shadow[index]);
        d := if NextOf(d).None? then d.(next := originalFreeHead) else d;
        MirroredStep(descBefore, desc[..], shadow[..], descs, k, d);
        shadow[index] := UnsetBuf(shadow[index]);
        numUsed := numUsed - 1;
        next := NextOf(shadow[index]);
        if next.None? {
          shadow[index] := shadow[index].(next := originalFreeHead);
        }
        WriteDesc(index);
      }
      assert next.None?;
      assert descs[..|descs|] == descs;
      EmptiedEnd(before, shadow[..], descs, segs, originalFreeHead, q.free);
    }

    /** Frees the descriptor of an indirect chain, and drops its table. */
    method RecycleIndirect(head: nat, segs: seq<Segment>)
      requires shadow.Length == desc.Length == lists.Length == size && head < size
      requires FreeLinks(shadow[..], freeHead, q.free) && head !in q.free
      requires lists[head].Some? && |lists[head].value| == |segs| && Usable(segs) && 1 <= numUsed
      modifies this`freeHead, this`numUsed, this`tables, shadow, lists
      ensures FreeLinks(shadow[..], freeHead, [head] + q.free)
      ensures SameExcept(old(shadow[..]), shadow[..], [head])
      ensures SameExcept(old(lists[..]), lists[..], [head]) && lists[head] == None
      ensures shadow[head].addr == 0 == shadow[head].len
      ensures tables == old(tables) - {old(shadow[head].addr)}
      ensures numUsed == old(numUsed) - 1
    {
      hide FreeLinks;
      var originalFreeHead := freeHead;
      freeHead := head;
      var list := lists[head].value;
      lists[head] := None;
      var paddr := shadow[head].addr;
      var d := UnsetBuf(shadow[head]).(next := originalFreeHead);
      FreeOne(shadow[..], head, d, originalFreeHead, q.free);
      shadow[head] := d;
      numUsed := numUsed - 1;
      tables := tables - {paddr};
      assert |list| == |segs|;
      for i := 0 to |segs| {
        assert segs[i].buf.len != 0;
      }
    }

    /** Returns the descriptors of the chain at `head` to the front of the free list. */
    method Recycle(head: nat, segs: seq<Segment>)
      requires Valid() && head in q.inflight && q.inflight[head].segs == segs
      modifies this`freeHead, this`numUsed, this`tables, shadow, desc, lists
      ensures FreeLinks(shadow[..], freeHead, q.inflight[head].descs + q.free)
      ensures TablesRep(shadow[..], desc[..], lists[..], tables, q.inflight - {head})
      ensures numUsed == old(numUsed) - |q.inflight[head].descs|
    {
      hide Inv, AvailRep, UsedRep, ClaimedRep, ValidSize, Wrap, TablesRep, FreeLinks, SameExcept, TableLayout,
        DirectLayout, Usable;
      ghost var s, d, l, t := shadow[..], desc[..], lists[..], tables;
      ghost var c := q.inflight[head];
      ChainFacts(s, d, l, t, q, head);
      if shadow[head].flags.indirect {
        TableLength(lists[head].value, segs);
        RecycleIndirect(head, segs);
        SameExceptRefl(d, c.descs);
      } else {
        RecycleDirect(head, segs, c.descs);
        SameExceptRefl(l, [head]);
      }
      TakeTables(s, d, l, t, shadow[..], desc[..], lists[..], tables, q, head);
    }

    /** Recycles the next finished chain and moves on in the used ring. */
    method TakeBack(index: nat, segs: seq<Segment>)
      requires Valid() && CanPop(q) && index == q.done[q.popped].head
      requires index in q.inflight && q.inflight[index].segs == segs
      modifies this, desc, shadow, lists
      ensures Valid() && q == Take(old(q))
    {
      hide Inv, AvailRep, UsedRep, ClaimedRep, ValidSize, Wrap, WrappingInc, TablesRep, FreeLinks, AllUsable;
      TakeInv(q);
      ClaimedTaken(claimed, q);
      UsedNext(used[..], size, q.done, q.popped);
      UsableTaken(q.inflight, index);
      Recycle(index, segs);
      WrapStep(q.popped);
      lastUsedIdx := WrappingInc(lastUsedIdx);
      q := Take(q);
    }

    /** Takes back `token` if it is the next chain the device has finished. */
    method PopUsed(token: nat, inputs: seq<Buffer>, outputs: seq<Buffer>) returns (r: Result<nat>)
      requires Valid()
      requires PopResult(q, token).Ok? && token in q.inflight ==> q.inflight[token].segs == Segments(inputs, outputs)
      modifies this, desc, shadow, lists
      ensures Valid()
      ensures r == PopResult(old(q), token)
      ensures r == if !CanPop(old(q)) then Err(NotReady)
                   else if old(q).done[old(q).popped].head != token then Err(WrongToken)
                   else Ok(old(q).done[old(q).popped].len)
      ensures q == Apply(old(q), PopStep(token))
    {
      hide Inv, AvailRep, UsedRep, ClaimedRep, ValidSize, Wrap, TablesRep, FreeLinks, Slot, AllUsable;
      var can := CanPopUsed();
      if !can {
        return Err(NotReady);
      }
      SlotIsMod(q.popped, size);
      UsedNext(used[..], size, q.done, q.popped);
      NextDone(q);
      ValidSizeBound(size);
      var slot := Slot(lastUsedIdx, size);
      var index := used[slot].id % U16;
      var len := used[slot].len;
      if index != token {
        return Err(WrongToken);
      }
      TakeBack(index, Segments(inputs, outputs));
      r := Ok(len);
    }
  }

  /** What `new` answers: `inUse` and `max` are what the transport says of the queue, `memory` whether the
      pages for the rings could be had. */
  method NewQueue(size: nat, indirect: bool, inUse: bool, max: nat, memory: bool) returns (r: Result<VirtQueue>)
    requires ValidSize(size)
    ensures r.Ok? <==> !inUse && size <= max && memory
    ensures r.Err? ==> r.error == if inUse then AlreadyUsed else if max < size then InvalidParam else DmaError
    ensures r.Ok? ==> fresh(r.value) && fresh(r.value.Memory()) && r.value.Valid()
                      && r.value.q == Initial(size, indirect)
  {
    if inUse {
      return Err(AlreadyUsed);
    }
    if max < size {
      return Err(InvalidParam);
    }
    if !memory {
      return Err(DmaError);
    }
    var queue := new VirtQueue(size, indirect);
    r := Ok(queue);
  }
}
