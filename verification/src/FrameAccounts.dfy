/** Where every frame is, over whole runs of the allocator. */
module FrameAccounts {
  import opened Sequences
  import opened FrameLists
  import opened Reservations
  import opened FrameAllocators

  /** The free list together with the frames handed in at boot, handed out, and reserved. */
  datatype Account = Account(blocks: seq<Block>, inserted: iset<nat>, taken: iset<nat>, reserved: iset<nat>)

  datatype Event = Boot(region: Range) | Alloc(n: nat) | Free(range: Range) | Reserve(range: Range)

  ghost function FramesOf(r: Range): iset<nat>
  {
    iset f: nat | InRange(r, f)
  }

  ghost function FreeFrames(bs: seq<Block>): iset<nat>
  {
    iset f: nat | Covers(bs, f)
  }

  /** Every inserted frame is free, allocated or reserved, and only one of these; frame 0 is none. */
  ghost predicate Balanced(a: Account)
  {
    && Canonical(a.blocks)
    && a.inserted == FreeFrames(a.blocks) + a.taken + a.reserved
    && FreeFrames(a.blocks) !! a.taken && FreeFrames(a.blocks) !! a.reserved && a.taken !! a.reserved
    && 0 !in a.inserted
  }

  /** What callers keep to: boot regions are new memory, only allocated frames are freed, and
      reservations are ones the walk can do. */
  ghost predicate Permitted(a: Account, e: Event)
  {
    match e
    case Boot(region) => region.start < region.end && FramesOf(region) !! a.inserted
    case Alloc(n) => true
    case Free(range) => range.start < range.end && FramesOf(range) <= a.taken
    case Reserve(range) => range.start <= range.end && Reservable(a.blocks, range)
  }

  /** One call of the allocator, as its methods are specified. */
  ghost predicate Step(a: Account, e: Event, a': Account)
  {
    match e
    case Boot(region) =>
      && (match BootRange(region)
          case None => a'.blocks == a.blocks
          case Some(r) => exists ok :: Frees(a.blocks, r, ok, a'.blocks))
      && a' == a.(blocks := a'.blocks, inserted := a.inserted + (FramesOf(region) - iset{0}))
    case Alloc(n) =>
      exists r :: Allocates(a.blocks, n, r, a'.blocks)
        && a' == a.(blocks := a'.blocks, taken := a.taken + if r.Some? then FramesOf(r.value) else iset{})
    case Free(range) =>
      exists ok :: Frees(a.blocks, range, ok, a'.blocks)
                   && a' == a.(blocks := a'.blocks, taken := a.taken - FramesOf(range))
    case Reserve(range) =>
      && range.start <= range.end && Reserved(a.blocks, range) == Some(a'.blocks)
      && a' == a.(blocks := a'.blocks, reserved := a.reserved + (FramesOf(range) * FreeFrames(a.blocks)))
  }

  /** A range none of whose frames is free overlaps no block. */
  lemma Apart(bs: seq<Block>, r: Range)
    requires r.start < r.end && Canonical(bs) && FramesOf(r) !! FreeFrames(bs)
    ensures NoOverlap(bs, r)
  {
    forall i | 0 <= i < |bs| ensures !Overlaps(bs[i], r) {
      var f := if bs[i].start < r.start then r.start else bs[i].start;
      assert f in FramesOf(r) ==> f !in FreeFrames(bs);
      assert InBlock(bs[i], f) ==> Covers(bs, f);
    }
  }

  lemma FreeBalances(a: Account, range: Range, a': Account)
    requires Balanced(a) && Permitted(a, Free(range)) && Step(a, Free(range), a')
    ensures Balanced(a')
    ensures forall ok | Frees(a.blocks, range, ok, a'.blocks) :: ok
  {
    Apart(a.blocks, range);
    var ok :| Frees(a.blocks, range, ok, a'.blocks);
    assert IsUnion(a'.blocks, a.blocks, range);
    assert FreeFrames(a'.blocks) == FreeFrames(a.blocks) + FramesOf(range);
  }

  lemma BootBalances(a: Account, region: Range, a': Account)
    requires Balanced(a) && Permitted(a, Boot(region)) && Step(a, Boot(region), a')
    ensures Balanced(a')
  {
    BootFrames(a.blocks, region);
    if BootRange(region).Some? {
      var r := BootRange(region).value;
      assert FramesOf(r) == FramesOf(region) - iset{0};
      Apart(a.blocks, r);
      var ok :| Frees(a.blocks, r, ok, a'.blocks);
      assert FreeFrames(a'.blocks) == FreeFrames(a.blocks) + FramesOf(r);
    }
  }

  /** Frames handed out were free, and frame 0 is never among them. */
  lemma AllocBalances(a: Account, n: nat, a': Account)
    requires Balanced(a) && Step(a, Alloc(n), a')
    ensures Balanced(a')
    ensures 0 !in a'.taken && a.taken <= a'.taken
    ensures a'.taken - a.taken <= FreeFrames(a.blocks)
  {
    var r :| Allocates(a.blocks, n, r, a'.blocks)
      && a' == a.(blocks := a'.blocks, taken := a.taken + if r.Some? then FramesOf(r.value) else iset{});
    if r.Some? {
      assert IsDifference(a'.blocks, a.blocks, r.value);
      assert FreeFrames(a'.blocks) == FreeFrames(a.blocks) - FramesOf(r.value);
      assert FramesOf(r.value) <= FreeFrames(a.blocks);
    }
  }

  lemma ReserveBalances(a: Account, range: Range, a': Account)
    requires Balanced(a) && Permitted(a, Reserve(range)) && Step(a, Reserve(range), a')
    ensures Balanced(a')
    ensures FreeFrames(a'.blocks) == FreeFrames(a.blocks) - FramesOf(range)
  {
    ReserveExactly(a.blocks, range);
    assert IsDifference(a'.blocks, a.blocks, range);
  }

  lemma StepBalances(a: Account, e: Event, a': Account)
    requires Balanced(a) && Permitted(a, e) && Step(a, e, a')
    ensures Balanced(a')
  {
    hide Balanced, Step;
    match e
    case Boot(region) => BootBalances(a, region, a');
    case Alloc(n) => AllocBalances(a, n, a');
    case Free(range) => FreeBalances(a, range, a');
    case Reserve(range) => ReserveBalances(a, range, a');
  }

  const Empty := Account([], iset{}, iset{}, iset{})

  /** Over every run from the empty allocator, inserted frames stay the disjoint union of free,
      allocated and reserved ones, and the list stays canonical. */
  lemma {:induction false} RunBalances(run: seq<Account>, events: seq<Event>)
    requires |run| == |events| + 1 && run[0] == Empty
    requires forall i | 0 <= i < |events| :: Permitted(run[i], events[i]) && Step(run[i], events[i], run[i + 1])
    ensures forall i | 0 <= i < |run| :: Balanced(run[i])
  {
    hide Step, Permitted;
    EmptyBalanced();
    for k := 0 to |events|
      invariant forall i | 0 <= i <= k :: Balanced(run[i])
    {
      StepBalances(run[k], events[k], run[k + 1]);
    }
  }

  lemma EmptyBalanced()
    ensures Balanced(Empty)
  {
    assert forall f: nat :: !Covers([], f);
  }

  /** The `n` frames from `g` on are free. */
  predicate AllFree(bs: seq<Block>, g: nat, n: nat)
  {
    forall h | g <= h < g + n :: Covers(bs, h)
  }

  /** Frames that are all free and follow each other are in one block. */
  lemma {:induction false} RunInBlock(bs: seq<Block>, g: nat, n: nat) returns (i: nat)
    requires Canonical(bs) && n > 0 && AllFree(bs, g, n)
    ensures i < |bs| && bs[i].start <= g && g + n <= bs[i].End()
    decreases n
  {
    if n == 1 {
      assert Covers(bs, g);
      i :| 0 <= i < |bs| && InBlock(bs[i], g);
    } else {
      i := RunInBlock(bs, g, n - 1);
      assert Covers(bs, g + n - 1);
      var j :| 0 <= j < |bs| && InBlock(bs[j], g + n - 1);
      assert i == j;
    }
  }

  /** What is handed out is the lowest run of that many free frames, and there is none only if no such run
      is free. */
  lemma AllocLowest(bs: seq<Block>, n: nat, r: Option<Range>, bs': seq<Block>)
    requires Canonical(bs) && n > 0 && Allocates(bs, n, r, bs')
    ensures r.Some? ==> r.value.end == r.value.start + n && AllFree(bs, r.value.start, n)
    ensures forall g: nat | AllFree(bs, g, n) :: r.Some? && r.value.start <= g
  {
    forall g: nat | AllFree(bs, g, n) ensures r.Some? && r.value.start <= g {
      var i := RunInBlock(bs, g, n);
      if r.Some? {
        var k: nat :| FirstFit(bs, n, k) && r.value == Range(bs[k].start, bs[k].start + n);
        assert k < i ==> bs[k].End() < bs[i].start;
      }
    }
  }

  /** Freeing right after allocating gives back the very same list. */
  lemma AllocFreeRestores(bs: seq<Block>, n: nat, r: Range, taken: seq<Block>, ok: bool, back: seq<Block>)
    requires Canonical(bs) && Canonical(taken) && n > 0
    requires Allocates(bs, n, Some(r), taken) && Frees(taken, r, ok, back)
    ensures ok && back == bs
  {
    assert forall f: nat :: f in FramesOf(r) ==> f !in FreeFrames(taken);
    var i: nat :| FirstFit(bs, n, i) && r == Range(bs[i].start, bs[i].start + n);
    Apart(taken, r);
    AllocThenFree(bs, taken, back, r);
  }

  /** An overlap that `free_block` does not notice: the range starts right behind a free block. */
  lemma UnnoticedOverlap()
    ensures var bs, r := [Block(1, 2), Block(4, 2)], Range(3, 5);
      Canonical(bs) && !NoOverlap(bs, r) && EndsAt(bs, r.start)
      && forall ok, bs' | Frees(bs, r, ok, bs') :: ok && !Canonical(bs')
  {
    var bs, r := [Block(1, 2), Block(4, 2)], Range(3, 5);
    assert bs[0].End() == r.start;
    assert Overlaps(bs[1], r);
  }

  // --------------------------------------------------------- freeing in any order

  /** The list after `free_block` was called for each of the ranges in turn. */
  ghost predicate FreeCalls(bs: seq<Block>, rs: seq<Range>, bs': seq<Block>)
    decreases |rs|
  {
    if rs == [] then bs' == bs
    else exists ok, mid :: Frees(bs, rs[0], ok, mid) && FreeCalls(mid, rs[1..], bs')
  }

  /** The ranges are not empty, overlap neither each other nor the list. */
  predicate Freeable(bs: seq<Block>, rs: seq<Range>)
  {
    && (forall i | 0 <= i < |rs| :: rs[i].start < rs[i].end && NoOverlap(bs, rs[i]))
    && (forall i, j | 0 <= i < j < |rs| :: rs[i].end <= rs[j].start || rs[j].end <= rs[i].start)
  }

  lemma NotFree(bs: seq<Block>, r: Range, f: nat)
    requires NoOverlap(bs, r) && InRange(r, f)
    ensures !Covers(bs, f)
  {
    forall i | 0 <= i < |bs| ensures !InBlock(bs[i], f) {
      assert !Overlaps(bs[i], r);
    }
  }

  lemma FreeableRest(bs: seq<Block>, rs: seq<Range>, mid: seq<Block>)
    requires Freeable(bs, rs) && rs != [] && Canonical(mid) && IsUnion(mid, bs, rs[0])
    ensures Freeable(mid, rs[1..])
  {
    hide Covers, NoOverlap;
    forall i | 0 <= i < |rs[1..]| ensures NoOverlap(mid, rs[1..][i]) {
      var r := rs[i + 1];
      forall f: nat | InRange(r, f) ensures !Covers(mid, f) {
        NotFree(bs, r, f);
      }
      Apart(mid, r);
    }
  }

  lemma {:induction false} FreeCallsUnite(bs: seq<Block>, rs: seq<Range>, bs': seq<Block>)
    requires Canonical(bs) && Freeable(bs, rs) && FreeCalls(bs, rs, bs')
    ensures FreesTo(bs, rs, bs')
    decreases |rs|
  {
    hide NoOverlap, Canonical, IsUnion;
    if rs != [] {
      var ok, mid :| Frees(bs, rs[0], ok, mid) && FreeCalls(mid, rs[1..], bs');
      assert NoOverlap(bs, rs[0]);
      FreeableRest(bs, rs, mid);
      FreeCallsUnite(mid, rs[1..], bs');
    }
  }

  /** Freeing the same ranges by `free_block`, in any order, gives the same list. */
  lemma FreeCallsAnyOrder(bs: seq<Block>, rs: seq<Range>, rs': seq<Range>, a: seq<Block>, b: seq<Block>)
    requires Canonical(bs) && Freeable(bs, rs) && Freeable(bs, rs') && multiset(rs) == multiset(rs')
    requires FreeCalls(bs, rs, a) && FreeCalls(bs, rs', b)
    ensures a == b && Canonical(a)
  {
    FreeCallsUnite(bs, rs, a);
    FreeCallsUnite(bs, rs', b);
    FreesCovers(bs, rs, a);
    FreeOrderIrrelevant(bs, rs, rs', a, b);
  }
}
