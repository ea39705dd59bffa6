/** The page-frame allocator: a linked list whose nodes live in the free frames themselves.

    A node's address is the first frame of its block, so memory is a map from frame numbers to
    nodes.  The ghost field `blocks` is the list the links spell out. */
module FrameAllocators {
  import opened Sequences
  import opened FrameLists
  import opened Reservations

  datatype Node = Node(count: nat, next: Option<nat>)

  function StartAt(bs: seq<Block>, i: nat): Option<nat>
  {
    if i < |bs| then Some(bs[i].start) else None
  }

  predicate NodeOk(mem: map<nat, Node>, bs: seq<Block>, i: nat)
  {
    i < |bs| && bs[i].start in mem && mem[bs[i].start] == Node(bs[i].count, StartAt(bs, i + 1))
  }

  /** The links from `head` spell out `bs`. */
  predicate Linked(mem: map<nat, Node>, head: Option<nat>, bs: seq<Block>)
  {
    && head == StartAt(bs, 0)
    && (forall i {:trigger bs[i]} | 0 <= i < |bs| :: NodeOk(mem, bs, i))
  }

  predicate SortedStarts(bs: seq<Block>)
  {
    forall i, j | 0 <= i < j < |bs| :: bs[i].start < bs[j].start
  }

  /** The node the walk stands on before it looks at block `i`: the list's head, or a block. */
  function CursorAt(bs: seq<Block>, i: nat): Option<nat>
    requires i <= |bs|
  {
    if i == 0 then None else Some(bs[i - 1].start)
  }

  /** Memory after `next` was written to the node at the cursor before block `i`. */
  function Relinked(mem: map<nat, Node>, bs: seq<Block>, i: nat, next: Option<nat>): map<nat, Node>
    requires i <= |bs| && (i > 0 ==> bs[i - 1].start in mem)
  {
    if i == 0 then mem else mem[bs[i - 1].start := mem[bs[i - 1].start].(next := next)]
  }

  lemma SpliceAt(bs: seq<Block>, i: nat, j: nat, mid: seq<Block>, k: nat)
    requires i <= j <= |bs| && k < |Splice(bs, i, j, mid)|
    ensures Splice(bs, i, j, mid)[k] ==
            if k < i then bs[k] else if k < i + |mid| then mid[k - i] else bs[k - i - |mid| + j]
    ensures |Splice(bs, i, j, mid)| == i + |mid| + (|bs| - j)
  {
  }

  lemma SpliceTwice(bs: seq<Block>, i: nat, mid: seq<Block>)
    requires i < |bs|
    ensures var cut := Splice(bs, i, i + 1, []); i <= |cut| && Splice(cut, i, i, mid) == Splice(bs, i, i + 1, mid)
  {
    var cut := Splice(bs, i, i + 1, []);
    assert cut[..i] == bs[..i] && cut[i..] == bs[i + 1..];
  }

  lemma SpliceSorted(bs: seq<Block>, i: nat, j: nat, mid: seq<Block>)
    requires i <= j <= |bs| && SortedStarts(bs) && SortedStarts(mid)
    requires forall x, m | 0 <= x < i && 0 <= m < |mid| :: bs[x].start < mid[m].start
    requires forall m, y | 0 <= m < |mid| && j <= y < |bs| :: mid[m].start < bs[y].start
    ensures SortedStarts(Splice(bs, i, j, mid))
  {
  }

  /** Every node outside the blocks `i` to `j`, and not right before them, is as it was. */
  predicate KeptOutside(mem: map<nat, Node>, mem': map<nat, Node>, bs: seq<Block>, i: nat, j: nat)
  {
    forall x | 0 <= x < |bs| && (x + 1 < i || j <= x) && bs[x].start in mem ::
      bs[x].start in mem' && mem'[bs[x].start] == mem[bs[x].start]
  }

  /** The node before block `i`, if there is one, now points to `next`. */
  predicate PointsTo(mem': map<nat, Node>, bs: seq<Block>, i: nat, next: Option<nat>)
  {
    0 < i <= |bs| ==> bs[i - 1].start in mem' && mem'[bs[i - 1].start] == Node(bs[i - 1].count, next)
  }

  lemma SpliceNode(mem: map<nat, Node>, mem': map<nat, Node>, bs: seq<Block>, i: nat, j: nat, b: Block, k: nat)
    requires i <= j <= |bs| && forall x | 0 <= x < |bs| :: NodeOk(mem, bs, x)
    requires KeptOutside(mem, mem', bs, i, j) && PointsTo(mem', bs, i, Some(b.start))
    requires b.start in mem' && mem'[b.start] == Node(b.count, StartAt(bs, j))
    requires k < |Splice(bs, i, j, [b])|
    ensures NodeOk(mem', Splice(bs, i, j, [b]), k)
  {
    SpliceAt(bs, i, j, [b], k);
    var bs' := Splice(bs, i, j, [b]);
    if k + 1 < |bs'| {
      SpliceAt(bs, i, j, [b], k + 1);
    }
    if k < i {
      assert NodeOk(mem, bs, k);
    } else if k > i {
      assert NodeOk(mem, bs, k - i - 1 + j);
    }
  }

  lemma CutNode(mem: map<nat, Node>, mem': map<nat, Node>, bs: seq<Block>, i: nat, j: nat, k: nat)
    requires i <= j <= |bs| && forall x | 0 <= x < |bs| :: NodeOk(mem, bs, x)
    requires KeptOutside(mem, mem', bs, i, j) && PointsTo(mem', bs, i, StartAt(bs, j))
    requires k < |Splice(bs, i, j, [])|
    ensures NodeOk(mem', Splice(bs, i, j, []), k)
  {
    SpliceAt(bs, i, j, [], k);
    var bs' := Splice(bs, i, j, []);
    if k + 1 < |bs'| {
      SpliceAt(bs, i, j, [], k + 1);
    }
    assert NodeOk(mem, bs, if k < i then k else k - i + j);
  }

  lemma SplicedNodes(mem: map<nat, Node>, head: Option<nat>, bs: seq<Block>, i: nat, j: nat, b: Block)
    requires Linked(mem, head, bs) && SortedStarts(bs) && i <= j <= |bs|
    requires forall x | 0 <= x < i :: bs[x].start < b.start
    requires forall y | j <= y < |bs| :: b.start < bs[y].start
    ensures i > 0 ==> bs[i - 1].start in mem
    ensures var mem' := Relinked(mem[b.start := Node(b.count, StartAt(bs, j))], bs, i, Some(b.start));
            && KeptOutside(mem, mem', bs, i, j) && PointsTo(mem', bs, i, Some(b.start))
            && b.start in mem' && mem'[b.start] == Node(b.count, StartAt(bs, j))
  {
    assert i > 0 ==> NodeOk(mem, bs, i - 1);
  }

  /** Writing a node and pointing the cursor at it splices its block into the list. */
  lemma LinkedSplice(mem: map<nat, Node>, head: Option<nat>, bs: seq<Block>, i: nat, j: nat, b: Block)
    requires Linked(mem, head, bs) && SortedStarts(bs) && i <= j <= |bs|
    requires forall x | 0 <= x < i :: bs[x].start < b.start
    requires forall y | j <= y < |bs| :: b.start < bs[y].start
    ensures i > 0 ==> bs[i - 1].start in mem
    ensures Linked(Relinked(mem[b.start := Node(b.count, StartAt(bs, j))], bs, i, Some(b.start)),
                   if i == 0 then Some(b.start) else head, Splice(bs, i, j, [b]))
    ensures SortedStarts(Splice(bs, i, j, [b]))
  {
    hide NodeOk, KeptOutside, PointsTo, Relinked;
    SplicedNodes(mem, head, bs, i, j, b);
    assert forall x | 0 <= x < |bs| :: NodeOk(mem, bs, x) by {
      forall x | 0 <= x < |bs| ensures NodeOk(mem, bs, x) {
        assert bs[x] in bs;
      }
    }
    var mem' := Relinked(mem[b.start := Node(b.count, StartAt(bs, j))], bs, i, Some(b.start));
    SpliceSorted(bs, i, j, [b]);
    hide SortedStarts;
    var bs' := Splice(bs, i, j, [b]);
    forall k | 0 <= k < |bs'| ensures NodeOk(mem', bs', k) {
      SpliceNode(mem, mem', bs, i, j, b, k);
    }
  }

  lemma SpliceOrder(mem: map<nat, Node>, head: Option<nat>, bs: seq<Block>, i: nat, j: nat)
    requires Linked(mem, head, bs) && SortedStarts(bs) && i < j <= |bs|
    ensures forall x | 0 <= x < i :: bs[x].start < bs[i].start
    ensures forall y | j <= y < |bs| :: bs[i].start < bs[y].start
    ensures i == 0 ==> head == Some(bs[i].start)
  {
  }

  /** A block rewritten where it is has its node before it pointing to it already. */
  lemma Rewritten(mem: map<nat, Node>, head: Option<nat>, bs: seq<Block>, i: nat, node: Node)
    requires Linked(mem, head, bs) && SortedStarts(bs) && i < |bs| && (i > 0 ==> bs[i - 1].start in mem)
    ensures Relinked(mem[bs[i].start := node], bs, i, Some(bs[i].start)) == mem[bs[i].start := node]
  {
    assert i > 0 ==> NodeOk(mem, bs, i - 1);
  }

  /** Pointing the cursor past some blocks takes them out of the list. */
  lemma LinkedCut(mem: map<nat, Node>, head: Option<nat>, bs: seq<Block>, i: nat, j: nat)
    requires Linked(mem, head, bs) && SortedStarts(bs) && i <= j <= |bs|
    ensures i > 0 ==> bs[i - 1].start in mem
    ensures Linked(Relinked(mem, bs, i, StartAt(bs, j)), if i == 0 then StartAt(bs, j) else head, Splice(bs, i, j, []))
    ensures SortedStarts(Splice(bs, i, j, []))
  {
    assert i > 0 ==> NodeOk(mem, bs, i - 1);
    var mem' := Relinked(mem, bs, i, StartAt(bs, j));
    assert KeptOutside(mem, mem', bs, i, j) && PointsTo(mem', bs, i, StartAt(bs, j));
    hide NodeOk, KeptOutside, PointsTo, Relinked;
    SpliceSorted(bs, i, j, []);
    var bs' := Splice(bs, i, j, []);
    forall k | 0 <= k < |bs'| ensures NodeOk(mem', bs', k) {
      CutNode(mem, mem', bs, i, j, k);
    }
  }

  lemma PlaceUnique(bs: seq<Block>, start: nat, i: nat, j: nat)
    requires i <= |bs| && j <= |bs|
    requires forall x | 0 <= x < |bs| :: bs[x].start < start <==> x < i
    requires forall x | 0 <= x < |bs| :: bs[x].start < start <==> x < j
    ensures i == j
  {
    var m := if i < j then i else j;
    assert m < |bs| ==> (bs[m].start < start <==> m < i);
  }

  /** The rest of a block goes back where the block was. */
  lemma RestPlace(bs: seq<Block>, i: nat, n: nat)
    requires Canonical(bs) && i < |bs| && n < bs[i].count
    ensures var cut := Splice(bs, i, i + 1, []);
      && |cut| == |bs| - 1
      && (forall x | 0 <= x < i :: cut[x].start < bs[i].start + n)
      && (forall y | i <= y < |cut| :: bs[i].start + n < cut[y].start)
  {
    var cut := Splice(bs, i, i + 1, []);
    assert forall y | i <= y < |cut| :: cut[y] == bs[y + 1];
  }

  /** What `alloc_block` does to the list: nothing when no block is large enough, which is the
      out-of-memory panic, and otherwise it takes the first frames of the lowest block that is. */
  ghost predicate Allocates(bs: seq<Block>, n: nat, r: Option<Range>, bs': seq<Block>)
  {
    match r
    case None => bs' == bs && forall i | 0 <= i < |bs| :: bs[i].count < n
    case Some(range) =>
      && (exists i: nat :: FirstFit(bs, n, i) && range == Range(bs[i].start, bs[i].start + n))
      && IsDifference(bs', bs, range) && (Canonical(bs) ==> Canonical(bs'))
      && (forall f: nat :: InRange(range, f) ==> Covers(bs, f))
  }

  predicate EndsAt(bs: seq<Block>, f: nat)
  {
    exists i :: 0 <= i < |bs| && bs[i].End() == f
  }

  /** What `free_block` does to the list.  It panics on an overlap, unless the freed range starts
      right behind a free block: then the overlap goes unnoticed and the list is no longer sound.  An
      empty range becomes an empty block, unless it touches one. */
  ghost predicate Frees(bs: seq<Block>, r: Range, ok: bool, bs': seq<Block>)
  {
    && (!ok <==> !NoOverlap(bs, r) && !EndsAt(bs, r.start))
    && (!ok ==> bs' == bs)
    && (NoOverlap(bs, r) ==> IsUnion(bs', bs, r) && (Canonical(bs') <==> r.start < r.end || Touched(bs, r.start)))
    && (ok && !NoOverlap(bs, r) ==> !Canonical(bs'))
  }

  /** A block begins or ends at `f`. */
  predicate Touched(bs: seq<Block>, f: nat)
  {
    exists i :: 0 <= i < |bs| && (bs[i].start == f || bs[i].End() == f)
  }

  /** The walk has passed the blocks before `i`, which all end below the range. */
  predicate PassedBelow(bs: seq<Block>, r: Range, i: nat)
  {
    i <= |bs| && forall x | 0 <= x < i :: bs[x].End() < r.start
  }

  lemma FreesPanic(bs: seq<Block>, r: Range, i: nat)
    requires Canonical(bs) && r.start <= r.end && PassedBelow(bs, r, i) && i < |bs| && Overlaps(bs[i], r)
    ensures Frees(bs, r, false, bs)
  {
  }

  lemma FreesBelow(bs: seq<Block>, r: Range, i: nat)
    requires Canonical(bs) && r.start <= r.end && PassedBelow(bs, r, i) && i < |bs| && r.end == bs[i].start
    ensures Frees(bs, r, true, Splice(bs, i, i + 1, [Block(r.start, bs[i].count + (r.end - r.start))]))
  {
    FreeBelow(bs, i, r);
  }

  lemma FreesAbove(bs: seq<Block>, r: Range, i: nat)
    requires Canonical(bs) && r.start <= r.end && PassedBelow(bs, r, i) && i < |bs| && bs[i].End() == r.start
    requires i + 1 < |bs| ==> r.end != bs[i + 1].start
    ensures Frees(bs, r, true, Splice(bs, i, i + 1, [Block(bs[i].start, bs[i].count + (r.end - r.start))]))
  {
    var b := Block(bs[i].start, bs[i].count + (r.end - r.start));
    var bs' := Splice(bs, i, i + 1, [b]);
    if NoOverlap(bs, r) {
      assert i + 1 < |bs| ==> !Overlaps(bs[i + 1], r);
      FreeAbove(bs, i, r);
    } else {
      var x :| 0 <= x < |bs| && Overlaps(bs[x], r);
      assert x > i && bs[i + 1].start <= bs[x].start;
      SpliceAt(bs, i, i + 1, [b], i);
      SpliceAt(bs, i, i + 1, [b], i + 1);
    }
  }

  lemma FreesBetween(bs: seq<Block>, r: Range, i: nat)
    requires Canonical(bs) && r.start <= r.end && PassedBelow(bs, r, i) && i + 1 < |bs|
    requires bs[i].End() == r.start && r.end == bs[i + 1].start
    ensures Frees(bs, r, true,
                  Splice(bs, i, i + 2, [Block(bs[i].start, bs[i].count + (r.end - r.start) + bs[i + 1].count)]))
  {
    FreeBetween(bs, i, r);
    assert NoOverlap(bs, r);
  }

  lemma FreesApart(bs: seq<Block>, r: Range, i: nat)
    requires Canonical(bs) && r.start <= r.end && PassedBelow(bs, r, i) && (i < |bs| ==> r.end < bs[i].start)
    ensures forall x | 0 <= x < |bs| :: bs[x].start < r.start <==> x < i
    ensures forall x | 0 <= x < |bs| :: bs[x].start != r.start
    ensures Frees(bs, r, true, Splice(bs, i, i, [Block(r.start, r.end - r.start)]))
  {
    assert forall y | i <= y < |bs| :: bs[i].start <= bs[y].start;
    FreeApart(bs, i, r);
  }

  class FrameAllocator {
    /** `head.next`. */
    var head: Option<nat>
    var mem: map<nat, Node>
    var physLimit: nat
    ghost var blocks: seq<Block>

    ghost predicate Shape()
      reads this
    {
      Linked(mem, head, blocks) && SortedStarts(blocks)
    }

    ghost predicate Valid()
      reads this
    {
      Shape() && Canonical(blocks)
    }

    constructor ()
      ensures Valid() && blocks == [] && physLimit == 0
    {
      head, mem, physLimit, blocks := None, map[], 0, [];
    }

    function Next(cursor: Option<nat>): Option<nat>
      requires cursor.Some? ==> cursor.value in mem
      reads this
    {
      if cursor.None? then head else mem[cursor.value].next
    }

    method SetNext(cursor: Option<nat>, next: Option<nat>)
      requires cursor.Some? ==> cursor.value in mem
      modifies this`head, this`mem
      ensures cursor.None? ==> head == next && mem == old(mem)
      ensures cursor.Some? ==>
              head == old(head) && mem == old(mem)[cursor.value := old(mem)[cursor.value].(next := next)]
    {
      if cursor.None? {
        head := next;
      } else {
        mem := mem[cursor.value := mem[cursor.value].(next := next)];
      }
    }

    /** Writes a node for `b` and links it in behind the cursor, in place of the blocks `i` to `j`. */
    method LinkIn(cursor: Option<nat>, b: Block, next: Option<nat>, ghost i: nat, ghost j: nat)
      requires Shape() && i <= j <= |blocks| && cursor == CursorAt(blocks, i) && next == StartAt(blocks, j)
      requires forall x | 0 <= x < i :: blocks[x].start < b.start
      requires forall y | j <= y < |blocks| :: b.start < blocks[y].start
      modifies this`head, this`mem, this`blocks
      ensures Shape() && blocks == Splice(old(blocks), i, j, [b])
      ensures i < |blocks| && CursorAt(blocks, i) == CursorAt(old(blocks), i)
    {
      hide Linked, SortedStarts;
      LinkedSplice(mem, head, blocks, i, j, b);
      mem := mem[b.start := Node(b.count, next)];
      SetNext(cursor, Some(b.start));
      blocks := Splice(blocks, i, j, [b]);
    }

    /** Links the cursor past the blocks `i` to `j`. */
    method Unlink(cursor: Option<nat>, next: Option<nat>, ghost i: nat, ghost j: nat)
      requires Shape() && i <= j <= |blocks| && cursor == CursorAt(blocks, i) && next == StartAt(blocks, j)
      modifies this`head, this`mem, this`blocks
      ensures Shape() && blocks == Splice(old(blocks), i, j, [])
      ensures i <= |blocks| && CursorAt(blocks, i) == CursorAt(old(blocks), i)
      ensures |blocks| == |old(blocks)| - (j - i)
    {
      hide Linked, SortedStarts;
      LinkedCut(mem, head, blocks, i, j);
      SetNext(cursor, next);
      blocks := Splice(blocks, i, j, []);
    }

    /** Inserts a new block, sorted ascending by address. */
    method Insert(r: Range) returns (ghost at: nat)
      requires Shape() && r.start <= r.end && forall i | 0 <= i < |blocks| :: blocks[i].start != r.start
      modifies this`head, this`mem, this`blocks
      ensures Shape() && at <= |old(blocks)|
      ensures forall x | 0 <= x < at :: old(blocks)[x].start < r.start
      ensures forall y | at <= y < |old(blocks)| :: r.start < old(blocks)[y].start
      ensures blocks == Splice(old(blocks), at, at, [Block(r.start, r.end - r.start)])
    {
      hide Linked, SortedStarts, Splice;
      at := 0;
      Facts(mem, head, blocks, 0);
      var block := Block(r.start, r.end - r.start);
      if head.None? {
        LinkIn(None, block, None, 0, 0);
        return;
      }
      var cursor: Option<nat> := None;
      while Next(cursor).Some?
        invariant Shape() && blocks == old(blocks)
        invariant at <= |blocks| && cursor == CursorAt(blocks, at)
        invariant cursor.Some? ==> cursor.value in mem
        invariant Next(cursor) == StartAt(blocks, at)
        invariant forall x | 0 <= x < at :: blocks[x].start < r.start
        decreases |blocks| - at
      {
        var next := Next(cursor).value;
        Facts(mem, head, blocks, at);
        if next > r.start {
          Ascending(blocks, at);
          LinkIn(cursor, block, Some(next), at, at);
          return;
        }
        cursor := Some(next);
        at := at + 1;
        Facts(mem, head, blocks, at);
      }
      LinkIn(cursor, block, None, at, at);
    }

    /** Unlinks the first block with at least `n` frames. */
    method FindFreeBlock(n: nat) returns (found: Option<Block>, ghost at: nat)
      requires Shape()
      modifies this`head, this`mem, this`blocks
      ensures Shape()
      ensures found.None? ==> blocks == old(blocks) && forall i | 0 <= i < |blocks| :: blocks[i].count < n
      ensures found.Some? ==> FirstFit(old(blocks), n, at) && found.value == old(blocks)[at]
                              && blocks == Splice(old(blocks), at, at + 1, [])
    {
      hide Linked, SortedStarts, Splice;
      at := 0;
      Facts(mem, head, blocks, 0);
      var cursor: Option<nat> := None;
      while Next(cursor).Some?
        invariant Shape() && blocks == old(blocks)
        invariant at <= |blocks| && cursor == CursorAt(blocks, at)
        invariant cursor.Some? ==> cursor.value in mem
        invariant Next(cursor) == StartAt(blocks, at)
        invariant forall x | 0 <= x < at :: blocks[x].count < n
        decreases |blocks| - at
      {
        var start := Next(cursor).value;
        Facts(mem, head, blocks, at);
        if mem[start].count >= n {
          found := Some(Block(start, mem[start].count));
          Unlink(cursor, mem[start].next, at, at + 1);
          return;
        }
        cursor := Some(start);
        at := at + 1;
        Facts(mem, head, blocks, at);
      }
      found := None;
    }

    /** Takes `n` frames from the start of the lowest block that has them.  `None` is the
        out-of-memory panic. */
    method AllocBlock(n: nat) returns (r: Option<Range>)
      requires Valid()
      modifies this`head, this`mem, this`blocks
      ensures Valid()
      ensures Allocates(old(blocks), n, r, blocks)
    {
      hide IsDifference, Covers, Canonical, Linked, SortedStarts, Splice;
      ghost var bs := blocks;
      var found; ghost var at;
      found, at := FindFreeBlock(n);
      if found.None? {
        return None;
      }
      AllocTakes(bs, n, at);
      var block := found.value;
      var remaining := Range(block.start + n, block.End());
      if remaining.end - remaining.start > 0 {
        RestPlace(bs, at, n);
        ghost var cut := blocks;
        ghost var k := Insert(remaining);
        PlaceUnique(cut, remaining.start, k, at);
      }
      SpliceTwice(bs, at, Rest(block, n));
      r := Some(Range(block.start, remaining.start));
    }
  
    /** Rewrites the node of block `i` in place; it swallows the blocks up to `j`. */
    method Resize(b: Block, next: Option<nat>, ghost i: nat, ghost j: nat)
      requires Shape() && i < j <= |blocks| && b.start == blocks[i].start && next == StartAt(blocks, j)
      modifies this`mem, this`blocks
      ensures Shape() && blocks == Splice(old(blocks), i, j, [b])
      ensures i < |blocks| && CursorAt(blocks, i) == CursorAt(old(blocks), i)
    {
      hide Linked, SortedStarts;
      SpliceOrder(mem, head, blocks, i, j);
      LinkedSplice(mem, head, blocks, i, j, b);
      Rewritten(mem, head, blocks, i, Node(b.count, next));
      mem := mem[b.start := Node(b.count, next)];
      blocks := Splice(blocks, i, j, [b]);
    }

    /** Gives a range of frames back, fusing it with its neighbours.  The answer is false where the
        allocator panics. */
    method FreeBlock(r: Range) returns (ok: bool)
      requires Valid() && r.start <= r.end
      modifies this`head, this`mem, this`blocks
      ensures Shape() && Frees(old(blocks), r, ok, blocks)
    {
      hide Linked, SortedStarts, Frees, Canonical, Splice, PassedBelow;
      var cursor: Option<nat> := None;
      ghost var i := 0;
      StartWalk(blocks, r);
      ghost var bs := blocks;
      Facts(mem, head, blocks, 0);
      while Next(cursor).Some?
        invariant blocks == bs && Valid() && i <= |blocks| && cursor == CursorAt(blocks, i)
        invariant cursor.Some? ==> cursor.value in mem
        invariant Next(cursor) == StartAt(blocks, i) && PassedBelow(blocks, r, i)
        decreases |blocks| - i
      {
        Facts(mem, head, blocks, i);
        var start := Next(cursor).value;
        var block := Block(start, mem[start].count);
        var next := mem[start].next;
        if !(r.end <= block.start || r.start >= block.End()) {
          FreesPanic(bs, r, i);
          return false;
        }
        if r.end == block.start {
          FreesBelow(bs, r, i);
          Below(bs, r, i);
          LinkIn(cursor, Block(r.start, block.count + (r.end - r.start)), next, i, i + 1);
          return true;
        } else if block.End() == r.start {
          var grown := Block(block.start, block.count + (r.end - r.start));
          if next.Some? {
            Facts(mem, head, blocks, i + 1);
            if grown.End() == next.value {
              FreesBetween(bs, r, i);
              Resize(Block(start, grown.count + mem[next.value].count), mem[next.value].next, i, i + 2);
              return true;
            }
          }
          FreesAbove(bs, r, i);
          Resize(grown, next, i, i + 1);
          return true;
        } else if block.End() > r.start {
          break;
        }
        PassOne(bs, r, i);
        cursor := Some(start);
        i := i + 1;
        Facts(mem, head, blocks, i);
      }
      FreesApart(bs, r, i);
      ghost var k := Insert(r);
      PlaceUnique(bs, r.start, k, i);
      ok := true;
    }
  
    /** Permanently takes a range out of the list.  The answer is false where the walk panics. */
    method ReserveBlock(r: Range) returns (ok: bool)
      requires Valid() && r.start <= r.end
      modifies this`head, this`mem, this`blocks
      ensures Shape()
      ensures ok <==> Reserved(old(blocks), r).Some?
      ensures ok ==> blocks == Reserved(old(blocks), r).value
      ensures Reservable(old(blocks), r) ==> ok && Valid() && IsDifference(blocks, old(blocks), r)
    {
      hide Linked, SortedStarts, Canonical, Splice, Reserved, Reservable, IsDifference, Walking, Work;
      var cursor: Option<nat> := None;
      ghost var i := 0;
      ghost var bs := blocks;
      ReserveExactly(bs, r);
      StartReserve(bs, r);
      Facts(mem, head, blocks, 0);
      while Next(cursor).Some?
        invariant Shape() && i <= |blocks| && cursor == CursorAt(blocks, i)
        invariant cursor.Some? ==> cursor.value in mem
        invariant Next(cursor) == StartAt(blocks, i) && Walking(bs, r, blocks, i)
        decreases Work(blocks, i, r)
      {
        Facts(mem, head, blocks, i);
        var start := Next(cursor).value;
        var block := Block(start, mem[start].count);
        var next := mem[start].next;
        if block.start > r.end {
          WalkEnds(bs, r, blocks, i);
          return true;
        } else if block.start < r.start && block.End() >= r.start {
          if block.End() <= r.end {
            WalkTrims(bs, r, blocks, i);
            Resize(Block(start, r.start - start), next, i, i + 1);
          } else {
            WalkSplits(bs, r, blocks, i);
            var below, above := Block(start, r.start - start), Block(r.end, block.End() - r.end);
            SplitBlock(below, above, next, i);
          }
        } else if block.start <= r.end && block.End() >= r.start {
          if block.End() <= r.end {
            WalkUnlinks(bs, r, blocks, i);
            Unlink(cursor, next, i, i + 1);
            if next.None? {
              return false;
            }
          } else {
            WalkCuts(bs, r, blocks, i);
            var overlapping := r.end - start;
            LinkIn(cursor, Block(start + overlapping, block.count - overlapping), next, i, i + 1);
          }
        } else {
          WalkPasses(bs, r, blocks, i);
        }
        Facts(mem, head, blocks, i);
        cursor := Next(cursor);
        i := i + 1;
        Facts(mem, head, blocks, i);
      }
      WalkEnds(bs, r, blocks, i);
      ok := true;
    }

    /** Replaces block `i` by a shorter one and a new one behind it. */
    method SplitBlock(below: Block, above: Block, next: Option<nat>, ghost i: nat)
      requires Shape() && i < |blocks| && below.start == blocks[i].start < above.start && next == StartAt(blocks, i + 1)
      requires forall y | i + 1 <= y < |blocks| :: above.start < blocks[y].start
      modifies this`head, this`mem, this`blocks
      ensures Shape() && blocks == Splice(old(blocks), i, i + 1, [below, above])
      ensures i < |blocks| && CursorAt(blocks, i) == CursorAt(old(blocks), i)
    {
      ghost var bs := blocks;
      Resize(below, next, i, i + 1);
      SpliceAgain(bs, i, below, above);
      LinkIn(Some(below.start), above, next, i + 1, i + 1);
    }

    /** Takes over memory found at boot, except frame 0, and raises the limit. */
    method BootInsert(region: Range) returns (ok: bool)
      requires Valid() && region.start <= region.end
      modifies this
      ensures Shape()
      ensures BootRange(region).None? ==> ok && blocks == old(blocks) && physLimit == old(physLimit)
      ensures BootRange(region).Some? ==>
                && Frees(old(blocks), BootRange(region).value, ok, blocks)
                && physLimit == if region.end > old(physLimit) then region.end else old(physLimit)
      ensures region.start < region.end && (forall f | InRange(region, f) && f >= 1 :: !Covers(old(blocks), f)) ==>
                ok && forall f: nat :: Covers(blocks, f) <==> Covers(old(blocks), f) || (InRange(region, f) && f >= 1)
      ensures physLimit == if region.end > old(physLimit) && (region.start > 0 || region.end > 1) then region.end
                           else old(physLimit)
    {
      BootFrames(blocks, region);
      var start := region.start;
      if start == 0 {
        if region.end <= 1 {
          return true;
        }
        start := 1;
      }
      if region.end > physLimit {
        physLimit := region.end;
      }
      ok := FreeBlock(Range(start, region.end));
    }
  }

  /** The part of a boot region that is inserted. */
  function BootRange(region: Range): Option<Range>
  {
    if region.start == 0 then
      if region.end <= 1 then None else Some(Range(1, region.end))
    else Some(region)
  }

  /** Those are all its frames but frame 0. */
  lemma BootFrames(bs: seq<Block>, region: Range)
    requires Canonical(bs) && region.start <= region.end
    ensures forall f: nat ::
              (BootRange(region).Some? && InRange(BootRange(region).value, f)) <==> InRange(region, f) && f >= 1
    ensures BootRange(region).None? <==> region.start == 0 && region.end <= 1
    ensures region.start < region.end && (forall f | InRange(region, f) && f >= 1 :: !Covers(bs, f)) ==>
              BootRange(region).Some? ==> NoOverlap(bs, BootRange(region).value)
  {
    if region.start < region.end && BootRange(region).Some?
       && forall f | InRange(region, f) && f >= 1 :: !Covers(bs, f)
    {
      var r := BootRange(region).value;
      forall i | 0 <= i < |bs| ensures !Overlaps(bs[i], r) {
        var f := if bs[i].start < r.start then r.start else bs[i].start;
        assert InBlock(bs[i], f) ==> Covers(bs, f);
      }
    }
  }

  lemma SpliceAgain(bs: seq<Block>, i: nat, below: Block, above: Block)
    requires i < |bs|
    ensures var one := Splice(bs, i, i + 1, [below]);
      && i + 1 <= |one| && Splice(one, i + 1, i + 1, [above]) == Splice(bs, i, i + 1, [below, above])
      && StartAt(one, i + 1) == StartAt(bs, i + 1) && one[i] == below
      && (forall x | 0 <= x < i :: one[x] == bs[x])
      && (forall y | i + 1 <= y < |one| :: one[y] == bs[y])
  {
    var one := Splice(bs, i, i + 1, [below]);
    assert one[..i + 1] == bs[..i] + [below] && one[i + 1..] == bs[i + 1..];
  }

  /** The walk has dealt with the first `i` blocks of `now`; what it will do to the rest is what it
      would do to that rest as a list of its own. */
  ghost predicate Walking(bs: seq<Block>, r: Range, now: seq<Block>, i: nat)
    requires r.start <= r.end
  {
    i <= |now| && Canonical(now[i..]) && Reserved(bs, r) == Prepend(now[..i], Reserved(now[i..], r))
  }

  /** Steps left to the walk: one a block, and one more for a block it may split. */
  function Work(now: seq<Block>, i: nat, r: Range): nat
    requires i <= |now|
  {
    |now| - i + if i < |now| && now[i].start < r.start then 1 else 0
  }

  lemma StartReserve(bs: seq<Block>, r: Range)
    requires Canonical(bs) && r.start <= r.end
    ensures Walking(bs, r, bs, 0)
  {
    assert bs[0..] == bs && bs[..0] == [];
    assert Reserved(bs, r).Some? ==> [] + Reserved(bs, r).value == Reserved(bs, r).value;
  }

  lemma WalkEnds(bs: seq<Block>, r: Range, now: seq<Block>, i: nat)
    requires r.start <= r.end && Walking(bs, r, now, i) && (i < |now| ==> now[i].start > r.end)
    ensures Reserved(bs, r) == Some(now)
  {
    assert now[..i] + now[i..] == now;
  }

  lemma PrependTwice(a: seq<Block>, b: seq<Block>, rest: Option<seq<Block>>)
    ensures Prepend(a, Prepend(b, rest)) == Prepend(a + b, rest)
  {
    if rest.Some? {
      assert a + (b + rest.value) == (a + b) + rest.value;
    }
  }

  /** Replacing block `i` by one piece and moving on. */
  lemma WalkOne(bs: seq<Block>, r: Range, now: seq<Block>, i: nat, piece: Block)
    requires r.start <= r.end && Walking(bs, r, now, i) && i < |now| && SortedStarts(now)
    requires Reserved(now[i..], r) == Prepend([piece], Reserved(now[i..][1..], r))
    ensures var now' := Splice(now, i, i + 1, [piece]);
      i + 1 <= |now'| && Walking(bs, r, now', i + 1) && Work(now', i + 1, r) < Work(now, i, r)
  {
    var now' := Splice(now, i, i + 1, [piece]);
    assert now[i..][1..] == now[i + 1..] == now'[i + 1..];
    assert now'[..i + 1] == now[..i] + [piece];
    PrependTwice(now[..i], [piece], Reserved(now[i + 1..], r));
  }

  lemma WalkTrims(bs: seq<Block>, r: Range, now: seq<Block>, i: nat)
    requires r.start <= r.end && Walking(bs, r, now, i) && i < |now|
    requires now[i].start < r.start <= now[i].End() <= r.end && SortedStarts(now)
    ensures var now' := Splice(now, i, i + 1, [Block(now[i].start, r.start - now[i].start)]);
      i + 1 <= |now'| && Walking(bs, r, now', i + 1) && Work(now', i + 1, r) < Work(now, i, r)
  {
    WalkOne(bs, r, now, i, Block(now[i].start, r.start - now[i].start));
  }

  lemma WalkCuts(bs: seq<Block>, r: Range, now: seq<Block>, i: nat)
    requires r.start <= r.end && Walking(bs, r, now, i) && i < |now| && SortedStarts(now)
    requires r.start <= now[i].start <= r.end < now[i].End()
    ensures var now' := Splice(now, i, i + 1, [Block(r.end, now[i].End() - r.end)]);
      i + 1 <= |now'| && Walking(bs, r, now', i + 1) && Work(now', i + 1, r) < Work(now, i, r)
    ensures forall x | 0 <= x < i :: now[x].start < r.end
    ensures forall y | i + 1 <= y < |now| :: r.end < now[y].start
  {
    WalkOne(bs, r, now, i, Block(r.end, now[i].End() - r.end));
    assert forall y | i + 1 <= y < |now| :: now[y] == now[i..][y - i] && now[i] == now[i..][0];
  }

  lemma WalkPasses(bs: seq<Block>, r: Range, now: seq<Block>, i: nat)
    requires r.start <= r.end && Walking(bs, r, now, i) && i < |now| && now[i].End() < r.start && SortedStarts(now)
    ensures Walking(bs, r, now, i + 1) && Work(now, i + 1, r) < Work(now, i, r)
  {
    WalkOne(bs, r, now, i, now[i]);
    assert Splice(now, i, i + 1, [now[i]]) == now;
  }

  lemma WalkUnlinks(bs: seq<Block>, r: Range, now: seq<Block>, i: nat)
    requires r.start <= r.end && Walking(bs, r, now, i) && i < |now|
    requires r.start <= now[i].start && now[i].End() <= r.end && SortedStarts(now)
    ensures i + 1 == |now| ==> Reserved(bs, r) == None
    ensures i + 1 < |now| ==>
              var now' := Splice(now, i, i + 1, []);
              i + 1 <= |now'| && Walking(bs, r, now', i + 1) && Work(now', i + 1, r) < Work(now, i, r)
  {
    assert now[i..][0] == now[i];
    if i + 1 < |now| {
      var now' := Splice(now, i, i + 1, []);
      assert now[i..][1] == now[i + 1] && now[i..][2..] == now[i + 2..] == now'[i + 1..];
      assert now'[..i + 1] == now[..i] + [now[i + 1]];
      PrependTwice(now[..i], [now[i + 1]], Reserved(now[i + 2..], r));
    }
  }

  lemma WalkSplits(bs: seq<Block>, r: Range, now: seq<Block>, i: nat)
    requires r.start <= r.end && Walking(bs, r, now, i) && i < |now|
    requires now[i].start < r.start && r.end < now[i].End()
    ensures var now' := Splice(now, i, i + 1,
                               [Block(now[i].start, r.start - now[i].start), Block(r.end, now[i].End() - r.end)]);
      i + 1 <= |now'| && Walking(bs, r, now', i + 1) && Work(now', i + 1, r) < Work(now, i, r)
    ensures forall y | i + 1 <= y < |now| :: r.end < now[y].start
  {
    var below, above := Block(now[i].start, r.start - now[i].start), Block(r.end, now[i].End() - r.end);
    var now' := Splice(now, i, i + 1, [below, above]);
    var rest := now[i + 1..];
    assert now[i..][0] == now[i] && now[i..][1..] == rest;
    assert forall y | i + 1 <= y < |now| :: now[y] == now[i..][y - i];
    assert now'[i + 1..] == [above] + rest && now'[..i + 1] == now[..i] + [below];
    assert Canonical([above] + rest) by {
      assert forall y | 0 <= y < |rest| :: rest[y] == now[i..][y + 1];
    }
    assert ([above] + rest)[0] == above && ([above] + rest)[1..] == rest;
    assert Reserved([above] + rest, r) == Prepend([above], Reserved(rest, r));
    PrependTwice([below], [above], Reserved(rest, r));
    assert [below] + [above] == [below, above];
    PrependTwice(now[..i], [below], Reserved([above] + rest, r));
  }

  lemma StartWalk(bs: seq<Block>, r: Range)
    ensures PassedBelow(bs, r, 0)
  {
  }

  lemma PassOne(bs: seq<Block>, r: Range, i: nat)
    requires PassedBelow(bs, r, i) && i < |bs| && bs[i].End() < r.start
    ensures PassedBelow(bs, r, i + 1)
  {
  }

  /** What stands in memory around block `i`. */
  lemma Facts(mem: map<nat, Node>, head: Option<nat>, bs: seq<Block>, i: nat)
    requires Linked(mem, head, bs) && i <= |bs|
    ensures i == 0 ==> head == StartAt(bs, 0)
    ensures i > 0 ==> bs[i - 1].start in mem && mem[bs[i - 1].start].next == StartAt(bs, i)
    ensures i < |bs| ==> bs[i].start in mem && mem[bs[i].start] == Node(bs[i].count, StartAt(bs, i + 1))
  {
  }

  lemma Ascending(bs: seq<Block>, i: nat)
    requires SortedStarts(bs) && i < |bs|
    ensures forall y | i <= y < |bs| :: bs[i].start <= bs[y].start
  {
  }

  lemma Below(bs: seq<Block>, r: Range, i: nat)
    requires Canonical(bs) && r.start <= r.end && PassedBelow(bs, r, i) && i < |bs| && r.end == bs[i].start
    ensures forall x | 0 <= x < i :: bs[x].start < r.start
    ensures forall y | i + 1 <= y < |bs| :: r.start < bs[y].start
  {
  }
}
