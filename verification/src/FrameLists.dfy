/** Lists of free page-frame blocks: the sorted, coalesced form of a set of frames, and why it is
    unique. */
module FrameLists {

  datatype Block = Block(start: nat, count: nat) {
    function End(): nat { start + count }
  }

  /** A half-open range of frames. */
  datatype Range = Range(start: nat, end: nat)

  predicate InBlock(b: Block, f: nat)
  {
    b.start <= f < b.End()
  }

  predicate InRange(r: Range, f: nat)
  {
    r.start <= f < r.end
  }

  predicate Overlaps(b: Block, r: Range)
  {
    !(r.end <= b.start || r.start >= b.End())
  }

  /** Sorted, without empty blocks, and with at least one frame missing between neighbours. */
  predicate Canonical(bs: seq<Block>)
  {
    && (forall i | 0 <= i < |bs| :: bs[i].count >= 1)
    && (forall i, j | 0 <= i < j < |bs| :: bs[i].End() < bs[j].start)
  }

  /** Frame `f` is free. */
  predicate Covers(bs: seq<Block>, f: nat)
  {
    exists i :: 0 <= i < |bs| && InBlock(bs[i], f)
  }

  predicate NoOverlap(bs: seq<Block>, r: Range)
  {
    forall i | 0 <= i < |bs| :: !Overlaps(bs[i], r)
  }

  /** The frames of `bs'` are those of `bs` and the range. */
  ghost predicate IsUnion(bs': seq<Block>, bs: seq<Block>, r: Range)
  {
    forall f: nat :: Covers(bs', f) <==> Covers(bs, f) || InRange(r, f)
  }

  /** The frames of `bs'` are those of `bs` outside the range. */
  ghost predicate IsDifference(bs': seq<Block>, bs: seq<Block>, r: Range)
  {
    forall f: nat :: Covers(bs', f) <==> Covers(bs, f) && !InRange(r, f)
  }

  lemma CoversConcat(a: seq<Block>, b: seq<Block>, f: nat)
    ensures Covers(a + b, f) <==> Covers(a, f) || Covers(b, f)
  {
    var s := a + b;
    if Covers(a, f) {
      var i :| 0 <= i < |a| && InBlock(a[i], f);
      assert InBlock(s[i], f);
    }
    if Covers(b, f) {
      var i :| 0 <= i < |b| && InBlock(b[i], f);
      assert InBlock(s[|a| + i], f);
    }
  }

  lemma CoversOne(b: Block, f: nat)
    ensures Covers([b], f) <==> InBlock(b, f)
  {
    assert InBlock(b, f) ==> InBlock([b][0], f);
  }

  lemma CoversCons(b: Block, bs: seq<Block>, f: nat)
    ensures Covers([b] + bs, f) <==> InBlock(b, f) || Covers(bs, f)
  {
    CoversConcat([b], bs, f);
    CoversOne(b, f);
  }

  /** Nothing in a canonical list lies below its first block or right behind it. */
  lemma CanonicalFirst(bs: seq<Block>, f: nat)
    requires Canonical(bs) && bs != []
    ensures Covers(bs, f) ==> f >= bs[0].start
    ensures Covers(bs, bs[0].start) && !Covers(bs, bs[0].End())
    ensures f < bs[0].End() && f >= bs[0].start ==> Covers(bs, f)
  {
    assert InBlock(bs[0], bs[0].start);
    assert InBlock(bs[0], f) ==> Covers(bs, f);
  }

  lemma FirstCovered(bs: seq<Block>)
    requires Canonical(bs)
    ensures bs != [] ==> Covers(bs, bs[0].start)
  {
    assert bs != [] ==> InBlock(bs[0], bs[0].start);
  }

  /** A set of frames has exactly one canonical list. */
  lemma {:induction false} CanonicalUnique(a: seq<Block>, b: seq<Block>)
    requires Canonical(a) && Canonical(b) && forall f: nat :: Covers(a, f) <==> Covers(b, f)
    ensures a == b
    decreases |a|
  {
    FirstCovered(a);
    FirstCovered(b);
    if a != [] && b != [] {
      SameFirst(a, b);
      assert a == [a[0]] + a[1..] && b == [b[0]] + b[1..];
      forall f: nat ensures Covers(a[1..], f) <==> Covers(b[1..], f) {
        CoversCons(a[0], a[1..], f);
        CoversCons(b[0], b[1..], f);
        TailBeyond(a, f);
        TailBeyond(b, f);
      }
      CanonicalUnique(a[1..], b[1..]);
    }
  }

  lemma TailBeyond(bs: seq<Block>, f: nat)
    requires Canonical(bs) && bs != []
    ensures Covers(bs[1..], f) ==> f > bs[0].End()
  {
    if Covers(bs[1..], f) {
      var i :| 0 <= i < |bs[1..]| && InBlock(bs[1..][i], f);
      assert bs[1..][i] == bs[i + 1];
    }
  }

  lemma SameFirst(a: seq<Block>, b: seq<Block>)
    requires Canonical(a) && Canonical(b) && a != [] && b != []
    requires forall f: nat :: Covers(a, f) <==> Covers(b, f)
    ensures a[0] == b[0]
  {
    CanonicalFirst(a, b[0].start);
    CanonicalFirst(b, a[0].start);
    CanonicalFirst(a, b[0].End());
    CanonicalFirst(b, a[0].End());
  }

  /** Two canonical lists with a gap between them make one. */
  lemma CanonicalJoin(a: seq<Block>, b: seq<Block>)
    requires Canonical(a) && Canonical(b)
    requires forall i, j | 0 <= i < |a| && 0 <= j < |b| :: a[i].End() < b[j].start
    ensures Canonical(a + b)
  {
  }

  // --------------------------------------------------------------- splices

  /** `bs` with the blocks from `i` to `j` replaced by `mid`. */
  function Splice(bs: seq<Block>, i: nat, j: nat, mid: seq<Block>): seq<Block>
    requires i <= j <= |bs|
  {
    bs[..i] + mid + bs[j..]
  }

  lemma SpliceCovers(bs: seq<Block>, i: nat, j: nat, mid: seq<Block>, f: nat)
    requires i <= j <= |bs|
    ensures Covers(Splice(bs, i, j, mid), f) <==> Covers(bs[..i], f) || Covers(mid, f) || Covers(bs[j..], f)
    ensures Covers(bs, f) <==> Covers(bs[..i], f) || Covers(bs[i..j], f) || Covers(bs[j..], f)
  {
    CoversConcat(bs[..i] + mid, bs[j..], f);
    CoversConcat(bs[..i], mid, f);
    assert bs == (bs[..i] + bs[i..j]) + bs[j..];
    CoversConcat(bs[..i] + bs[i..j], bs[j..], f);
    CoversConcat(bs[..i], bs[i..j], f);
  }

  lemma SpliceCanonical(bs: seq<Block>, i: nat, j: nat, mid: seq<Block>)
    requires i <= j <= |bs| && Canonical(bs) && Canonical(mid)
    requires forall x, m | 0 <= x < i && 0 <= m < |mid| :: bs[x].End() < mid[m].start
    requires forall m, y | 0 <= m < |mid| && j <= y < |bs| :: mid[m].End() < bs[y].start
    ensures Canonical(Splice(bs, i, j, mid))
  {
  }

  lemma SpliceUnion(bs: seq<Block>, i: nat, j: nat, mid: seq<Block>, r: Range)
    requires i <= j <= |bs|
    requires forall f: nat :: Covers(mid, f) <==> Covers(bs[i..j], f) || InRange(r, f)
    ensures IsUnion(Splice(bs, i, j, mid), bs, r)
  {
    forall f: nat ensures Covers(Splice(bs, i, j, mid), f) <==> Covers(bs, f) || InRange(r, f) {
      SpliceCovers(bs, i, j, mid, f);
    }
  }

  lemma SpliceDifference(bs: seq<Block>, i: nat, j: nat, mid: seq<Block>, r: Range)
    requires i <= j <= |bs|
    requires forall f: nat :: Covers(mid, f) <==> Covers(bs[i..j], f) && !InRange(r, f)
    requires forall f: nat :: Covers(bs[..i], f) || Covers(bs[j..], f) ==> !InRange(r, f)
    ensures IsDifference(Splice(bs, i, j, mid), bs, r)
  {
    forall f: nat ensures Covers(Splice(bs, i, j, mid), f) <==> Covers(bs, f) && !InRange(r, f) {
      SpliceCovers(bs, i, j, mid, f);
    }
  }

  // ------------------------------------------------------------------ free

  /** The freed range touches no block: it becomes a block of its own. */
  lemma FreeApart(bs: seq<Block>, i: nat, r: Range)
    requires Canonical(bs) && i <= |bs| && r.start <= r.end
    requires forall x | 0 <= x < i :: bs[x].End() < r.start
    requires forall y | i <= y < |bs| :: r.end < bs[y].start
    ensures Canonical(Splice(bs, i, i, [Block(r.start, r.end - r.start)])) <==> r.start < r.end
    ensures IsUnion(Splice(bs, i, i, [Block(r.start, r.end - r.start)]), bs, r)
  {
    var b := Block(r.start, r.end - r.start);
    if r.start < r.end {
      SpliceCanonical(bs, i, i, [b]);
    } else {
      assert Splice(bs, i, i, [b])[i] == b;
    }
    forall f: nat ensures Covers([b], f) <==> Covers(bs[i..i], f) || InRange(r, f) {
      CoversOne(b, f);
    }
    SpliceUnion(bs, i, i, [b], r);
  }

  /** The freed range ends where block `i` starts. */
  lemma FreeBelow(bs: seq<Block>, i: nat, r: Range)
    requires Canonical(bs) && i < |bs| && r.start <= r.end == bs[i].start
    requires forall x | 0 <= x < i :: bs[x].End() < r.start
    ensures Canonical(Splice(bs, i, i + 1, [Block(r.start, bs[i].count + (r.end - r.start))]))
    ensures IsUnion(Splice(bs, i, i + 1, [Block(r.start, bs[i].count + (r.end - r.start))]), bs, r)
  {
    var b := Block(r.start, bs[i].count + (r.end - r.start));
    SpliceCanonical(bs, i, i + 1, [b]);
    assert bs[i..i + 1] == [bs[i]];
    forall f: nat ensures Covers([b], f) <==> Covers(bs[i..i + 1], f) || InRange(r, f) {
      CoversOne(b, f);
      CoversOne(bs[i], f);
    }
    SpliceUnion(bs, i, i + 1, [b], r);
  }

  /** The freed range starts where block `i` ends, and does not reach the next block. */
  lemma FreeAbove(bs: seq<Block>, i: nat, r: Range)
    requires Canonical(bs) && i < |bs| && bs[i].End() == r.start <= r.end
    requires i + 1 < |bs| ==> r.end < bs[i + 1].start
    ensures Canonical(Splice(bs, i, i + 1, [Block(bs[i].start, bs[i].count + (r.end - r.start))]))
    ensures IsUnion(Splice(bs, i, i + 1, [Block(bs[i].start, bs[i].count + (r.end - r.start))]), bs, r)
  {
    var b := Block(bs[i].start, bs[i].count + (r.end - r.start));
    assert forall y | i + 1 < y < |bs| :: bs[i + 1].start < bs[y].start;
    SpliceCanonical(bs, i, i + 1, [b]);
    assert bs[i..i + 1] == [bs[i]];
    forall f: nat ensures Covers([b], f) <==> Covers(bs[i..i + 1], f) || InRange(r, f) {
      CoversOne(b, f);
      CoversOne(bs[i], f);
    }
    SpliceUnion(bs, i, i + 1, [b], r);
  }

  /** The freed range closes the gap between blocks `i` and `i + 1`. */
  lemma FreeBetween(bs: seq<Block>, i: nat, r: Range)
    requires Canonical(bs) && i + 1 < |bs| && bs[i].End() == r.start < r.end == bs[i + 1].start
    ensures var b := Block(bs[i].start, bs[i].count + (r.end - r.start) + bs[i + 1].count);
      Canonical(Splice(bs, i, i + 2, [b])) && IsUnion(Splice(bs, i, i + 2, [b]), bs, r)
  {
    var b := Block(bs[i].start, bs[i].count + (r.end - r.start) + bs[i + 1].count);
    SpliceCanonical(bs, i, i + 2, [b]);
    assert bs[i..i + 2] == [bs[i]] + [bs[i + 1]];
    forall f: nat ensures Covers([b], f) <==> Covers(bs[i..i + 2], f) || InRange(r, f) {
      CoversOne(b, f);
      CoversCons(bs[i], [bs[i + 1]], f);
      CoversOne(bs[i + 1], f);
    }
    SpliceUnion(bs, i, i + 2, [b], r);
  }

  // ----------------------------------------------------------------- alloc

  /** Block `i` is the first that holds `n` frames. */
  predicate FirstFit(bs: seq<Block>, n: nat, i: nat)
  {
    && i < |bs| && bs[i].count >= n
    && forall x | 0 <= x < i :: bs[x].count < n
  }

  /** What is left of block `i` after its first `n` frames are taken. */
  function Rest(b: Block, n: nat): seq<Block>
    requires n <= b.count
  {
    if n == b.count then [] else [Block(b.start + n, b.count - n)]
  }

  lemma AllocTakes(bs: seq<Block>, n: nat, i: nat)
    requires Canonical(bs) && i < |bs| && n <= bs[i].count
    ensures var r := Range(bs[i].start, bs[i].start + n);
      && Canonical(Splice(bs, i, i + 1, Rest(bs[i], n)))
      && IsDifference(Splice(bs, i, i + 1, Rest(bs[i], n)), bs, r)
      && forall f: nat :: InRange(r, f) ==> Covers(bs, f)
  {
    var r := Range(bs[i].start, bs[i].start + n);
    var mid := Rest(bs[i], n);
    SpliceCanonical(bs, i, i + 1, mid);
    assert bs[i..i + 1] == [bs[i]];
    forall f: nat ensures Covers(mid, f) <==> Covers(bs[i..i + 1], f) && !InRange(r, f) {
      CoversOne(bs[i], f);
      if mid != [] {
        CoversOne(mid[0], f);
      }
    }
    forall f: nat ensures Covers(bs[..i], f) || Covers(bs[i + 1..], f) ==> !InRange(r, f) {
    }
    SpliceDifference(bs, i, i + 1, mid, r);
    assert forall f: nat | InRange(r, f) :: InBlock(bs[i], f);
  }

  // ----------------------------------------------- consequences of uniqueness

  /** Giving back what `alloc` took restores the list, block by block. */
  lemma AllocThenFree(bs: seq<Block>, taken: seq<Block>, back: seq<Block>, r: Range)
    requires Canonical(bs) && Canonical(taken) && Canonical(back)
    requires IsDifference(taken, bs, r) && IsUnion(back, taken, r)
    requires forall f: nat :: InRange(r, f) ==> Covers(bs, f)
    ensures back == bs
  {
    CanonicalUnique(back, bs);
  }

  /** `bs'` results from freeing the ranges one after the other. */
  ghost predicate FreesTo(bs: seq<Block>, rs: seq<Range>, bs': seq<Block>)
    decreases |rs|
  {
    if rs == [] then bs' == bs
    else exists mid :: Canonical(mid) && IsUnion(mid, bs, rs[0]) && FreesTo(mid, rs[1..], bs')
  }

  ghost predicate InSome(rs: seq<Range>, f: nat)
  {
    exists i :: 0 <= i < |rs| && InRange(rs[i], f)
  }

  lemma {:induction false} FreesCovers(bs: seq<Block>, rs: seq<Range>, bs': seq<Block>)
    requires Canonical(bs) && FreesTo(bs, rs, bs')
    ensures Canonical(bs') && forall f: nat :: Covers(bs', f) <==> Covers(bs, f) || InSome(rs, f)
    decreases |rs|
  {
    if rs != [] {
      var mid :| Canonical(mid) && IsUnion(mid, bs, rs[0]) && FreesTo(mid, rs[1..], bs');
      FreesCovers(mid, rs[1..], bs');
      forall f: nat ensures InSome(rs, f) <==> InRange(rs[0], f) || InSome(rs[1..], f) {
        assert forall i | 0 <= i < |rs| - 1 :: rs[1..][i] == rs[i + 1];
        if InSome(rs[1..], f) {
          var i :| 0 <= i < |rs[1..]| && InRange(rs[1..][i], f);
          assert InRange(rs[i + 1], f);
        }
        if InSome(rs, f) && !InRange(rs[0], f) {
          var i :| 0 <= i < |rs| && InRange(rs[i], f);
          assert InRange(rs[1..][i - 1], f);
        }
      }
    }
  }

  /** Freeing the same ranges in any order gives the same list. */
  lemma FreeOrderIrrelevant(bs: seq<Block>, rs: seq<Range>, rs': seq<Range>, a: seq<Block>, b: seq<Block>)
    requires Canonical(bs) && FreesTo(bs, rs, a) && FreesTo(bs, rs', b)
    requires multiset(rs) == multiset(rs')
    ensures a == b
  {
    FreesCovers(bs, rs, a);
    FreesCovers(bs, rs', b);
    forall f: nat ensures InSome(rs, f) <==> InSome(rs', f) {
      assert InSome(rs, f) <==> exists r :: r in multiset(rs) && InRange(r, f);
      assert InSome(rs', f) <==> exists r :: r in multiset(rs') && InRange(r, f);
    }
    CanonicalUnique(a, b);
  }
}
