/** `reserve_block`: what its walk over the free list does to the list, and exactly when that is
    what it is for.

    The walk trims or splits blocks the reserved range cuts.  A block lying wholly inside the range
    is unlinked, and the walk then steps over the block behind it without looking at it; if there is
    none, it panics. */
module Reservations {
  import opened Sequences
  import opened FrameLists

  function Prepend(front: seq<Block>, rest: Option<seq<Block>>): Option<seq<Block>>
  {
    match rest
    case None => None
    case Some(bs) => Some(front + bs)
  }

  /** The list after the walk; `None` is the panic. */
  function Reserved(bs: seq<Block>, r: Range): Option<seq<Block>>
    requires r.start <= r.end
  {
    if bs == [] || bs[0].start > r.end then Some(bs)
    else
      var b := bs[0];
      if b.start < r.start && b.End() >= r.start then
        if b.End() <= r.end then Prepend([Block(b.start, r.start - b.start)], Reserved(bs[1..], r))
        else Prepend([Block(b.start, r.start - b.start), Block(r.end, b.End() - r.end)], Reserved(bs[1..], r))
      else if b.End() >= r.start then
        if b.End() <= r.end then
          if |bs| == 1 then None else Prepend([bs[1]], Reserved(bs[2..], r))
        else Prepend([Block(r.end, b.End() - r.end)], Reserved(bs[1..], r))
      else Prepend([b], Reserved(bs[1..], r))
  }

  /** The walk does its job: exactly the reserved frames leave the list, which stays canonical. */
  ghost predicate Exact(bs: seq<Block>, r: Range)
    requires r.start <= r.end
  {
    && Reserved(bs, r).Some?
    && Canonical(Reserved(bs, r).value)
    && IsDifference(Reserved(bs, r).value, bs, r)
  }

  predicate Within(b: Block, r: Range)
  {
    r.start <= b.start && b.End() <= r.end
  }

  predicate StrictlyInside(b: Block, f: nat)
  {
    b.start < f < b.End()
  }

  /** What a caller can look at beforehand: a block inside the range is followed by one that starts
      behind the range, and an empty range is not inside a block. */
  predicate Reservable(bs: seq<Block>, r: Range)
  {
    && (forall i | 0 <= i < |bs| && Within(bs[i], r) :: i + 1 < |bs| && bs[i + 1].start >= r.end)
    && (r.start == r.end ==> forall i | 0 <= i < |bs| :: !StrictlyInside(bs[i], r.start))
  }

  /** What the walk leaves of a block it does not unlink. */
  function Pieces(b: Block, r: Range): seq<Block>
    requires r.start <= r.end
  {
    if b.start < r.start && b.End() >= r.start then
      if b.End() <= r.end then [Block(b.start, r.start - b.start)]
      else [Block(b.start, r.start - b.start), Block(r.end, b.End() - r.end)]
    else if b.End() > r.end then [Block(r.end, b.End() - r.end)]
    else [b]
  }

  lemma ReservedPieces(bs: seq<Block>, r: Range)
    requires Canonical(bs) && r.start <= r.end && bs != [] && bs[0].start <= r.end && !Within(bs[0], r)
    ensures Reserved(bs, r) == Prepend(Pieces(bs[0], r), Reserved(bs[1..], r))
  {
  }

  lemma PiecesInside(b: Block, r: Range, f: nat)
    requires r.start <= r.end && b.count >= 1 && b.start <= r.end
    ensures forall i | 0 <= i < |Pieces(b, r)| ::
              b.start <= Pieces(b, r)[i].start && Pieces(b, r)[i].End() <= b.End() && Pieces(b, r)[i].count >= 1
    ensures Covers(Pieces(b, r), f) ==> InBlock(b, f)
  {
  }

  lemma PiecesCover(b: Block, r: Range, f: nat)
    requires r.start <= r.end && b.count >= 1 && b.start <= r.end && !Within(b, r)
    ensures Covers(Pieces(b, r), f) <==> InBlock(b, f) && !InRange(r, f)
  {
    var ps := Pieces(b, r);
    CoversOne(ps[0], f);
    if |ps| == 2 {
      assert ps == [ps[0]] + [ps[1]];
      CoversCons(ps[0], [ps[1]], f);
      CoversOne(ps[1], f);
    } else {
      assert ps == [ps[0]];
    }
  }

  /** The walk never frees anything. */
  lemma {:induction false} ReservedShrinks(bs: seq<Block>, r: Range, f: nat)
    requires Canonical(bs) && r.start <= r.end && Reserved(bs, r).Some?
    ensures Covers(Reserved(bs, r).value, f) ==> Covers(bs, f)
    decreases |bs|
  {
    if bs != [] && bs[0].start <= r.end {
      assert bs == [bs[0]] + bs[1..];
      CoversCons(bs[0], bs[1..], f);
      if Within(bs[0], r) {
        assert bs[1..] == [bs[1]] + bs[2..];
        CoversCons(bs[1], bs[2..], f);
        ReservedShrinks(bs[2..], r, f);
        CoversCons(bs[1], Reserved(bs[2..], r).value, f);
      } else {
        ReservedPieces(bs, r);
        ReservedShrinks(bs[1..], r, f);
        CoversConcat(Pieces(bs[0], r), Reserved(bs[1..], r).value, f);
        PiecesInside(bs[0], r, f);
      }
    }
  }

  lemma NothingBelow(bs: seq<Block>, r: Range)
    requires Canonical(bs) && r.start <= r.end && (bs == [] || bs[0].start > r.end)
    ensures Exact(bs, r) && Reservable(bs, r)
  {
    forall f: nat ensures Covers(bs, f) ==> !InRange(r, f) {
      if bs != [] {
        CanonicalFirst(bs, f);
      }
    }
    assert forall i | 0 <= i < |bs| :: bs[i].start >= bs[0].start;
  }

  lemma UnlinkLeaves(bs: seq<Block>, r: Range)
    requires Canonical(bs) && r.start <= r.end && |bs| >= 2 && Within(bs[0], r) && bs[1].start >= r.end
    ensures Reserved(bs, r) == Some(bs[1..])
  {
    assert bs[1..] == [bs[1]] + bs[2..];
    assert Reserved(bs[2..], r) == Some(bs[2..]);
  }

  lemma UnlinkTakes(bs: seq<Block>, r: Range, f: nat)
    requires Canonical(bs) && |bs| >= 2 && Within(bs[0], r) && bs[1].start >= r.end
    ensures Covers(bs[1..], f) <==> Covers(bs, f) && !InRange(r, f)
  {
    hide Covers;
    assert bs == [bs[0]] + bs[1..];
    CoversCons(bs[0], bs[1..], f);
    CanonicalFirst(bs[1..], f);
  }

  lemma UnlinkLast(bs: seq<Block>, r: Range)
    requires Canonical(bs) && r.start <= r.end && |bs| >= 2 && Within(bs[0], r) && bs[1].start >= r.end
    ensures Reservable(bs, r) && Canonical(bs[1..])
  {
    assert forall i | 1 <= i < |bs| :: bs[i].start >= bs[1].start;
  }

  /** The unlinked block is the last one the range touches, and not the last of the list. */
  lemma UnlinkGood(bs: seq<Block>, r: Range)
    requires Canonical(bs) && r.start <= r.end && |bs| >= 2 && Within(bs[0], r) && bs[1].start >= r.end
    ensures Exact(bs, r) && Reservable(bs, r)
  {
    hide Reserved, Canonical, Covers, Reservable;
    UnlinkLeaves(bs, r);
    UnlinkLast(bs, r);
    forall f: nat ensures Covers(bs[1..], f) <==> Covers(bs, f) && !InRange(r, f) {
      UnlinkTakes(bs, r, f);
    }
  }

  /** The block behind the unlinked one is inside the range as well, and is stepped over. */
  lemma UnlinkBad(bs: seq<Block>, r: Range)
    requires Canonical(bs) && r.start <= r.end && |bs| >= 2 && Within(bs[0], r) && bs[1].start < r.end
    ensures !Exact(bs, r) && !Reservable(bs, r)
  {
    if Reserved(bs, r).Some? {
      var f, rest := bs[1].start, Reserved(bs[2..], r);
      assert Reserved(bs, r).value == [bs[1]] + rest.value;
      CoversCons(bs[1], rest.value, f);
      assert InRange(r, f) && Covers(Reserved(bs, r).value, f);
    }
  }

  lemma UnlinkCase(bs: seq<Block>, r: Range)
    requires Canonical(bs) && r.start <= r.end && bs != [] && Within(bs[0], r)
    ensures Exact(bs, r) <==> Reservable(bs, r)
  {
    hide IsDifference, Canonical, Covers;
    if |bs| >= 2 {
      if bs[1].start >= r.end {
        UnlinkGood(bs, r);
      } else {
        UnlinkBad(bs, r);
      }
    } else {
      assert bs[0].start <= r.end && bs[0].End() >= r.start;
    }
  }

  lemma ReservableTail(bs: seq<Block>, r: Range)
    requires bs != [] && !Within(bs[0], r)
    ensures Reservable(bs, r) <==> Reservable(bs[1..], r) && (r.start == r.end ==> !StrictlyInside(bs[0], r.start))
  {
    var t := bs[1..];
    assert forall i | 0 <= i < |t| :: t[i] == bs[i + 1];
    if Reservable(bs, r) {
      forall i | 0 <= i < |t| && Within(t[i], r) ensures i + 1 < |t| && t[i + 1].start >= r.end {
        assert Within(bs[i + 1], r);
      }
      forall i | 0 <= i < |t| && r.start == r.end ensures !StrictlyInside(t[i], r.start) {
        assert !StrictlyInside(bs[i + 1], r.start);
      }
    } else if Reservable(t, r) {
      assert forall i | 1 <= i < |bs| :: bs[i] == t[i - 1];
    }
  }

  /** Cutting a block and reserving in the rest of the list add up. */
  lemma CutCase(bs: seq<Block>, r: Range)
    requires Canonical(bs) && r.start <= r.end && bs != [] && bs[0].start <= r.end && !Within(bs[0], r)
    ensures Exact(bs, r) <==> Exact(bs[1..], r) && (r.start == r.end ==> !StrictlyInside(bs[0], r.start))
  {
    ReservedPieces(bs, r);
    if Reserved(bs[1..], r).Some? {
      var ps, rest, all := Pieces(bs[0], r), Reserved(bs[1..], r).value, Reserved(bs, r).value;
      assert all == ps + rest;
      forall f: nat
        ensures Covers(all, f) <==> (InBlock(bs[0], f) && !InRange(r, f)) || Covers(rest, f)
        ensures Covers(bs, f) <==> InBlock(bs[0], f) || Covers(bs[1..], f)
        ensures Covers(rest, f) || Covers(bs[1..], f) ==> f > bs[0].End()
      {
        CoversConcat(ps, rest, f);
        PiecesCover(bs[0], r, f);
        assert bs == [bs[0]] + bs[1..];
        CoversCons(bs[0], bs[1..], f);
        TailBeyond(bs, f);
        ReservedShrinks(bs[1..], r, f);
      }
      assert IsDifference(all, bs, r) <==> IsDifference(rest, bs[1..], r) by {
        DifferenceTail(all, bs, rest, bs[1..], bs[0], r);
      }
      CutCanonical(bs, r);
    }
  }

  lemma DifferenceTail(all: seq<Block>, bs: seq<Block>, rest: seq<Block>, tail: seq<Block>, b: Block, r: Range)
    requires forall f: nat :: Covers(all, f) <==> (InBlock(b, f) && !InRange(r, f)) || Covers(rest, f)
    requires forall f: nat :: Covers(bs, f) <==> InBlock(b, f) || Covers(tail, f)
    requires forall f: nat :: Covers(rest, f) || Covers(tail, f) ==> f > b.End()
    ensures IsDifference(all, bs, r) <==> IsDifference(rest, tail, r)
  {
    if IsDifference(all, bs, r) {
      forall f: nat ensures Covers(rest, f) <==> Covers(tail, f) && !InRange(r, f) {
        assert Covers(all, f) <==> Covers(bs, f) && !InRange(r, f);
      }
    }
    if IsDifference(rest, tail, r) {
      forall f: nat ensures Covers(all, f) <==> Covers(bs, f) && !InRange(r, f) {
        assert Covers(rest, f) <==> Covers(tail, f) && !InRange(r, f);
      }
    }
  }

  lemma CutCanonical(bs: seq<Block>, r: Range)
    requires Canonical(bs) && r.start <= r.end && bs != [] && bs[0].start <= r.end && !Within(bs[0], r)
    requires Reserved(bs[1..], r).Some?
    requires Reserved(bs, r) == Some(Pieces(bs[0], r) + Reserved(bs[1..], r).value)
    ensures Canonical(Reserved(bs, r).value)
       <==> Canonical(Reserved(bs[1..], r).value) && (r.start == r.end ==> !StrictlyInside(bs[0], r.start))
  {
    hide Reserved;
    var rest := Reserved(bs[1..], r).value;
    forall j | 0 <= j < |rest| && rest[j].count >= 1 ensures rest[j].start > bs[0].End() {
      var f := rest[j].start;
      assert InBlock(rest[j], f);
      ReservedShrinks(bs[1..], r, f);
      TailBeyond(bs, f);
    }
    CutJoin(bs[0], r, rest);
  }

  lemma CanonicalParts(ps: seq<Block>, rest: seq<Block>)
    requires Canonical(ps + rest)
    ensures Canonical(ps) && Canonical(rest)
  {
    var all := ps + rest;
    assert forall i | 0 <= i < |rest| :: rest[i] == all[|ps| + i];
    assert forall i | 0 <= i < |ps| :: ps[i] == all[i];
  }

  lemma PiecesCanonical(b: Block, r: Range)
    requires r.start <= r.end && b.count >= 1 && b.start <= r.end && !Within(b, r)
    ensures Canonical(Pieces(b, r)) <==> (r.start == r.end ==> !StrictlyInside(b, r.start))
  {
    var ps := Pieces(b, r);
    assert |ps| == 2 ==> ps[0] == Block(b.start, r.start - b.start) && ps[1] == Block(r.end, b.End() - r.end);
  }

  lemma CutJoin(b: Block, r: Range, rest: seq<Block>)
    requires r.start <= r.end && b.count >= 1 && b.start <= r.end && !Within(b, r)
    requires forall j | 0 <= j < |rest| && rest[j].count >= 1 :: rest[j].start > b.End()
    ensures Canonical(Pieces(b, r) + rest) <==> Canonical(rest) && (r.start == r.end ==> !StrictlyInside(b, r.start))
  {
    var ps := Pieces(b, r);
    var all := ps + rest;
    PiecesInside(b, r, 0);
    if Canonical(all) {
      CanonicalParts(ps, rest);
    }
    hide Canonical;
    PiecesCanonical(b, r);
    if Canonical(rest) && (r.start == r.end ==> !StrictlyInside(b, r.start)) {
      CanonicalJoin(ps, rest);
    }
  }

  /** Reserving removes exactly the reserved frames if and only if the list is `Reservable`. */
  lemma {:induction false} ReserveExactly(bs: seq<Block>, r: Range)
    requires Canonical(bs) && r.start <= r.end
    ensures Exact(bs, r) <==> Reservable(bs, r)
    decreases |bs|
  {
    hide Exact, Reservable, IsDifference, Covers;
    if bs == [] || bs[0].start > r.end {
      NothingBelow(bs, r);
    } else if Within(bs[0], r) {
      UnlinkCase(bs, r);
    } else {
      ReserveExactly(bs[1..], r);
      CutCase(bs, r);
      ReservableTail(bs, r);
    }
  }

  /** Two free blocks inside the range: the second one stays free. */
  lemma ReserveSkips()
    ensures var bs, r := [Block(10, 2), Block(20, 2), Block(30, 2)], Range(8, 25);
      Canonical(bs) && Reserved(bs, r) == Some([Block(20, 2), Block(30, 2)]) && !Exact(bs, r)
  {
    var bs, r := [Block(10, 2), Block(20, 2), Block(30, 2)], Range(8, 25);
    assert bs[2..] == [Block(30, 2)];
    assert Reserved(bs[2..], r) == Some([Block(30, 2)]);
    assert [bs[1]] + bs[2..] == [Block(20, 2), Block(30, 2)];
    assert InBlock([Block(20, 2), Block(30, 2)][0], 20);
    assert InRange(r, 20);
  }

  // ------------------------------------------------------------- in every case

  /** The walk unlinks block `i`: it lies inside the range, and the block before it was not unlinked. */
  predicate Unlinked(bs: seq<Block>, r: Range, i: nat)
    requires i < |bs|
  {
    Within(bs[i], r) && (i == 0 || !Unlinked(bs, r, i - 1))
  }

  /** The walk steps over block `i` without looking at it. */
  predicate PassedOver(bs: seq<Block>, r: Range, i: nat)
    requires i < |bs|
  {
    i > 0 && Unlinked(bs, r, i - 1)
  }

  /** Frame `f` is still free: it is in a block that is passed over, or in one that is not unlinked and it is
      not reserved. */
  predicate StaysFree(bs: seq<Block>, r: Range, f: nat)
  {
    exists i :: 0 <= i < |bs| && InBlock(bs[i], f)
                && (PassedOver(bs, r, i) || (!Unlinked(bs, r, i) && !InRange(r, f)))
  }

  /** Whatever the list, the walk panics exactly if it unlinks the last block, and otherwise leaves exactly
      these frames free. */
  lemma ReserveLeaves(bs: seq<Block>, r: Range)
    requires Canonical(bs) && r.start <= r.end
    ensures Reserved(bs, r).None? <==> bs != [] && Unlinked(bs, r, |bs| - 1)
    ensures Reserved(bs, r).Some? ==> forall f: nat :: Covers(Reserved(bs, r).value, f) <==> StaysFree(bs, r, f)
  {
    hide Canonical, Covers, StaysFree, Reserved, Unlinked;
    LeavesAt(bs, r, 0);
    forall f: nat | Reserved(bs, r).Some? ensures Covers(Reserved(bs, r).value, f) <==> StaysFree(bs, r, f) {
      LeavesAt(bs, r, f);
    }
  }

  lemma {:induction false} LeavesAt(bs: seq<Block>, r: Range, f: nat)
    requires Canonical(bs) && r.start <= r.end
    ensures Reserved(bs, r).None? <==> bs != [] && Unlinked(bs, r, |bs| - 1)
    ensures Reserved(bs, r).Some? ==> (Covers(Reserved(bs, r).value, f) <==> StaysFree(bs, r, f))
    decreases |bs|
  {
    if bs == [] || bs[0].start > r.end {
      NoneUnlinked(bs, r, f);
    } else if Within(bs[0], r) {
      if |bs| > 1 {
        LeavesAt(bs[2..], r, f);
        SecondShift(bs, r, f);
        if Reserved(bs, r).Some? {
          CoversConcat([bs[1]], Reserved(bs[2..], r).value, f);
          CoversOne(bs[1], f);
        }
      }
    } else {
      LeavesAt(bs[1..], r, f);
      FirstShift(bs, r, f);
      if Reserved(bs, r).Some? {
        CoversConcat(Pieces(bs[0], r), Reserved(bs[1..], r).value, f);
        ReservedPieces(bs, r);
        PiecesCover(bs[0], r, f);
      }
    }
  }

  lemma NoneUnlinked(bs: seq<Block>, r: Range, f: nat)
    requires Canonical(bs) && r.start <= r.end && (bs == [] || bs[0].start > r.end)
    ensures forall i | 0 <= i < |bs| :: !Within(bs[i], r)
    ensures Covers(bs, f) <==> StaysFree(bs, r, f)
  {
    forall i | 0 <= i < |bs| ensures bs[i].start > r.end && !Within(bs[i], r) {
      if i > 0 {
        assert bs[0].End() < bs[i].start;
      }
    }
    if Covers(bs, f) {
      var i :| 0 <= i < |bs| && InBlock(bs[i], f);
      assert !InRange(r, f) && !Unlinked(bs, r, i);
    }
  }

  /** If the first block is not unlinked, the rest is dealt with as a list of its own. */
  lemma FirstShift(bs: seq<Block>, r: Range, f: nat)
    requires bs != [] && !Within(bs[0], r)
    ensures |bs| > 1 ==> (Unlinked(bs, r, |bs| - 1) <==> Unlinked(bs[1..], r, |bs| - 2))
    ensures StaysFree(bs, r, f) <==> (InBlock(bs[0], f) && !InRange(r, f)) || StaysFree(bs[1..], r, f)
  {
    var rest := bs[1..];
    forall i | 0 <= i < |rest| ensures Unlinked(bs, r, i + 1) <==> Unlinked(rest, r, i) {
      ShiftOne(bs, r, i);
    }
    forall i | 0 <= i < |rest| ensures PassedOver(bs, r, i + 1) <==> PassedOver(rest, r, i) {
    }
    hide Unlinked, PassedOver;
    if StaysFree(bs, r, f) {
      var i :| 0 <= i < |bs| && InBlock(bs[i], f)
               && (PassedOver(bs, r, i) || (!Unlinked(bs, r, i) && !InRange(r, f)));
      assert i > 0 ==> InBlock(rest[i - 1], f);
      FirstKept(bs, r);
    }
    if StaysFree(rest, r, f) {
      var i :| 0 <= i < |rest| && InBlock(rest[i], f)
               && (PassedOver(rest, r, i) || (!Unlinked(rest, r, i) && !InRange(r, f)));
      assert InBlock(bs[i + 1], f);
    }
    FirstKept(bs, r);
  }

  lemma FirstKept(bs: seq<Block>, r: Range)
    requires bs != []
    ensures !PassedOver(bs, r, 0) && (Unlinked(bs, r, 0) <==> Within(bs[0], r))
  {
  }

  lemma {:induction false} ShiftOne(bs: seq<Block>, r: Range, i: nat)
    requires bs != [] && !Within(bs[0], r) && i < |bs| - 1
    ensures Unlinked(bs, r, i + 1) <==> Unlinked(bs[1..], r, i)
    decreases i
  {
    if i > 0 {
      ShiftOne(bs, r, i - 1);
    }
  }

  /** If the first block is unlinked, the second is passed over, and the rest is a list of its own. */
  lemma SecondShift(bs: seq<Block>, r: Range, f: nat)
    requires |bs| > 1 && Within(bs[0], r)
    ensures |bs| > 2 ==> (Unlinked(bs, r, |bs| - 1) <==> Unlinked(bs[2..], r, |bs| - 3))
    ensures |bs| == 2 ==> !Unlinked(bs, r, 1)
    ensures StaysFree(bs, r, f) <==> InBlock(bs[1], f) || StaysFree(bs[2..], r, f)
  {
    var rest := bs[2..];
    assert Unlinked(bs, r, 0) && PassedOver(bs, r, 1) && !Unlinked(bs, r, 1);
    forall i | 0 <= i < |rest| ensures Unlinked(bs, r, i + 2) <==> Unlinked(rest, r, i) {
      ShiftTwo(bs, r, i);
    }
    forall i | 0 <= i < |rest| ensures PassedOver(bs, r, i + 2) <==> PassedOver(rest, r, i) {
    }
    FirstKept(bs, r);
    hide Unlinked, PassedOver;
    if StaysFree(bs, r, f) {
      var i :| 0 <= i < |bs| && InBlock(bs[i], f)
               && (PassedOver(bs, r, i) || (!Unlinked(bs, r, i) && !InRange(r, f)));
      assert i > 1 ==> InBlock(rest[i - 2], f);
    }
    if StaysFree(rest, r, f) {
      var i :| 0 <= i < |rest| && InBlock(rest[i], f)
               && (PassedOver(rest, r, i) || (!Unlinked(rest, r, i) && !InRange(r, f)));
      assert InBlock(bs[i + 2], f);
    }
  }

  lemma {:induction false} ShiftTwo(bs: seq<Block>, r: Range, i: nat)
    requires |bs| > 1 && Within(bs[0], r) && i < |bs| - 2
    ensures Unlinked(bs, r, i + 2) <==> Unlinked(bs[2..], r, i)
    decreases i
  {
    if i > 0 {
      ShiftTwo(bs, r, i - 1);
    } else {
      assert Unlinked(bs, r, 0) && !Unlinked(bs, r, 1);
    }
  }
}
