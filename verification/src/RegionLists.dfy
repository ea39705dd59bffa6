/** The free memory regions noted down while booting, as a list of intervals in no particular order. */
module RegionLists {
  import opened MemorySpaces
  import opened Arithmetic

  /** Addresses from `start` to before `end`. */
  datatype Interval = Interval(start: nat, end: nat)

  /** The two share an address or are adjacent. */
  predicate Touch(x: Interval, y: Interval)
  {
    !(x.end < y.start || x.start > y.end)
  }

  predicate Separate(list: seq<Interval>)
  {
    && (forall i | 0 <= i < |list| :: list[i].start <= list[i].end)
    && (forall i, j | 0 <= i < j < |list| :: !Touch(list[i], list[j]))
  }

  predicate Holds(x: Interval, a: nat)
  {
    x.start <= a < x.end
  }

  predicate Covers(list: seq<Interval>, a: nat)
  {
    exists x | x in list :: Holds(x, a)
  }

  // ------------------------------------------------------------------- add

  /** One pass over the list: what touches the interval built so far joins it, the rest is kept. */
  function Merge(list: seq<Interval>, x: Interval): (seq<Interval>, Interval)
  {
    if list == [] then ([], x)
    else
      var (kept, m) := Merge(list[..|list| - 1], x);
      var y := list[|list| - 1];
      if Touch(m, y) then (kept, Interval(Min(m.start, y.start), Max(m.end, y.end)))
      else (kept + [y], m)
  }

  function Added(list: seq<Interval>, x: Interval): seq<Interval>
  {
    var (kept, m) := Merge(list, x);
    kept + [m]
  }

  lemma SeparatePrefix(list: seq<Interval>, n: nat)
    requires Separate(list) && n <= |list|
    ensures Separate(list[..n])
  {
  }

  lemma SeparateMore(list: seq<Interval>, x: Interval)
    requires Separate(list) && x.start <= x.end && forall y | y in list :: !Touch(y, x)
    ensures Separate(list + [x])
  {
  }

  /** What joins the merged interval brings nothing else into its reach. */
  lemma HullApart(m: Interval, y: Interval, z: Interval)
    requires m.start <= m.end && y.start <= y.end && z.start <= z.end
    requires Touch(m, y) && !Touch(z, m) && !Touch(z, y)
    ensures !Touch(z, Interval(Min(m.start, y.start), Max(m.end, y.end)))
  {
  }

  /** One pass is enough, although the merged interval grows on the way: nothing kept touches it. */
  lemma {:induction false} MergeApart(list: seq<Interval>, x: Interval)
    requires Separate(list) && x.start <= x.end
    ensures var (kept, m) := Merge(list, x);
            && Separate(kept) && m.start <= m.end && (forall z | z in kept :: z in list && !Touch(z, m))
    decreases |list|
  {
    if list != [] {
      var n := |list| - 1;
      var y := list[n];
      SeparatePrefix(list, n);
      MergeApart(list[..n], x);
      var (kept, m) := Merge(list[..n], x);
      forall z | z in kept ensures !Touch(z, y) && z in list {
        var i :| 0 <= i < n && list[..n][i] == z;
        assert !Touch(list[i], list[n]);
      }
      if Touch(m, y) {
        forall z | z in kept ensures !Touch(z, Interval(Min(m.start, y.start), Max(m.end, y.end))) {
          HullApart(m, y, z);
        }
      } else {
        SeparateMore(kept, y);
      }
    }
  }

  lemma CoversMore(list: seq<Interval>, x: Interval, a: nat)
    ensures Covers(list + [x], a) <==> Covers(list, a) || Holds(x, a)
  {
    if Covers(list, a) {
      var y :| y in list && Holds(y, a);
      assert y in list + [x];
    }
    assert x in list + [x];
  }

  lemma HullHolds(m: Interval, y: Interval, a: nat)
    requires m.start <= m.end && y.start <= y.end && Touch(m, y)
    ensures Holds(Interval(Min(m.start, y.start), Max(m.end, y.end)), a) <==> Holds(m, a) || Holds(y, a)
  {
  }

  lemma {:induction false} MergeCovers(list: seq<Interval>, x: Interval, a: nat)
    requires Separate(list) && x.start <= x.end
    ensures var (kept, m) := Merge(list, x);
            Covers(kept, a) || Holds(m, a) <==> Covers(list, a) || Holds(x, a)
    decreases |list|
  {
    if list != [] {
      var n := |list| - 1;
      var y := list[n];
      SeparatePrefix(list, n);
      MergeCovers(list[..n], x, a);
      MergeApart(list[..n], x);
      hide Covers, Holds, Touch;
      var (kept, m) := Merge(list[..n], x);
      assert list == list[..n] + [y];
      CoversMore(list[..n], y, a);
      CoversMore(kept, y, a);
      if Touch(m, y) {
        HullHolds(m, y, a);
      }
    }
  }

  lemma AddedRight(list: seq<Interval>, x: Interval)
    requires Separate(list) && x.start <= x.end
    ensures Separate(Added(list, x))
    ensures forall a: nat :: Covers(Added(list, x), a) <==> Covers(list, a) || Holds(x, a)
  {
    MergeApart(list, x);
    var (kept, m) := Merge(list, x);
    SeparateMore(kept, m);
    forall a: nat ensures Covers(Added(list, x), a) <==> Covers(list, a) || Holds(x, a) {
      MergeCovers(list, x, a);
      CoversMore(kept, m, a);
    }
  }

  // --------------------------------------------------------------- reserve

  /** What is left of one region. */
  function Pieces(y: Interval, r: Interval): seq<Interval>
  {
    if r.end <= y.start || r.start >= y.end then [y]
    else
      (if r.start > y.start then [Interval(y.start, r.start)] else [])
      + (if r.end < y.end then [Interval(r.end, y.end)] else [])
  }

  function Cut(list: seq<Interval>, r: Interval): seq<Interval>
  {
    if list == [] then []
    else Cut(list[..|list| - 1], r) + Pieces(list[|list| - 1], r)
  }

  /** Each piece lies within the region it is left of. */
  predicate Within(x: Interval, y: Interval)
  {
    y.start <= x.start <= x.end <= y.end
  }

  lemma {:induction false} CutWithin(list: seq<Interval>, r: Interval, x: Interval)
    requires Separate(list) && r.start < r.end && x in Cut(list, r)
    ensures exists y :: y in list && Within(x, y)
    decreases |list|
  {
    var n := |list| - 1;
    SeparatePrefix(list, n);
    if x in Cut(list[..n], r) {
      CutWithin(list[..n], r, x);
      var y :| y in list[..n] && Within(x, y);
      assert y in list;
    } else {
      assert list[n] in list && Within(x, list[n]);
    }
  }

  lemma {:induction false} CutSeparate(list: seq<Interval>, r: Interval)
    requires Separate(list) && r.start < r.end
    ensures Separate(Cut(list, r))
    decreases |list|
  {
    if list != [] {
      var n := |list| - 1;
      var cut, pieces := Cut(list[..n], r), Pieces(list[n], r);
      SeparatePrefix(list, n);
      CutSeparate(list[..n], r);
      forall x, p | x in cut && p in pieces ensures !Touch(x, p) {
        CutWithin(list[..n], r, x);
        var y :| y in list[..n] && Within(x, y);
        var i :| 0 <= i < n && list[..n][i] == y;
        assert !Touch(list[i], list[n]);
      }
      JoinSeparate(cut, pieces);
    }
  }

  lemma JoinSeparate(a: seq<Interval>, b: seq<Interval>)
    requires Separate(a) && Separate(b) && forall x, y | x in a && y in b :: !Touch(x, y)
    ensures Separate(a + b)
  {
    var c := a + b;
    forall i, j | 0 <= i < j < |c| ensures !Touch(c[i], c[j]) {
      if i < |a| <= j {
        assert c[i] == a[i] && a[i] in a && c[j] == b[j - |a|] && b[j - |a|] in b;
      }
    }
  }

  lemma CoversJoin(a: seq<Interval>, b: seq<Interval>, p: nat)
    ensures Covers(a + b, p) <==> Covers(a, p) || Covers(b, p)
  {
    if Covers(a, p) {
      var x :| x in a && Holds(x, p);
      assert x in a + b;
    }
    if Covers(b, p) {
      var x :| x in b && Holds(x, p);
      assert x in a + b;
    }
  }

  lemma PiecesCover(y: Interval, r: Interval, a: nat)
    requires y.start <= y.end && r.start < r.end
    ensures Covers(Pieces(y, r), a) <==> Holds(y, a) && !Holds(r, a)
  {
    var left, right := Interval(y.start, r.start), Interval(r.end, y.end);
    if Holds(y, a) && !Holds(r, a) {
      if r.end <= y.start || r.start >= y.end {
        assert y in Pieces(y, r);
      } else if a < r.start {
        assert left in Pieces(y, r) && Holds(left, a);
      } else {
        assert right in Pieces(y, r) && Holds(right, a);
      }
    }
  }

  lemma {:induction false} CutCovers(list: seq<Interval>, r: Interval, a: nat)
    requires Separate(list) && r.start < r.end
    ensures Covers(Cut(list, r), a) <==> Covers(list, a) && !Holds(r, a)
    decreases |list|
  {
    if list != [] {
      var n := |list| - 1;
      SeparatePrefix(list, n);
      CutCovers(list[..n], r, a);
      PiecesCover(list[n], r, a);
      CoversJoin(Cut(list[..n], r), Pieces(list[n], r), a);
      assert list == list[..n] + [list[n]];
      CoversMore(list[..n], list[n], a);
    }
  }

  lemma {:induction false} CutGrows(list: seq<Interval>, r: Interval, n: nat)
    requires n <= |list|
    ensures |Cut(list[..n], r)| <= |Cut(list, r)|
    decreases |list|
  {
    if n < |list| {
      var most := list[..|list| - 1];
      CutGrows(most, r, n);
      assert most[..n] == list[..n];
    } else {
      assert list[..n] == list;
    }
  }

  // ------------------------------------------------------------------- runs

  datatype Note = Free(region: Interval) | Reserved(region: Interval)

  /** The region a note is about is accepted. */
  predicate Proper(region: Interval)
  {
    region.start % PAGE == 0 && region.end % PAGE == 0 && region.start < region.end
  }

  /** Page 0 is never noted as free. */
  function Clipped(region: Interval): Interval
  {
    if region.start == 0 then Interval(PAGE, region.end) else region
  }

  function Noted(list: seq<Interval>, note: Note): seq<Interval>
  {
    match note
    case Free(region) => Added(list, Clipped(region))
    case Reserved(region) => Cut(list, region)
  }

  function AfterAll(notes: seq<Note>): seq<Interval>
  {
    if notes == [] then [] else Noted(AfterAll(notes[..|notes| - 1]), notes[|notes| - 1])
  }

  /** Whether an address is free once everything was said about it. */
  predicate IsFree(notes: seq<Note>, a: nat)
  {
    if notes == [] then false
    else
      var before := IsFree(notes[..|notes| - 1], a);
      match notes[|notes| - 1]
      case Free(region) => before || (Holds(region, a) && a >= PAGE)
      case Reserved(region) => before && !Holds(region, a)
  }

  /** Over any sequence of notes the intervals stay apart and cover just the free addresses. */
  lemma {:induction false} NotesRight(notes: seq<Note>)
    requires forall i | 0 <= i < |notes| :: Proper(notes[i].region)
    ensures Separate(AfterAll(notes))
    ensures forall a: nat :: Covers(AfterAll(notes), a) <==> IsFree(notes, a)
    decreases |notes|
  {
    if notes != [] {
      var n := |notes| - 1;
      NotesRight(notes[..n]);
      var before := AfterAll(notes[..n]);
      match notes[n] {
        case Free(region) =>
          assert Proper(notes[n].region);
          AddedRight(before, Clipped(region));
        case Reserved(region) =>
          CutSeparate(before, region);
          forall a: nat ensures Covers(AfterAll(notes), a) <==> IsFree(notes, a) {
            CutCovers(before, region, a);
          }
      }
    }
  }

  /** Separate lists that cover the same addresses hold the same regions, empty ones aside. */
  lemma SameRegions(list: seq<Interval>, list': seq<Interval>, x: Interval)
    requires Separate(list) && Separate(list') && x in list && x.start < x.end
    requires forall a: nat :: Covers(list, a) <==> Covers(list', a)
    ensures x in list'
  {
    assert Holds(x, x.start) && Covers(list', x.start);
    var y :| y in list' && Holds(y, x.start);
    StartsNoEarlier(list, list', x, y);
    StartsNoEarlier(list', list, y, x);
    EndsNoLater(list, list', x, y);
    EndsNoLater(list', list, y, x);
  }

  /** A region `y` that overlaps `x` does not begin before `x` ... */
  lemma StartsNoEarlier(list: seq<Interval>, list': seq<Interval>, x: Interval, y: Interval)
    requires Separate(list) && x in list && y in list' && x.start < x.end && x.start < y.end && y.start < x.end
    requires forall a: nat :: Covers(list, a) <==> Covers(list', a)
    ensures x.start <= y.start
  {
    if y.start < x.start {
      assert Holds(y, x.start - 1) && Covers(list', x.start - 1);
      var z :| z in list && Holds(z, x.start - 1);
      assert Touch(z, x) && z != x;
      OnlyItselfTouches(list, z, x);
    }
  }

  /** ... nor does it end after `x`. */
  lemma EndsNoLater(list: seq<Interval>, list': seq<Interval>, x: Interval, y: Interval)
    requires Separate(list) && x in list && y in list' && x.start < x.end && x.start < y.end && y.start < x.end
    requires forall a: nat :: Covers(list, a) <==> Covers(list', a)
    ensures y.end <= x.end
  {
    if x.end < y.end {
      assert Holds(y, x.end) && Covers(list', x.end);
      var z :| z in list && Holds(z, x.end);
      OnlyItselfTouches(list, z, x);
    }
  }

  lemma OnlyItselfTouches(list: seq<Interval>, z: Interval, x: Interval)
    requires Separate(list) && z in list && x in list && Touch(z, x)
    ensures z == x
  {
    var i :| 0 <= i < |list| && list[i] == z;
    var j :| 0 <= j < |list| && list[j] == x;
  }
}
