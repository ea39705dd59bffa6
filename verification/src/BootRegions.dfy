/** The array of boot-time regions, updated in place: each region takes two cells, start and end. */
module BootRegions {
  import opened MemorySpaces
  import opened Arithmetic
  import opened RegionLists

  const MAX_CELLS := 1024

  /** The regions in the first `2 * n` cells. */
  ghost function Stored(cells: seq<nat>, n: nat): (list: seq<Interval>)
    requires 2 * n <= |cells|
    ensures |list| == n && forall i | 0 <= i < n :: list[i] == Interval(cells[2 * i], cells[2 * i + 1])
  {
    seq(n, i requires 0 <= i < n => Interval(cells[2 * i], cells[2 * i + 1]))
  }

  lemma StoredMore(cells: seq<nat>, n: nat, x: Interval)
    requires 2 * n + 2 <= |cells|
    ensures var cells' := cells[2 * n := x.start][2 * n + 1 := x.end];
            Stored(cells', n + 1) == Stored(cells, n) + [x]
  {
  }

  lemma StoredSame(cells: seq<nat>, cells': seq<nat>, n: nat)
    requires 2 * n <= |cells| && 2 * n <= |cells'| && cells[..2 * n] == cells'[..2 * n]
    ensures Stored(cells, n) == Stored(cells', n)
  {
    forall i | 0 <= i < n ensures cells[2 * i] == cells'[2 * i] && cells[2 * i + 1] == cells'[2 * i + 1] {
      assert cells[..2 * n][2 * i] == cells[2 * i] && cells[..2 * n][2 * i + 1] == cells[2 * i + 1];
      assert cells'[..2 * n][2 * i] == cells'[2 * i] && cells'[..2 * n][2 * i + 1] == cells'[2 * i + 1];
    }
  }

  /** The lists the loops have built after one more region. */
  lemma MergeNext(list: seq<Interval>, x: Interval, i: nat)
    requires i < |list|
    ensures var (kept, m) := Merge(list[..i], x);
            Merge(list[..i + 1], x)
            == if Touch(m, list[i]) then (kept, Interval(Min(m.start, list[i].start), Max(m.end, list[i].end)))
               else (kept + [list[i]], m)
  {
    assert list[..i + 1][..i] == list[..i];
  }

  lemma CutNext(list: seq<Interval>, r: Interval, i: nat)
    requires i < |list|
    ensures Cut(list[..i + 1], r) == Cut(list[..i], r) + Pieces(list[i], r)
  {
    assert list[..i + 1][..i] == list[..i];
  }

  lemma MergeNone(x: Interval)
    ensures Merge([], x) == ([], x)
  {
  }

  class RegionTable {
    const cells: array<nat>
    var count: nat
    var limit: nat

    ghost predicate Valid()
      reads this, cells
    {
      cells.Length == MAX_CELLS && 2 * count <= MAX_CELLS && Separate(List())
    }

    ghost function List(): seq<Interval>
      requires 2 * count <= cells.Length
      reads this, cells
    {
      Stored(cells[..], count)
    }

    constructor ()
      ensures Valid() && fresh(cells) && List() == [] && limit == 0
    {
      cells := new nat[MAX_CELLS];
      count, limit := 0, 0;
    }

    /** Writes one region to the next two cells. */
    static method Put(to: array<nat>, n: nat, start: nat, end: nat)
      requires 2 * n + 2 <= to.Length
      modifies to
      ensures Stored(to[..], n + 1) == Stored(old(to[..]), n) + [Interval(start, end)]
    {
      to[2 * n] := start;
      to[2 * n + 1] := end;
      StoredMore(old(to[..]), n, Interval(start, end));
      assert to[..] == old(to[..])[2 * n := start][2 * n + 1 := end];
    }

    method CopyBack(from: array<nat>, n: nat)
      requires from.Length == cells.Length == MAX_CELLS && 2 * n <= MAX_CELLS && from != cells
      modifies cells, this`count
      ensures count == n && List() == Stored(old(from[..]), n) && from[..] == old(from[..])
    {
      for k := 0 to 2 * n
        invariant cells[..k] == from[..k] && from[..] == old(from[..])
      {
        cells[k] := from[k];
      }
      count := n;
      StoredSame(cells[..], from[..], n);
    }

    /** The pass over the array that collects what touches the new region. */
    method MergePass(newCells: array<nat>, start: nat, end: nat) returns (n: nat, mergedStart: nat, mergedEnd: nat)
      requires 2 * count <= cells.Length && newCells.Length == cells.Length && newCells != cells
      modifies newCells
      ensures n <= count
      ensures Merge(List(), Interval(start, end)) == (Stored(newCells[..], n), Interval(mergedStart, mergedEnd))
    {
      hide Merge;
      ghost var list, x := List(), Interval(start, end);
      n, mergedStart, mergedEnd := 0, start, end;
      MergeNone(x);
      for i := 0 to count
        invariant n <= i
        invariant Merge(list[..i], x) == (Stored(newCells[..], n), Interval(mergedStart, mergedEnd))
      {
        MergeNext(list, x, i);
        var s, e := cells[2 * i], cells[2 * i + 1];
        if !(mergedEnd < s || mergedStart > e) {
          mergedStart := Min(mergedStart, s);
          mergedEnd := Max(mergedEnd, e);
        } else {
          Put(newCells, n, s, e);
          n := n + 1;
        }
      }
      assert list[..count] == list;
    }

    /** Notes a region as free.  Not `ok` is a panic; only the recorded limit may have moved then. */
    method AddFreeRegion(start: nat, end: nat) returns (ok: bool)
      requires Valid()
      modifies this, cells
      ensures Valid()
      ensures ok <==> start % PAGE == 0 && end % PAGE == 0 && start < end
                      && 2 * |Added(old(List()), Clipped(Interval(start, end)))| <= MAX_CELLS
      ensures List() == if ok then Added(old(List()), Clipped(Interval(start, end))) else old(List())
      ensures ok ==> limit == Max(old(limit), end)
      ensures ok ==> forall a: nat :: Covers(List(), a) <==> Covers(old(List()), a) || (start <= a < end && PAGE <= a)
    {
      hide Merge, Stored;
      if start % PAGE != 0 || end % PAGE != 0 {
        return false;
      }
      if start >= end {
        return false;
      }
      var first := start;
      if first == 0 {
        first := PAGE;
      }
      if end > limit {
        limit := end;
      }
      AddedRight(List(), Clipped(Interval(start, end)));
      var newCells := new nat[MAX_CELLS];
      var n, mergedStart, mergedEnd := MergePass(newCells, first, end);
      if 2 * n + 2 > MAX_CELLS {
        return false;
      }
      Put(newCells, n, mergedStart, mergedEnd);
      CopyBack(newCells, n + 1);
      ok := true;
    }

    /** Writes what is left of the region from `s` to `e`; not `ok` when the array is full. */
    static method PutPieces(to: array<nat>, n: nat, s: nat, e: nat, start: nat, end: nat) returns (ok: bool, n': nat)
      requires to.Length == MAX_CELLS && 2 * n <= MAX_CELLS
      modifies to
      ensures ok <==> 2 * (n + |Pieces(Interval(s, e), Interval(start, end))|) <= MAX_CELLS
      ensures ok ==> n' == n + |Pieces(Interval(s, e), Interval(start, end))|
                     && Stored(to[..], n') == Stored(old(to[..]), n) + Pieces(Interval(s, e), Interval(start, end))
    {
      n' := n;
      if end <= s || start >= e {
        if 2 * n' + 2 > MAX_CELLS {
          return false, n';
        }
        Put(to, n', s, e);
        return true, n' + 1;
      }
      if start > s {
        if 2 * n' + 2 > MAX_CELLS {
          return false, n';
        }
        Put(to, n', s, start);
        n' := n' + 1;
      }
      if end < e {
        if 2 * n' + 2 > MAX_CELLS {
          return false, n';
        }
        Put(to, n', end, e);
        n' := n' + 1;
      }
      ok := true;
    }

    /** Takes a region out.  Not `ok` is a panic; nothing has changed then. */
    method AddReservedRegion(start: nat, end: nat) returns (ok: bool)
      requires Valid()
      modifies this, cells
      ensures Valid() && limit == old(limit)
      ensures ok <==> start % PAGE == 0 && end % PAGE == 0 && start < end
                      && 2 * |Cut(old(List()), Interval(start, end))| <= MAX_CELLS
      ensures List() == if ok then Cut(old(List()), Interval(start, end)) else old(List())
      ensures ok ==> forall a: nat :: Covers(List(), a) <==> Covers(old(List()), a) && !(start <= a < end)
    {
      if start % PAGE != 0 || end % PAGE != 0 {
        return false;
      }
      if start >= end {
        return false;
      }
      ghost var list, r := List(), Interval(start, end);
      CutSeparate(list, r);
      var newCells := new nat[MAX_CELLS];
      var n: nat := 0;
      for i := 0 to count
        invariant 2 * n <= MAX_CELLS && cells[..] == old(cells[..]) && count == old(count) && limit == old(limit)
        invariant Cut(list[..i], r) == Stored(newCells[..], n)
      {
        CutNext(list, r, i);
        CutGrows(list, r, i + 1);
        var s, e := cells[2 * i], cells[2 * i + 1];
        assert list[i] == Interval(s, e);
        ok, n := PutPieces(newCells, n, s, e, start, end);
        if !ok {
          return;
        }
      }
      assert list[..count] == list;
      CopyBack(newCells, n);
      forall a: nat ensures Covers(Cut(list, r), a) <==> Covers(list, a) && !(start <= a < end) {
        CutCovers(list, r, a);
      }
      ok := true;
    }
  }
}
