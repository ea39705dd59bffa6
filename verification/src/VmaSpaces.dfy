/** The virtual memory areas of an address space: fixed-address and gap-search allocation, and what
    happens when gap searches overlap in time. */
module VmaSpaces {
  import opened Sequences
  import opened MemorySpaces

  datatype Kind = Code | Heap | Environment | DeviceMemory | UserStack | KernelStack | KernelBuffer | Anonymous

  /** An area, from its first byte to the one after its last. */
  datatype Vma = Vma(start: nat, end: nat, space: Space, kind: Kind)

  /** The areas by start address. */
  type Areas = map<nat, Vma>

  // ------------------------------------------------------------ invariants

  /** Every area is filed under its start address. */
  predicate Filed(areas: Areas)
  {
    forall k | k in areas :: areas[k].start == k <= areas[k].end
  }

  /** No two areas share an address. */
  predicate Apart(areas: Areas)
  {
    forall k, l | k in areas && l in areas && k < l :: areas[k].end <= l
  }

  /** Areas end on page boundaries. */
  predicate Aligned(areas: Areas)
  {
    forall k | k in areas :: areas[k].end % PAGE == 0
  }

  /** The addresses from `a` to `e` touch no area. */
  predicate Fits(areas: Areas, a: nat, e: nat)
  {
    forall k | k in areas :: areas[k].end <= a || e <= k
  }

  /** The starts up to `a`. */
  function UpTo(areas: Areas, a: nat): (r: set<nat>)
    ensures forall k | k in areas && k <= a :: k in r
  {
    set k | k in areas && k <= a
  }

  /** The area with the greatest start up to `a`. */
  predicate IsPredecessor(areas: Areas, a: nat, k: nat)
  {
    k in areas && k <= a && forall l | l in areas && l <= a :: l <= k
  }

  // ---------------------------------------------------------- fixed address

  /** The bounds check of a fixed-address allocation. */
  predicate WithinBounds(space: Space, start: nat, end: nat, last: nat)
  {
    end <= last && (space == User ==> FIRST_USER <= start)
  }

  /** The overlap check: the predecessor ends by `a`. */
  ghost predicate PredecessorEnds(areas: Areas, a: nat)
  {
    forall k | IsPredecessor(areas, a, k) :: areas[k].end <= a
  }

  /** What a fixed-address allocation leaves; `None` where it answers so. */
  ghost function AllocatedAt(areas: Areas, v: Vma, last: nat): Option<Areas>
  {
    if WithinBounds(v.space, v.start, v.end, last) && PredecessorEnds(areas, v.start)
    then Some(areas[v.start := v]) else None
  }

  /** In disjoint areas the predecessor check speaks for all areas that start no later. */
  lemma PredecessorSpeaks(areas: Areas, a: nat)
    requires Filed(areas) && Apart(areas)
    ensures PredecessorEnds(areas, a) <==> forall k | k in areas && k <= a :: areas[k].end <= a
  {
    if UpTo(areas, a) != {} {
      var top := Greatest(UpTo(areas, a));
    }
  }

  lemma {:induction false} Greatest(s: set<nat>) returns (top: nat)
    requires s != {}
    ensures top in s && forall x | x in s :: x <= top
    decreases s
  {
    top :| top in s;
    var rest := s - {top};
    assert s == rest + {top};
    if rest != {} {
      var other := Greatest(rest);
      if other > top {
        top := other;
      }
    }
  }

  /** A fixed-address allocation looks only at its predecessor.  It keeps the areas disjoint exactly
      when the new area ends by the next one's start. */
  lemma FixedKeepsApart(areas: Areas, v: Vma, last: nat)
    requires Filed(areas) && Apart(areas) && v.start <= v.end && AllocatedAt(areas, v, last).Some?
    ensures Filed(areas[v.start := v])
    ensures Apart(areas[v.start := v]) <==> forall k | k in areas && v.start < k :: v.end <= k
  {
    PredecessorSpeaks(areas, v.start);
    var areas' := areas[v.start := v];
    if Apart(areas') {
      forall k | k in areas && v.start < k ensures v.end <= k {
        assert v.start in areas' && k in areas';
      }
    }
  }

  /** It may overlap the next area. */
  lemma FixedMayOverlap(last: nat)
    requires FIRST_USER <= last
    ensures var areas := map[8 * PAGE := Vma(8 * PAGE, 12 * PAGE, Kernel, Anonymous)];
            var v := Vma(4 * PAGE, 10 * PAGE, Kernel, Anonymous);
            && Filed(areas) && Apart(areas)
            && AllocatedAt(areas, v, last) == Some(areas[v.start := v]) && !Apart(areas[v.start := v])
  {
    var areas := map[8 * PAGE := Vma(8 * PAGE, 12 * PAGE, Kernel, Anonymous)];
    var v := Vma(4 * PAGE, 10 * PAGE, Kernel, Anonymous);
    assert PredecessorEnds(areas, v.start);
    var areas' := areas[v.start := v];
    assert 4 * PAGE in areas' && 8 * PAGE in areas' && areas'[4 * PAGE].end > 8 * PAGE;
  }

  // -------------------------------------------------------------- gap search

  function Low(space: Space): nat
  {
    if space == User then FIRST_USER else 0
  }

  function High(space: Space, last: nat): nat
  {
    if space == User then last else FIRST_USER
  }

  predicate IsFit(areas: Areas, space: Space, size: nat, last: nat, a: nat)
  {
    Low(space) <= a && a + size <= High(space, last) && Fits(areas, a, a + size)
  }

  ghost predicate LowestFit(areas: Areas, space: Space, size: nat, last: nat, a: nat)
  {
    IsFit(areas, space, size, last, a) && forall b: nat | IsFit(areas, space, size, last, b) :: a <= b
  }

  /** The areas a search in `space` looks at. */
  function Visible(areas: Areas, space: Space, last: nat): Areas
  {
    map k | k in areas && Low(space) <= k < High(space, last) :: areas[k]
  }

  /** An area that begins among kernel addresses and ends among user addresses. */
  predicate Straddles(areas: Areas)
  {
    exists k | k in areas :: k < FIRST_USER < areas[k].end
  }

  /** Unless an area straddles the boundary, what a search does not look at cannot be in the way. */
  lemma VisibleSuffices(areas: Areas, space: Space, last: nat, a: nat, e: nat)
    requires Filed(areas) && (space == User ==> !Straddles(areas))
    requires Low(space) <= a <= e <= High(space, last)
    ensures Fits(Visible(areas, space, last), a, e) <==> Fits(areas, a, e)
  {
    var seen := Visible(areas, space, last);
    if Fits(seen, a, e) {
      forall k | k in areas ensures areas[k].end <= a || e <= k {
        if k in seen {
          assert seen[k].end <= a || e <= k;
        }
      }
    }
    if Fits(areas, a, e) {
      forall k | k in seen ensures seen[k].end <= a || e <= k {
        assert areas[k].end <= a || e <= k;
      }
    }
  }

  lemma {:induction false} Least(s: set<nat>) returns (low: nat)
    requires s != {}
    ensures low in s && forall x | x in s :: low <= x
    decreases s
  {
    low :| low in s;
    var rest := s - {low};
    assert s == rest + {low};
    if rest != {} {
      var other := Least(rest);
      if other < low {
        low := other;
      }
    }
  }

  /** Where a search stands: it has passed the areas not in `rest`, and nothing fits before `current`. */
  ghost predicate SearchAt(seen: Areas, rest: set<nat>, current: nat, space: Space, size: nat, last: nat)
  {
    && rest <= seen.Keys && Low(space) <= current
    && (forall k | k in seen && k !in rest :: seen[k].end <= current)
    && (forall k | k in rest :: current <= k)
    && (forall b: nat | IsFit(seen, space, size, last, b) :: current <= b)
  }

  lemma SearchNext(seen: Areas, rest: set<nat>, current: nat, space: Space, size: nat, last: nat, k: nat)
    requires Filed(seen) && Apart(seen) && SearchAt(seen, rest, current, space, size, last)
    requires k in rest && (forall l | l in rest :: k <= l) && current + size > k
    ensures SearchAt(seen, rest - {k}, seen[k].end, space, size, last)
  {
    forall b: nat | IsFit(seen, space, size, last, b) ensures seen[k].end <= b {
      assert seen[k].end <= b || b + size <= k;
    }
  }

  class AddressSpace {
    var areas: Areas
    const last: nat

    ghost predicate Valid()
      reads this
    {
      Filed(areas) && Apart(areas) && Aligned(areas) && FIRST_USER <= last
    }

    constructor (last: nat)
      requires FIRST_USER <= last
      ensures Valid() && areas == map[] && this.last == last
    {
      areas := map[];
      this.last := last;
    }

    /** The area with the greatest start up to `a`. */
    method Predecessor(a: nat) returns (r: Option<Vma>)
      ensures r.None? ==> forall k | k in areas :: a < k
      ensures r.Some? ==> exists k :: IsPredecessor(areas, a, k) && r.value == areas[k]
    {
      var upTo := UpTo(areas, a);
      if upTo == {} {
        return None;
      }
      ghost var top := Greatest(upTo);
      var k :| k in upTo && forall l | l in upTo :: l <= k;
      assert IsPredecessor(areas, a, k);
      return Some(areas[k]);
    }

    /** A new area at a fixed page. */
    method AllocAt(page: nat, pages: nat, space: Space, kind: Kind) returns (r: Option<Vma>)
      modifies this
      ensures var v := Vma(PAGE * page, PAGE * (page + pages), space, kind);
              var after := AllocatedAt(old(areas), v, last);
              && (r.Some? <==> after.Some?) && (r.Some? ==> r.value == v)
              && areas == if after.Some? then after.value else old(areas)
      ensures r.None? <==>
                || PAGE * (page + pages) > last || (space == User && PAGE * page < FIRST_USER)
                || exists k :: IsPredecessor(old(areas), PAGE * page, k) && PAGE * page < old(areas)[k].end
      ensures Filed(old(areas)) && Apart(old(areas)) ==>
                (r.Some? <==>
                   && PAGE * (page + pages) <= last && (space == User ==> FIRST_USER <= PAGE * page)
                   && forall k | k in old(areas) && k <= PAGE * page :: old(areas)[k].end <= PAGE * page)
      ensures r.Some? ==> areas == old(areas)[PAGE * page := Vma(PAGE * page, PAGE * (page + pages), space, kind)]
    {
      if Filed(areas) && Apart(areas) {
        PredecessorSpeaks(areas, PAGE * page);
      }
      var start, end := PAGE * page, PAGE * (page + pages);
      if space == User {
        if start < FIRST_USER || end > last {
          return None;
        }
      } else if end > last {
        return None;
      }
      var prev := Predecessor(start);
      if prev.Some? && prev.value.end > start {
        return None;
      }
      var v := Vma(start, end, space, kind);
      areas := areas[start := v];
      return Some(v);
    }

    /** The search for a gap: the lowest among the areas it looks at. */
    method FindGap(size: nat, space: Space) returns (r: Option<nat>)
      requires Valid()
      ensures r.Some? ==> LowestFit(Visible(areas, space, last), space, size, last, r.value)
      ensures r.None? ==> forall b: nat :: !IsFit(Visible(areas, space, last), space, size, last, b)
    {
      var lo, hi := Low(space), High(space, last);
      ghost var seen := Visible(areas, space, last);
      var current: nat := lo;
      var rest := set k | k in areas && lo <= k < hi;
      while rest != {}
        invariant SearchAt(seen, rest, current, space, size, last)
        invariant current <= hi
        decreases rest
      {
        ghost var least := Least(rest);
        var k :| k in rest && forall l | l in rest :: k <= l;
        if current + size <= areas[k].start && areas[k].start <= hi {
          return Some(current);
        }
        SearchNext(seen, rest, current, space, size, last, k);
        current := areas[k].end;
        rest := rest - {k};
        if current > hi {
          break;
        }
      }
      if current + size <= hi {
        return Some(current);
      }
      return None;
    }

    /** A new area wherever there is room. */
    method Alloc(pages: nat, space: Space, kind: Kind) returns (r: Option<Vma>)
      requires Valid()
      modifies this
      ensures Valid()
      ensures r.Some? ==>
                && LowestFit(old(areas), space, PAGE * pages, last, r.value.start)
                && r.value == Vma(r.value.start, r.value.start + PAGE * pages, space, kind)
                && areas == old(areas)[r.value.start := r.value]
                && (if space == User then FIRST_USER <= r.value.start && r.value.end <= last
                    else r.value.end <= FIRST_USER)
      ensures r.None? ==> areas == old(areas)
      ensures pages > 0 ==> (r.None? <==> Unplaceable(old(areas), space, PAGE * pages, last))
      ensures pages == 0 ==> (r.None? <==> Covered(old(areas), Low(space)))
    {
      hide LowestFit, IsFit, Visible, Fits, Straddles, AllocatedAt, Filed, Apart, Aligned, Unplaceable, Covered;
      var gap := FindGap(PAGE * pages, space);
      if gap.None? {
        GapMissed(areas, space, PAGE * pages, last);
        return None;
      }
      GapAllocated(areas, space, pages, last, kind, gap.value);
      AllocatedFacts(areas, Vma(gap.value, gap.value + PAGE * pages, space, kind), last);
      r := AllocAt(gap.value / PAGE, pages, space, kind);
    }

    /** The area of the given kind that `address` is in: looking at one area answers as looking at
        all of them would. */
    method AddressWithinVma(address: nat, kind: Kind) returns (r: Option<Vma>)
      requires Valid()
      ensures forall v :: r == Some(v) <==> v in areas.Values && v.start <= address < v.end && v.kind == kind
    {
      var prev := Predecessor(address);
      if prev.Some? && address < prev.value.end && prev.value.kind == kind {
        r := prev;
      } else {
        r := None;
      }
      forall k | k in areas && k <= address < areas[k].end ensures prev == Some(areas[k]) {
        var p :| IsPredecessor(areas, address, p) && prev.value == areas[p];
        assert p in areas && k <= p;
      }
    }
  }

  lemma AllocatedFacts(areas: Areas, v: Vma, last: nat)
    ensures AllocatedAt(areas, v, last).Some? ==> AllocatedAt(areas, v, last).value == areas[v.start := v]
  {
  }

  /** What comes of placing an area where the search found a gap. */
  lemma GapAllocated(areas: Areas, space: Space, pages: nat, last: nat, kind: Kind, a: nat)
    requires Filed(areas) && Apart(areas) && Aligned(areas) && FIRST_USER <= last
    requires LowestFit(Visible(areas, space, last), space, PAGE * pages, last, a)
    ensures a % PAGE == 0 && PAGE * (a / PAGE) == a && PAGE * (a / PAGE + pages) == a + PAGE * pages
    ensures var v := Vma(a, a + PAGE * pages, space, kind);
            && (if space == User then FIRST_USER <= a && v.end <= last else v.end <= FIRST_USER)
            && (AllocatedAt(areas, v, last).Some? ==>
                  && LowestFit(areas, space, PAGE * pages, last, a)
                  && Filed(areas[a := v]) && Apart(areas[a := v]) && Aligned(areas[a := v]))
            && (pages > 0 ==> (AllocatedAt(areas, v, last).None? <==> Unplaceable(areas, space, PAGE * pages, last)))
            && (pages == 0 ==> (AllocatedAt(areas, v, last).None? <==> Covered(areas, Low(space))))
  {
    hide Visible, Fits, Straddles, AllocatedAt, Filed, Apart, Unplaceable, Covered;
    CandidateAnchored(areas, space, PAGE * pages, last, a);
    CandidateFits(areas, space, PAGE * pages, last, a);
    CandidateOutcome(areas, Vma(a, a + PAGE * pages, space, kind), last);
    if pages > 0 {
      RefusedExactly(areas, space, PAGE * pages, last, a);
    } else {
      EmptyFits(areas, space, last);
    }
    assert LowestFit(areas, space, PAGE * pages, last, a) || Covered(areas, a);
  }

  /** What it is to fit: within the bounds of the space and clear of all areas. */
  lemma FitMeans(areas: Areas, space: Space, size: nat, last: nat, a: nat)
    ensures IsFit(areas, space, size, last, a) <==>
              && (if space == User then FIRST_USER <= a && a + size <= last else a + size <= FIRST_USER)
              && forall k | k in areas :: areas[k].end <= a || a + size <= k
  {
  }

  /** What stands in the way of a search, in terms of the areas there are. */
  lemma UnplaceableMeans(areas: Areas, space: Space, size: nat, last: nat)
    requires Filed(areas) && size > 0
    ensures Unplaceable(areas, space, size, last) <==>
              || (forall a: nat :: !IsFit(areas, space, size, last, a))
              || (&& space == User && (exists k | k in areas :: k < FIRST_USER < areas[k].end)
                  && FIRST_USER + size <= last
                  && forall k | k in areas && FIRST_USER <= k < last && FIRST_USER < areas[k].end ::
                       FIRST_USER + size <= k)
  {
    var seen := Visible(areas, User, last);
    if IsFit(seen, User, size, last, FIRST_USER) {
      forall k | k in areas && FIRST_USER <= k < last && FIRST_USER < areas[k].end ensures FIRST_USER + size <= k {
        assert k in seen && seen[k] == areas[k];
      }
    }
  }

  /** For an empty area there is always room right where a search starts. */
  lemma EmptyFits(areas: Areas, space: Space, last: nat)
    requires FIRST_USER <= last
    ensures IsFit(Visible(areas, space, last), space, 0, last, Low(space))
  {
  }

  /** Nothing fits; or an area straddles the boundary and, that area aside, user space has room right at
      its start.  The search then finds that room and never another. */
  ghost predicate Unplaceable(areas: Areas, space: Space, size: nat, last: nat)
  {
    || (forall a: nat :: !IsFit(areas, space, size, last, a))
    || (space == User && Straddles(areas) && IsFit(Visible(areas, User, last), User, size, last, FIRST_USER))
  }

  /** The room a search finds is inside an area just when it is at the start of user space and an area
      straddles the boundary. */
  lemma CoveredExactly(areas: Areas, size: nat, last: nat, a: nat)
    requires Filed(areas) && Apart(areas) && size > 0 && LowestFit(Visible(areas, User, last), User, size, last, a)
    ensures Covered(areas, a) <==> Straddles(areas) && IsFit(Visible(areas, User, last), User, size, last, FIRST_USER)
  {
    var seen := Visible(areas, User, last);
    if Covered(areas, a) {
      var k :| k in areas && k <= a < areas[k].end;
      assert k !in seen && k < FIRST_USER;
      CandidateAnchored(areas, User, size, last, a);
      assert a == FIRST_USER;
    }
    if Straddles(areas) && IsFit(seen, User, size, last, FIRST_USER) {
      var k :| k in areas && k < FIRST_USER < areas[k].end;
      assert a == FIRST_USER;
    }
  }

  lemma RefusedExactly(areas: Areas, space: Space, size: nat, last: nat, a: nat)
    requires Filed(areas) && Apart(areas) && size > 0 && LowestFit(Visible(areas, space, last), space, size, last, a)
    ensures Covered(areas, a) <==> Unplaceable(areas, space, size, last)
  {
    CandidateFits(areas, space, size, last, a);
    if space == User {
      CoveredExactly(areas, size, last, a);
    }
    hide Visible, LowestFit, Straddles;
    if Fits(areas, a, a + size) {
      assert !Covered(areas, a) by {
        forall k | k in areas ensures !(k <= a < areas[k].end) {
        }
      }
      assert IsFit(areas, space, size, last, a);
    }
  }

  /** A lowest fit is where the search starts or where an area ends. */
  lemma CandidateAnchored(areas: Areas, space: Space, size: nat, last: nat, a: nat)
    requires LowestFit(Visible(areas, space, last), space, size, last, a)
    ensures a == Low(space) || exists k | k in areas :: areas[k].end == a
  {
    if a > Low(space) {
      var seen := Visible(areas, space, last);
      assert !IsFit(seen, space, size, last, a - 1);
      var k :| k in seen && seen[k].end > a - 1 && a - 1 + size > k;
      assert seen[k].end <= a || a + size <= k;
      assert areas[k].end == a;
    }
  }

  /** Where nothing fits among the areas a search looks at, nothing fits. */
  lemma GapMissed(areas: Areas, space: Space, size: nat, last: nat)
    requires FIRST_USER <= last && forall b: nat :: !IsFit(Visible(areas, space, last), space, size, last, b)
    ensures Unplaceable(areas, space, size, last) && size > 0
  {
    EmptyFits(areas, space, last);
    forall a: nat ensures !IsFit(areas, space, size, last, a) {
      FitsVisible(areas, space, last, a, a + size);
      assert !IsFit(Visible(areas, space, last), space, size, last, a);
    }
  }

  lemma FitsVisible(areas: Areas, space: Space, last: nat, a: nat, e: nat)
    ensures Fits(areas, a, e) ==> Fits(Visible(areas, space, last), a, e)
  {
    var seen := Visible(areas, space, last);
    if Fits(areas, a, e) {
      forall k | k in seen ensures seen[k].end <= a || e <= k {
        assert areas[k].end <= a || e <= k;
      }
    }
  }

  /** Address `a` is inside an area. */
  predicate Covered(areas: Areas, a: nat)
  {
    exists k | k in areas :: k <= a < areas[k].end
  }

  /** What a search finds fits among all areas, or it is inside one that straddles the boundary. */
  lemma CandidateFits(areas: Areas, space: Space, size: nat, last: nat, a: nat)
    requires Filed(areas) && Apart(areas) && LowestFit(Visible(areas, space, last), space, size, last, a)
    ensures Fits(areas, a, a + size) || (space == User && Straddles(areas) && Covered(areas, a))
    ensures Fits(areas, a, a + size) ==> LowestFit(areas, space, size, last, a)
  {
    var seen := Visible(areas, space, last);
    if space == User && Straddles(areas) {
      var k :| k in areas && k < FIRST_USER < areas[k].end;
      if areas[k].end <= a {
        forall l | l in areas ensures areas[l].end <= a || a + size <= l {
          if l in seen {
            assert seen[l].end <= a || a + size <= l;
          }
        }
      }
    } else {
      VisibleSuffices(areas, space, last, a, a + size);
    }
    forall b: nat | IsFit(areas, space, size, last, b) ensures a <= b {
      assert IsFit(seen, space, size, last, b) by {
        forall k | k in seen ensures seen[k].end <= b || b + size <= k {
          assert areas[k].end <= b || b + size <= k;
        }
      }
    }
  }

  /** A candidate that fits or is covered is placed without overlap, or refused because it is covered. */
  lemma CandidateOutcome(areas: Areas, v: Vma, last: nat)
    requires Filed(areas) && Apart(areas) && v.start <= v.end && WithinBounds(v.space, v.start, v.end, last)
    requires Fits(areas, v.start, v.end) || Covered(areas, v.start)
    ensures AllocatedAt(areas, v, last).None? <==> Covered(areas, v.start)
    ensures AllocatedAt(areas, v, last).Some? ==> Filed(areas[v.start := v]) && Apart(areas[v.start := v])
    ensures Fits(areas, v.start, v.end) && v.start < v.end ==> AllocatedAt(areas, v, last).Some?
  {
    PredecessorSpeaks(areas, v.start);
    if AllocatedAt(areas, v, last).Some? {
      FixedKeepsApart(areas, v, last);
    }
  }

  /** An area that straddles the boundary makes user searches fail although there is room: the search
      does not see it, and the predecessor check then refuses the candidate. */
  lemma StraddlerHidesRoom(last: nat)
    requires FIRST_USER + 2 * PAGE <= last
    ensures var areas := map[FIRST_USER - PAGE := Vma(FIRST_USER - PAGE, FIRST_USER + PAGE, Kernel, Anonymous)];
            && Filed(areas) && Apart(areas) && Aligned(areas)
            && LowestFit(Visible(areas, User, last), User, PAGE, last, FIRST_USER)
            && AllocatedAt(areas, Vma(FIRST_USER, FIRST_USER + PAGE, User, Heap), last).None?
            && IsFit(areas, User, PAGE, last, FIRST_USER + PAGE)
  {
    var areas := map[FIRST_USER - PAGE := Vma(FIRST_USER - PAGE, FIRST_USER + PAGE, Kernel, Anonymous)];
    assert Visible(areas, User, last) == map[];
    assert IsPredecessor(areas, FIRST_USER, FIRST_USER - PAGE);
  }
}
