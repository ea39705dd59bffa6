/** Gap searches that overlap in time.  A search releases its lock before the area it found room for
    is entered, so any number of other allocations may come in between. */
module VmaInterleavings {
  import opened MemorySpaces
  import opened VmaSpaces

  /** A search that has found room at `start` and has not yet entered its area. */
  datatype Request = Request(start: nat, pages: nat, space: Space, kind: Kind)

  datatype World = World(areas: Areas, pending: seq<Request>)

  datatype Step =
    | Search(pages: nat, space: Space, kind: Kind)
    | Enter(index: nat)
    | Fixed(page: nat, pages: nat, space: Space, kind: Kind)

  function AreaOf(r: Request): Vma
  {
    Vma(r.start, r.start + PAGE * r.pages, r.space, r.kind)
  }

  /** The areas after an attempt to enter `v`. */
  ghost function Entered(areas: Areas, v: Vma, last: nat): Areas
  {
    var after := AllocatedAt(areas, v, last);
    if after.Some? then after.value else areas
  }

  ghost predicate Next(w: World, step: Step, w': World, last: nat)
  {
    match step
    case Search(pages, space, kind) =>
      && w'.areas == w.areas
      && ((w'.pending == w.pending
           && forall a: nat :: !IsFit(Visible(w.areas, space, last), space, PAGE * pages, last, a))
          || exists a: nat :: LowestFit(Visible(w.areas, space, last), space, PAGE * pages, last, a)
                              && w'.pending == w.pending + [Request(a, pages, space, kind)])
    case Enter(i) =>
      && i < |w.pending|
      && w'.areas == Entered(w.areas, AreaOf(w.pending[i]), last)
      && w'.pending == w.pending[..i] + w.pending[i + 1..]
    case Fixed(page, pages, space, kind) =>
      && w'.areas == Entered(w.areas, FixedArea(step), last)
      && w'.pending == w.pending
  }

  function FixedArea(step: Step): Vma
    requires step.Fixed?
  {
    Vma(PAGE * step.page, PAGE * (step.page + step.pages), step.space, step.kind)
  }

  /** The area of a fixed-address allocation is entered and not refused. */
  ghost predicate Accepted(w: World, step: Step, last: nat)
    requires step.Fixed?
  {
    AllocatedAt(w.areas, FixedArea(step), last).Some?
  }

  // -------------------------------------------------------------- invariant

  /** `a` is where a search starts or where an area begins or ends. */
  predicate Anchored(areas: Areas, a: nat)
  {
    a == 0 || a == FIRST_USER || a in areas || exists k | k in areas :: areas[k].end == a
  }

  /** What holds of every search under way: its room is still there, or its first address is taken. */
  predicate Open(areas: Areas, r: Request, last: nat)
  {
    && Low(r.space) <= r.start && AreaOf(r).end <= High(r.space, last) && Anchored(areas, r.start)
    && (Fits(areas, r.start, AreaOf(r).end) || Covered(areas, r.start))
  }

  predicate Inv(w: World, last: nat)
  {
    && FIRST_USER <= last && Filed(w.areas) && Apart(w.areas)
    && (forall i | 0 <= i < |w.pending| :: Open(w.areas, w.pending[i], last))
  }

  /** A fixed-address allocation that keeps out of the way: it does not reach the next area, and it
      does not start strictly inside room that a search under way can still take. */
  predicate Considerate(w: World, v: Vma)
  {
    && (forall k | k in w.areas && v.start < k :: v.end <= k)
    && forall i | 0 <= i < |w.pending| ::
         v.start <= w.pending[i].start || AreaOf(w.pending[i]).end <= v.start
         || Covered(w.areas, w.pending[i].start)
  }

  /** An area that is not empty is never displaced, and an empty one only by one that starts where it does. */
  ghost predicate Keeps(areas: Areas, areas': Areas)
  {
    forall k | k in areas :: k in areas' && (k < areas[k].end ==> areas'[k] == areas[k])
  }

  lemma EnteredKeeps(areas: Areas, v: Vma, last: nat)
    requires Filed(areas) && Apart(areas)
    ensures Keeps(areas, Entered(areas, v, last))
  {
    PredecessorSpeaks(areas, v.start);
  }

  lemma AnchoredKept(areas: Areas, areas': Areas, a: nat)
    requires Filed(areas) && Keeps(areas, areas') && Anchored(areas, a)
    ensures Anchored(areas', a)
  {
    if a != 0 && a != FIRST_USER && a !in areas {
      var k :| k in areas && areas[k].end == a;
      assert areas'[k].end == a;
    }
  }

  lemma CoveredKept(areas: Areas, areas': Areas, a: nat)
    requires Keeps(areas, areas') && Covered(areas, a)
    ensures Covered(areas', a)
  {
    var k :| k in areas && k <= a < areas[k].end;
    assert areas'[k].end == areas[k].end;
  }

  /** Two anchored ranges that both fit overlap only by starting alike. */
  lemma AnchorsApart(areas: Areas, a: Request, b: Request, last: nat)
    requires Open(areas, a, last) && Open(areas, b, last) && a.start < b.start && FIRST_USER <= last
    requires Filed(areas) && Fits(areas, a.start, AreaOf(a).end)
    ensures AreaOf(a).end <= b.start
  {
    if b.start != FIRST_USER && b.start !in areas {
      var k :| k in areas && areas[k].end == b.start;
    }
  }

  lemma FitsBeside(areas: Areas, v: Vma, a: nat, e: nat)
    requires Fits(areas, a, e) && (v.end <= a || e <= v.start)
    ensures Fits(areas[v.start := v], a, e)
  {
  }

  /** Entering one search's area leaves every other search with its room or without its first address. */
  lemma OthersStayOpen(areas: Areas, a: Request, b: Request, last: nat)
    requires Filed(areas) && Apart(areas) && FIRST_USER <= last && Open(areas, a, last) && Open(areas, b, last)
    ensures Open(Entered(areas, AreaOf(b), last), a, last)
  {
    hide Filed, Apart, Fits, Anchored, PredecessorEnds;
    var v := AreaOf(b);
    var areas' := Entered(areas, v, last);
    EnteredKeeps(areas, v, last);
    AnchoredKept(areas, areas', a.start);
    CandidateOutcome(areas, v, last);
    if Covered(areas, a.start) {
      CoveredKept(areas, areas', a.start);
    } else if AllocatedAt(areas, v, last).Some? {
      EnteredBeside(areas, a, b, last);
    }
  }

  lemma EnteredBeside(areas: Areas, a: Request, b: Request, last: nat)
    requires Filed(areas) && FIRST_USER <= last && Open(areas, a, last) && Open(areas, b, last)
    requires !Covered(areas, a.start) && !Covered(areas, b.start)
    ensures var areas' := areas[b.start := AreaOf(b)];
            Fits(areas', a.start, AreaOf(a).end) || Covered(areas', a.start)
  {
    hide Filed, Fits, Anchored;
    if a.start < b.start {
      AnchorsApart(areas, a, b, last);
      FitsBeside(areas, AreaOf(b), a.start, AreaOf(a).end);
    } else if b.start < a.start {
      AnchorsApart(areas, b, a, last);
      FitsBeside(areas, AreaOf(b), a.start, AreaOf(a).end);
    } else if b.pages == 0 {
      FitsBeside(areas, AreaOf(b), a.start, AreaOf(a).end);
    } else {
      var areas' := areas[b.start := AreaOf(b)];
      assert b.start in areas' && b.start <= a.start < areas'[b.start].end;
    }
  }

  // ------------------------------------------------------------------ steps

  lemma SearchInv(w: World, w': World, pages: nat, space: Space, kind: Kind, last: nat)
    requires Inv(w, last) && Next(w, Search(pages, space, kind), w', last)
    ensures Inv(w', last)
  {
    hide Filed, Apart, Fits, IsFit;
    if w'.pending != w.pending {
      var a: nat :| LowestFit(Visible(w.areas, space, last), space, PAGE * pages, last, a)
                    && w'.pending == w.pending + [Request(a, pages, space, kind)];
      FoundOpen(w.areas, Request(a, pages, space, kind), last);
      forall i | 0 <= i < |w'.pending| ensures Open(w'.areas, w'.pending[i], last) {
        if i < |w.pending| {
          assert w'.pending[i] == w.pending[i];
        }
      }
    }
  }

  lemma FoundOpen(areas: Areas, r: Request, last: nat)
    requires FIRST_USER <= last && Filed(areas) && Apart(areas)
    requires LowestFit(Visible(areas, r.space, last), r.space, PAGE * r.pages, last, r.start)
    ensures Open(areas, r, last)
  {
    hide Fits, Visible;
    CandidateFits(areas, r.space, PAGE * r.pages, last, r.start);
    CandidateAnchored(areas, r.space, PAGE * r.pages, last, r.start);
  }

  lemma EnterInv(w: World, w': World, i: nat, last: nat)
    requires Inv(w, last) && Next(w, Enter(i), w', last)
    ensures Inv(w', last) && Keeps(w.areas, w'.areas)
  {
    hide Filed, Apart, Fits, Anchored, AllocatedAt;
    var r := w.pending[i];
    assert Open(w.areas, r, last);
    CandidateOutcome(w.areas, AreaOf(r), last);
    AllocatedFacts(w.areas, AreaOf(r), last);
    EnteredKeeps(w.areas, AreaOf(r), last);
    forall j | 0 <= j < |w'.pending| ensures Open(w'.areas, w'.pending[j], last) {
      var was := if j < i then j else j + 1;
      assert w'.pending[j] == w.pending[was];
      OthersStayOpen(w.areas, w.pending[was], r, last);
    }
  }

  lemma FixedStaysOpen(areas: Areas, v: Vma, a: Request, last: nat)
    requires Filed(areas) && Apart(areas) && Open(areas, a, last)
    requires v.start <= a.start || AreaOf(a).end <= v.start || Covered(areas, a.start)
    ensures Open(Entered(areas, v, last), a, last)
  {
    hide Filed, Apart, Fits, Anchored;
    var areas' := Entered(areas, v, last);
    EnteredKeeps(areas, v, last);
    AnchoredKept(areas, areas', a.start);
    if Covered(areas, a.start) {
      CoveredKept(areas, areas', a.start);
    } else if areas' != areas {
      if v.start <= a.start < v.end {
        assert v.start in areas' && v.start <= a.start < areas'[v.start].end;
      } else {
        FitsBeside(areas, v, a.start, AreaOf(a).end);
      }
    }
  }

  lemma FixedInv(w: World, w': World, step: Step, last: nat)
    requires Inv(w, last) && step.Fixed? && Next(w, step, w', last) 
    requires Accepted(w, step, last) ==> Considerate(w, FixedArea(step))
    ensures Inv(w', last) && Keeps(w.areas, w'.areas)
  {
    hide Filed, Fits, Anchored, AllocatedAt, Apart;
    var v := FixedArea(step);
    EnteredKeeps(w.areas, v, last);
    AllocatedFacts(w.areas, v, last);
    if Accepted(w, step, last) {
      FixedKeepsApart(w.areas, v, last);
      forall i | 0 <= i < |w'.pending| ensures Open(w'.areas, w'.pending[i], last) {
        FixedStaysOpen(w.areas, v, w.pending[i], last);
      }
    }
  }

  // ------------------------------------------------------------------- runs

  ghost predicate Run(ws: seq<World>, steps: seq<Step>, last: nat)
  {
    && |ws| == |steps| + 1
    && forall i | 0 <= i < |steps| :: Next(ws[i], steps[i], ws[i + 1], last)
  }

  /** Searches and fixed-address allocations in any interleaving: as long as the fixed-address ones that
      are accepted are considerate, all areas stay disjoint and none that is not empty is ever displaced. */
  lemma {:induction false} InterleavingsSafe(ws: seq<World>, steps: seq<Step>, last: nat)
    requires Run(ws, steps, last) && Inv(ws[0], last)
    requires forall i | 0 <= i < |steps| && steps[i].Fixed? && Accepted(ws[i], steps[i], last) ::
               Considerate(ws[i], FixedArea(steps[i]))
    ensures forall i | 0 <= i < |ws| :: Inv(ws[i], last) && Keeps(ws[0].areas, ws[i].areas)
    decreases |steps|
  {
    hide Inv, Next, Considerate, Accepted;
    if steps != [] {
      var n := |steps| - 1;
      assert ws[..|ws| - 1][0] == ws[0];
      InterleavingsSafe(ws[..|ws| - 1], steps[..n], last);
      assert ws[..|ws| - 1][n] == ws[n];
      assert Next(ws[n], steps[n], ws[n + 1], last);
      match steps[n] {
        case Search(pages, space, kind) =>
          SearchInv(ws[n], ws[n + 1], pages, space, kind, last);
          SearchKeeps(ws[n], ws[n + 1], steps[n], last);
        case Enter(i) =>
          EnterInv(ws[n], ws[n + 1], i, last);
        case Fixed(_, _, _, _) =>
          FixedInv(ws[n], ws[n + 1], steps[n], last);
      }
      forall i | 0 <= i < |ws| ensures Inv(ws[i], last) && Keeps(ws[0].areas, ws[i].areas) {
        if i <= n {
          assert ws[..|ws| - 1][i] == ws[i];
        }
      }
    }
  }

  /** Every area lies where its space allows: user areas between the start of user space and the last usable
      address, and what a search has found for the kernel below user space. */
  predicate Bounded(w: World, last: nat)
  {
    && (forall k | k in w.areas ::
          w.areas[k].end <= last && (w.areas[k].space == User ==> FIRST_USER <= w.areas[k].start))
    && (forall i | 0 <= i < |w.pending| ::
          var v := AreaOf(w.pending[i]);
          if v.space == User then FIRST_USER <= v.start && v.end <= last else v.end <= FIRST_USER)
  }

  lemma StepBounded(w: World, step: Step, w': World, last: nat)
    requires Bounded(w, last) && Next(w, step, w', last)
    ensures Bounded(w', last)
  {
    hide LowestFit, PredecessorEnds, Visible;
    match step {
      case Search(pages, space, kind) =>
        if w'.pending != w.pending {
          var a: nat :| LowestFit(Visible(w.areas, space, last), space, PAGE * pages, last, a)
                        && w'.pending == w.pending + [Request(a, pages, space, kind)];
          FitBounded(Visible(w.areas, space, last), space, PAGE * pages, last, a);
          assert AreaOf(w'.pending[|w.pending|]) == Vma(a, a + PAGE * pages, space, kind);
        }
      case Enter(i) =>
        forall j | 0 <= j < |w'.pending| ensures w'.pending[j] in w.pending {
          assert w'.pending[j] == w.pending[if j < i then j else j + 1];
        }
      case Fixed(_, _, _, _) =>
    }
  }

  lemma FitBounded(areas: Areas, space: Space, size: nat, last: nat, a: nat)
    requires LowestFit(areas, space, size, last, a)
    ensures if space == User then FIRST_USER <= a && a + size <= last else a + size <= FIRST_USER
  {
  }

  /** Over every run, whatever is allocated where, no user area reaches below user space or beyond the last
      usable address, and no search for the kernel ends in user space. */
  lemma RunBounded(ws: seq<World>, steps: seq<Step>, last: nat)
    requires Run(ws, steps, last) && Bounded(ws[0], last)
    ensures forall i | 0 <= i < |ws| :: Bounded(ws[i], last)
  {
    hide Bounded, Next;
    for n := 0 to |steps|
      invariant forall i | 0 <= i <= n :: Bounded(ws[i], last)
    {
      StepBounded(ws[n], steps[n], ws[n + 1], last);
    }
  }

  lemma SearchKeeps(w: World, w': World, step: Step, last: nat)
    requires step.Search? && Next(w, step, w', last)
    ensures w'.areas == w.areas
  {
  }

  /** Without fixed-address allocations nothing has to be assumed. */
  lemma SearchesSafe(ws: seq<World>, steps: seq<Step>, last: nat)
    requires FIRST_USER <= last && Run(ws, steps, last) && ws[0] == World(map[], [])
    requires forall i | 0 <= i < |steps| :: !steps[i].Fixed?
    ensures forall i | 0 <= i < |ws| :: Filed(ws[i].areas) && Apart(ws[i].areas)
  {
    assert Inv(ws[0], last);
    InterleavingsSafe(ws, steps, last);
    forall i | 0 <= i < |ws| ensures Filed(ws[i].areas) && Apart(ws[i].areas) {
      assert Inv(ws[i], last);
    }
  }

  /** What becomes of a search under way, at any later time: it gets exactly the room it found, or
      nothing because another area has its first address. */
  lemma EnterOutcome(w: World, i: nat, last: nat)
    requires Inv(w, last) && i < |w.pending|
    ensures var r := w.pending[i];
            && (AllocatedAt(w.areas, AreaOf(r), last).Some? <==> !Covered(w.areas, r.start))
            && (!Covered(w.areas, r.start) ==> Fits(w.areas, r.start, AreaOf(r).end))
  {
    assert Open(w.areas, w.pending[i], last);
    CandidateOutcome(w.areas, AreaOf(w.pending[i]), last);
  }

  /** A fixed-address allocation into the middle of room a search has found is accepted, and so is the
      search's own area after it: they overlap. */
  lemma FixedBetween(last: nat)
    requires FIRST_USER <= last
    ensures var w := World(map[], [Request(0, 10, Kernel, Anonymous)]);
            var v := Vma(5 * PAGE, 8 * PAGE, Kernel, DeviceMemory);
            var w1 := World(Entered(w.areas, v, last), w.pending);
            var w2 := World(Entered(w1.areas, AreaOf(w.pending[0]), last), []);
            && Inv(w, last) && Next(w, Fixed(5, 3, Kernel, DeviceMemory), w1, last) && Next(w1, Enter(0), w2, last)
            && Apart(w1.areas) && !Apart(w2.areas) && !Considerate(w, v)
  {
    var w := World(map[], [Request(0, 10, Kernel, Anonymous)]);
    var v := Vma(5 * PAGE, 8 * PAGE, Kernel, DeviceMemory);
    assert PredecessorEnds(w.areas, v.start);
    var a1 := Entered(w.areas, v, last);
    assert a1 == map[5 * PAGE := v];
    assert PredecessorEnds(a1, 0);
    var a2 := Entered(a1, AreaOf(w.pending[0]), last);
    assert 0 in a2 && 5 * PAGE in a2 && a2[0].end > 5 * PAGE;
    assert w.pending[..0] + w.pending[1..] == [];
  }

  predicate NoFixed(steps: seq<Step>)
  {
    forall i | 0 <= i < |steps| :: !steps[i].Fixed?
  }

  /** However searches and entries go on from `w`, areas stay disjoint. */
  ghost predicate SafeFrom(w: World, last: nat)
  {
    forall ws: seq<World>, steps: seq<Step> | Run(ws, steps, last) && ws[0] == w && NoFixed(steps) ::
      Apart(ws[|steps|].areas)
  }

  /** Every accepted area that starts strictly inside room a search can still take overlaps the area of
      that search, as soon as it is entered. */
  lemma InconsiderateOverlaps(w: World, v: Vma, i: nat, last: nat)
    requires Inv(w, last) && i < |w.pending| && AllocatedAt(w.areas, v, last).Some?
    requires w.pending[i].start < v.start < AreaOf(w.pending[i]).end && !Covered(w.areas, w.pending[i].start)
    ensures !Apart(Entered(Entered(w.areas, v, last), AreaOf(w.pending[i]), last))
  {
    hide Inv, Fits, Covered;
    EnterOutcome(w, i, last);
    var r := AreaOf(w.pending[i]);
    var areas1 := Entered(w.areas, v, last);
    assert areas1 == w.areas[v.start := v];
    LaterKeyIgnored(w.areas, v, r.start);
    var areas2 := Entered(areas1, r, last);
    assert r.start in areas2 && v.start in areas2 && areas2[r.start].end > v.start;
  }

  /** So is one of no pages, which the system call admits: the search's area then lies over the address
      at which the empty area is filed. */
  lemma EmptyFixedBetween(last: nat)
    requires FIRST_USER + 10 * PAGE <= last
    ensures var w := World(map[], [Request(FIRST_USER, 10, User, Heap)]);
            var step := Fixed((FIRST_USER + 5 * PAGE) / PAGE, 0, User, Heap);
            var w1 := World(Entered(w.areas, FixedArea(step), last), w.pending);
            var w2 := World(Entered(w1.areas, AreaOf(w.pending[0]), last), []);
            && Inv(w, last) && Next(w, step, w1, last) && Accepted(w, step, last) && Next(w1, Enter(0), w2, last)
            && Apart(w1.areas) && !Apart(w2.areas)
  {
    var w := World(map[], [Request(FIRST_USER, 10, User, Heap)]);
    InconsiderateOverlaps(w, FixedArea(Fixed((FIRST_USER + 5 * PAGE) / PAGE, 0, User, Heap)), 0, last);
    assert w.pending[..0] + w.pending[1..] == [];
  }

  lemma LaterKeyIgnored(areas: Areas, v: Vma, a: nat)
    requires a < v.start
    ensures PredecessorEnds(areas[v.start := v], a) <==> PredecessorEnds(areas, a)
  {
    var areas' := areas[v.start := v];
    assert UpTo(areas', a) == UpTo(areas, a);
    forall k: nat ensures IsPredecessor(areas', a, k) <==> IsPredecessor(areas, a, k) {
      assert IsPredecessor(areas', a, k) <==> k in UpTo(areas', a) && forall l | l in UpTo(areas', a) :: l <= k;
      assert IsPredecessor(areas, a, k) <==> k in UpTo(areas, a) && forall l | l in UpTo(areas, a) :: l <= k;
    }
  }

  lemma EntersOverlap(w: World, i: nat, last: nat)
    requires i < |w.pending| && !Apart(Entered(w.areas, AreaOf(w.pending[i]), last))
    ensures !SafeFrom(w, last)
  {
    var w' := World(Entered(w.areas, AreaOf(w.pending[i]), last), w.pending[..i] + w.pending[i + 1..]);
    var ws, steps := [w, w'], [Enter(i)];
    assert Next(ws[0], steps[0], ws[1], last);
    assert Run(ws, steps, last) && NoFixed(steps);
  }

  lemma StayApart(w: World, last: nat)
    requires SafeFrom(w, last)
    ensures Apart(w.areas)
  {
    var ws, steps: seq<Step> := [w], [];
    assert Run(ws, steps, last) && NoFixed(steps);
  }

  lemma InvSafe(w: World, last: nat)
    requires Inv(w, last)
    ensures SafeFrom(w, last)
  {
    hide Inv;
    forall ws: seq<World>, steps: seq<Step> | Run(ws, steps, last) && ws[0] == w && NoFixed(steps)
      ensures Apart(ws[|steps|].areas)
    {
      InterleavingsSafe(ws, steps, last);
      InvApart(ws[|steps|], last);
    }
  }

  lemma InvApart(w: World, last: nat)
    requires Inv(w, last)
    ensures Apart(w.areas)
  {
  }

  /** After an accepted fixed-address allocation, searches under way and to come keep areas disjoint in
      every interleaving if and only if the allocation was considerate. */
  lemma ConsiderateExactly(w: World, w': World, step: Step, last: nat)
    requires Inv(w, last) && step.Fixed? && Next(w, step, w', last) && Accepted(w, step, last)
    ensures SafeFrom(w', last) <==> Considerate(w, FixedArea(step))
  {
    hide Open, SafeFrom;
    var v := FixedArea(step);
    if Considerate(w, v) {
      FixedInv(w, w', step, last);
      InvSafe(w', last);
    }
    if SafeFrom(w', last) {
      StayApart(w', last);
      FixedKeepsApart(w.areas, v, last);
      forall i | 0 <= i < |w.pending|
        ensures v.start <= w.pending[i].start || AreaOf(w.pending[i]).end <= v.start
                || Covered(w.areas, w.pending[i].start)
      {
        SafeTells(w, w', step, i, last);
      }
    }
  }

  lemma SafeTells(w: World, w': World, step: Step, i: nat, last: nat)
    requires Inv(w, last) && step.Fixed? && Next(w, step, w', last) && i < |w.pending|
    requires Accepted(w, step, last) && SafeFrom(w', last)
    ensures var v := FixedArea(step);
            v.start <= w.pending[i].start || AreaOf(w.pending[i]).end <= v.start
            || Covered(w.areas, w.pending[i].start)
  {
    hide Inv, SafeFrom, Covered, AllocatedAt, Apart;
    var v := FixedArea(step);
    if w.pending[i].start < v.start < AreaOf(w.pending[i]).end && !Covered(w.areas, w.pending[i].start) {
      InconsiderateOverlaps(w, v, i, last);
      EntersOverlap(w', i, last);
    }
  }
}
