/** When unmapping a range unmaps exactly that range. */
module UnmapRanges {
  import opened Sequences
  import opened PageIndex
  import opened PageTables
  import opened Unmapping
  import opened UnmapWalks

  // -------------------------------------------------------------- in general

  /** Below `t` exactly the pages of the range have stopped translating. */
  ghost predicate RangeUnmapped(m: Machine, mem': Memory, t: nat, pages: Extent)
    requires t in m.pos
  {
    forall p: nat | Owns(m.pos[t], p) ::
      Translate(mem', t, m.pos[t].level, p)
      == if pages.start <= p < pages.end then None else Translate(m.mem, t, m.pos[t].level, p)
  }

  /** For every hierarchy and range: a walk unmaps exactly the range if and only if no page that is only in
      the range, or only in the plan, was mapped. */
  lemma UnmapExactly(m: Machine, t: nat, level: nat, pages: Extent, freePhysical: bool)
    requires Walkable(m, t, level, pages, freePhysical)
    ensures var w := WalkTable(m.mem, m.free, t, level, pages, freePhysical);
            var hits := PlanTable(m.mem, t, level, pages).hits;
            RangeUnmapped(m, w.mem, t, pages)
            <==> forall p: nat | Owns(m.pos[t], p) && (p in hits) != (pages.start <= p < pages.end) ::
                   Translate(m.mem, t, level, p) == None
  {
    hide WalkTable, PlanTable, View, Sound, NoNewEmpty, OwnedHits, Shrinks, FreesHits, Owns;
    WalkDoes(m, t, level, pages, freePhysical);
  }

  // ------------------------------------------------------- never before the range

  /** The plan stays within region `num`, and before `start` it takes out pages of lower regions only. */
  ghost predicate Ahead(plan: Plan, level: nat, num: nat, start: nat)
  {
    && start + plan.n <= First(level, num + 1)
    && forall p: nat | p in plan.hits && num <= Num(p, level) :: start <= p
  }

  /** For every memory and range: whatever tables are missing, a walk takes out no page of the region that
      lies before the range. */
  lemma PlanAhead(mem: Memory, t: nat, level: nat, pages: Extent)
    requires level >= 1 && pages.start <= pages.end
    ensures Ahead(PlanTable(mem, t, level, pages), level, Num(pages.start, level), pages.start)
    decreases level, 1
  {
    hide PlanTable, PlanFrom, Num, First, Index;
    var num := Num(pages.start, level);
    NumRange(pages.start, level, num);
    if t !in mem || |mem[t]| != ENTRIES {
      PlanNowhere(mem, t, level, pages);
    } else if level == 1 {
      LeafAhead(mem, t, pages);
    } else {
      PlanAbove(mem, t, level, pages);
      NumDown(pages.start, level);
      AheadFrom(mem, t, level, num, Index(pages.start, level), pages);
    }
  }

  lemma PlanNowhere(mem: Memory, t: nat, level: nat, pages: Extent)
    requires pages.start <= pages.end && (t !in mem || |mem[t]| != ENTRIES)
    ensures PlanTable(mem, t, level, pages) == Plan(0, iset{})
    ensures level > 1 ==> forall i | 0 <= i <= ENTRIES :: PlanFrom(mem, t, level, i, pages) == Plan(0, iset{})
  {
  }

  lemma LeafAhead(mem: Memory, t: nat, pages: Extent)
    requires pages.start <= pages.end && t in mem && |mem[t]| == ENTRIES
    ensures Ahead(PlanTable(mem, t, 1, pages), 1, Num(pages.start, 1), pages.start)
  {
    var plan, num := PlanTable(mem, t, 1, pages), Num(pages.start, 1);
    LevelOne(pages.start);
    assert First(1, num + 1) == ENTRIES * num + ENTRIES;
    forall p: nat | p in plan.hits && num <= Num(p, 1) ensures pages.start <= p {
      LevelOne(p);
    }
  }

  lemma AheadFrom(mem: Memory, t: nat, level: nat, num: nat, i: nat, pages: Extent)
    requires level > 1 && i <= ENTRIES && pages.start <= pages.end
    requires Num(pages.start, level - 1) <= ENTRIES * num + i && pages.start <= First(level, num + 1)
    ensures Ahead(PlanFrom(mem, t, level, i, pages), level, num, pages.start)
    decreases level, 0, ENTRIES - i
  {
    hide PlanTable, PlanFrom, Num, First, Index, UpHits;
    if t !in mem || |mem[t]| != ENTRIES {
      PlanNowhere(mem, t, level, pages);
    } else if i == ENTRIES {
      PlanEnds(mem, t, level, pages);
    } else if mem[t][i] == UNUSED {
      PlanSkips(mem, t, level, i, pages);
      AheadFrom(mem, t, level, num, i + 1, pages);
    } else {
      PlanEnters(mem, t, level, i, pages);
      PlanAhead(mem, mem[t][i].frame, level - 1, pages);
      var child := PlanTable(mem, mem[t][i].frame, level - 1, pages);
      AheadUp(child, level, num, i, pages.start);
      if pages.start + child.n < pages.end {
        AheadFrom(mem, t, level, num, i + 1, Extent(pages.start + child.n, pages.end));
      }
    }
  }

  /** What is ahead below entry `i` is ahead below its table, and the walk then stands at most at the next
      entry. */
  lemma AheadUp(child: Plan, level: nat, num: nat, i: nat, start: nat)
    requires level > 1 && i < ENTRIES && Num(start, level - 1) <= ENTRIES * num + i
    requires Ahead(child, level - 1, Num(start, level - 1), start)
    ensures Num(start + child.n, level - 1) <= ENTRIES * num + i + 1
    ensures Ahead(Plan(child.n, UpHits(level, i, child.hits)), level, num, start)
  {
    hide Num, First, Index;
    EntryEnd(level, num, i);
    FirstGrows(level - 1, Num(start, level - 1) + 1, ENTRIES * num + i + 1);
    NumUpTo(start + child.n, level - 1, ENTRIES * num + i + 1);
    forall p: nat | p in UpHits(level, i, child.hits) && num <= Num(p, level) ensures start <= p {
      NumDown(p, level);
    }
  }

  lemma NumUpTo(p: nat, l: nat, num: nat)
    requires p <= First(l, num)
    ensures Num(p, l) <= num
  {
    NumRange(p, l, Num(p, l));
    if Num(p, l) > num {
      FirstGrows(l, num + 1, Num(p, l));
      FirstGrows(l, num, num + 1);
      NumRange(First(l, num), l, num);
    }
  }

  // ------------------------------------------- ranges with all their tables

  /** Every page of the range in region `num` has its level-1 table. */
  ghost predicate Backed(mem: Memory, t: nat, level: nat, num: nat, pages: Extent)
  {
    forall p: nat | pages.start <= p < pages.end && Num(p, level) == num :: LeafOf(mem, t, level, p).Some?
  }

  /** The pages from the start of the range to its end or the end of the region. */
  function Reach(level: nat, num: nat, pages: Extent): int
  {
    if pages.end - pages.start <= Room(level, num, pages.start) then pages.end - pages.start
    else Room(level, num, pages.start)
  }

  /** The plan is to take out just the range, as far as it reaches. */
  ghost predicate InPlace(plan: Plan, level: nat, num: nat, pages: Extent)
  {
    && plan.n == Reach(level, num, pages)
    && forall p: nat | Num(p, level) == num :: p in plan.hits <==> pages.start <= p < pages.start + plan.n
  }

  lemma BackedLeaf(mem: Memory, t: nat, num: nat, pages: Extent)
    requires pages.start < pages.end && Num(pages.start, 1) == num && t in mem && |mem[t]| == ENTRIES
    ensures InPlace(PlanTable(mem, t, 1, pages), 1, num, pages)
  {
    var plan := PlanTable(mem, t, 1, pages);
    LevelOne(pages.start);
    NumDown(pages.start, 1);
    assert Size(1) == ENTRIES;
    assert First(1, num + 1) == ENTRIES * num + ENTRIES;
    forall p: nat | Num(p, 1) == num ensures p in plan.hits <==> pages.start <= p < pages.start + plan.n {
      LevelOne(p);
      NumDown(p, 1);
    }
  }

  /** With all tables there, the walk takes out just the range. */
  lemma BackedPlan(mem: Memory, t: nat, level: nat, num: nat, pages: Extent)
    requires pages.start < pages.end && Num(pages.start, level) == num && Backed(mem, t, level, num, pages)
    ensures InPlace(PlanTable(mem, t, level, pages), level, num, pages)
    decreases level, 1
  {
    hide InPlace, PlanFrom, Num;
    assert LeafOf(mem, t, level, pages.start).Some?;
    if level == 1 {
      BackedLeaf(mem, t, num, pages);
    } else {
      hide PlanTable;
      PlanAbove(mem, t, level, pages);
      BackedFrom(mem, t, level, num, Index(pages.start, level), pages);
    }
  }

  lemma BackedBelow(mem: Memory, t: nat, level: nat, num: nat, i: nat, pages: Extent)
    requires level > 1 && i < ENTRIES && Backed(mem, t, level, num, pages) && t in mem && |mem[t]| == ENTRIES
             && mem[t][i] != UNUSED
    ensures Backed(mem, mem[t][i].frame, level - 1, ENTRIES * num + i, pages)
  {
    hide LeafOf;
    var c, below := mem[t][i].frame, level - 1;
    forall p: nat | pages.start <= p < pages.end && Num(p, below) == ENTRIES * num + i
      ensures LeafOf(mem, c, below, p).Some?
    {
      NumUp(p, level);
      NumDown(p, level);
      assert LeafOf(mem, t, level, p).Some?;
      LeafDown(mem, t, level, p);
    }
  }

  lemma BackedFrom(mem: Memory, t: nat, level: nat, num: nat, i: nat, pages: Extent)
    requires level > 1 && pages.start < pages.end && Num(pages.start, level) == num && i == Index(pages.start, level)
    requires Backed(mem, t, level, num, pages)
    ensures InPlace(PlanFrom(mem, t, level, i, pages), level, num, pages)
    decreases level, 0, ENTRIES - i
  {
    hide InPlace, PlanTable, PlanFrom, Num, Index, UpHits;
    assert LeafOf(mem, t, level, pages.start).Some?;
    var c := mem[t][i].frame;
    BackedBelow(mem, t, level, num, i, pages);
    hide LeafOf;
    NumDown(pages.start, level);
    BackedPlan(mem, c, level - 1, ENTRIES * num + i, pages);
    PlanEnters(mem, t, level, i, pages);
    var child := PlanTable(mem, c, level - 1, pages);
    InPlaceChild(child, level, num, i, pages);
    if pages.start + child.n < pages.end {
      var rest := Extent(pages.start + child.n, pages.end);
      if i + 1 == ENTRIES {
        PlanEnds(mem, t, level, rest);
        InPlaceLast(child, level, num, i, pages);
      } else {
        NextEntry(level, num, i, rest.start);
        BackedFrom(mem, t, level, num, i + 1, rest);
        InPlaceJoin(child, PlanFrom(mem, t, level, i + 1, rest), level, num, i, pages);
      }
    }
  }

  lemma NextEntry(level: nat, num: nat, i: nat, start: nat)
    requires level > 1 && i + 1 < ENTRIES && start == First(level - 1, ENTRIES * num + i + 1)
    ensures Num(start, level) == num && Index(start, level) == i + 1
  {
    FirstNum(level - 1, ENTRIES * num + i + 1);
    NumUp(start, level);
    NumDown(start, level);
  }

  /** Where the region of an entry ends, within the region of its table. */
  lemma EntryEnd(level: nat, num: nat, i: nat)
    requires level > 1 && i < ENTRIES
    ensures First(level - 1, ENTRIES * num + i + 1) <= First(level, num + 1)
    ensures i + 1 == ENTRIES ==> First(level - 1, ENTRIES * num + i + 1) == First(level, num + 1)
  {
    FirstDown(level, num + 1);
    FirstGrows(level - 1, ENTRIES * num + i + 1, ENTRIES * num + ENTRIES);
    assert ENTRIES * (num + 1) == ENTRIES * num + ENTRIES;
  }

  /** What the child's plan says about the pages of its table. */
  lemma InPlaceChild(child: Plan, level: nat, num: nat, i: nat, pages: Extent)
    requires level > 1 && i < ENTRIES && pages.start < pages.end && Num(pages.start, level - 1) == ENTRIES * num + i
    requires InPlace(child, level - 1, ENTRIES * num + i, pages) && child.n <= pages.end - pages.start
    ensures child.n < pages.end - pages.start ==> pages.start + child.n == First(level - 1, ENTRIES * num + i + 1)
    ensures pages.start + child.n <= First(level - 1, ENTRIES * num + i + 1)
    ensures forall p: nat | Num(p, level) == num ::
              p in UpHits(level, i, child.hits) <==> pages.start <= p < pages.start + child.n
    ensures child.n == pages.end - pages.start ==>
            InPlace(Plan(child.n, UpHits(level, i, child.hits)), level, num, pages)
  {
    EntryEnd(level, num, i);
    NumRange(pages.start, level - 1, ENTRIES * num + i);
    forall p: nat | Num(p, level) == num
      ensures p in UpHits(level, i, child.hits) <==> pages.start <= p < pages.start + child.n
    {
      NumDown(p, level);
      NumRange(p, level - 1, ENTRIES * num + i);
    }
  }

  lemma InPlaceLast(child: Plan, level: nat, num: nat, i: nat, pages: Extent)
    requires level > 1 && i + 1 == ENTRIES && pages.start + child.n == First(level - 1, ENTRIES * num + i + 1)
    requires child.n < pages.end - pages.start
    requires forall p: nat | Num(p, level) == num ::
               p in UpHits(level, i, child.hits) <==> pages.start <= p < pages.start + child.n
    ensures InPlace(Plan(child.n + 0, UpHits(level, i, child.hits) + iset{}), level, num, pages)
  {
    EntryEnd(level, num, i);
  }

  lemma InPlaceJoin(child: Plan, rest: Plan, level: nat, num: nat, i: nat, pages: Extent)
    requires level > 1 && pages.start + child.n < pages.end
    requires forall p: nat | Num(p, level) == num ::
               p in UpHits(level, i, child.hits) <==> pages.start <= p < pages.start + child.n
    requires InPlace(rest, level, num, Extent(pages.start + child.n, pages.end))
    ensures InPlace(Plan(child.n + rest.n, UpHits(level, i, child.hits) + rest.hits), level, num, pages)
  {
    hide UpHits;
  }

  // ------------------------------------------------------- the range is unmapped

  /** `n` pages from `start` on. */
  ghost function Span(start: nat, n: int): iset<nat>
  {
    iset p: nat | Between(start, n, p)
  }

  predicate Between(start: nat, n: int, p: nat)
  {
    start <= p < start + n
  }

  /** A range whose tables are all there, and whose frames are the space's own if they are to be freed. */
  ghost predicate Ready(m: Machine, t: nat, level: nat, pages: Extent, freePhysical: bool)
  {
    && Sound(m) && t in m.pos && m.pos[t].level == level && Owns(m.pos[t], pages.start)
    && pages.start < pages.end && Backed(m.mem, t, level, m.pos[t].num, pages)
    && (freePhysical ==> OwnedHits(m, t, Span(pages.start, pages.end - pages.start)))
  }

  /** The pages of the range that lie in the region of `t` have been taken out, and nothing else. */
  ghost predicate UnmapDone(m: Machine, m': Machine, t: nat, pages: Extent, n: nat, freePhysical: bool)
  {
    && t in m.pos && n == Reach(m.pos[t].level, m.pos[t].num, pages)
    && TakenOut(m, m', t, Span(pages.start, n), freePhysical)
  }

  /** Only the pages of the table's own region matter. */
  lemma SameHits(m: Machine, m': Machine, t: nat, hits: iset<nat>, hits': iset<nat>, freePhysical: bool)
    requires TakenOut(m, m', t, hits, freePhysical) && forall p: nat | Owns(m.pos[t], p) :: p in hits <==> p in hits'
    ensures TakenOut(m, m', t, hits', freePhysical)
  {
    hide Shrinks, NoNewEmpty, View, FrameAt, Gone;
    forall x: nat ensures Behind(m, t, hits, x) <==> Behind(m, t, hits', x) {
    }
  }

  lemma OwnedLess(m: Machine, t: nat, hits: iset<nat>, hits': iset<nat>)
    requires t in m.pos && OwnedHits(m, t, hits') && forall p: nat | Owns(m.pos[t], p) && p in hits :: p in hits'
    ensures OwnedHits(m, t, hits)
  {
    hide FrameAt, Owns;
  }

  /** Unmapping a range whose level-1 tables are there: the walk goes well, unmaps exactly the pages of the
      range that lie in the table's region, and frees exactly the tables that became empty and, if asked,
      the frames. */
  lemma WalkUnmaps(m: Machine, t: nat, level: nat, pages: Extent, freePhysical: bool)
    requires Ready(m, t, level, pages, freePhysical)
    ensures Walkable(m, t, level, pages, freePhysical)
    ensures var w := WalkTable(m.mem, m.free, t, level, pages, freePhysical);
            w.ok && UnmapDone(m, After(m, w), t, pages, w.n, freePhysical)
  {
    hide Sound, NoNewEmpty, OwnedHits, WalkTable, PlanTable, TakenOut, Num;
    BackedPlan(m.mem, t, level, m.pos[t].num, pages);
    var plan := PlanTable(m.mem, t, level, pages);
    if freePhysical {
      OwnedLess(m, t, plan.hits, Span(pages.start, pages.end - pages.start));
    }
    WalkDoes(m, t, level, pages, freePhysical);
    var m' := After(m, WalkTable(m.mem, m.free, t, level, pages, freePhysical));
    SameHits(m, m', t, plan.hits, Span(pages.start, plan.n), freePhysical);
  }

  // --------------------------------------------------------- a failing example

  /** A table with one entry in use. */
  function OneEntry(i: nat, e: Entry): (t: seq<Entry>)
    ensures |t| == ENTRIES && forall k | 0 <= k < ENTRIES :: t[k] == if k == i then e else UNUSED
  {
    seq(ENTRIES, k => if k == i then e else UNUSED)
  }

  const FRAMES: set<nat> := {1, 2, 3, 4}

  function ExampleTable(f: nat): seq<Entry>
  {
    OneEntry(if f == 3 then 1 else 0, Entry(if f == 4 then 9 else f + 1, 3))
  }

  function ExamplePos(f: nat): Pos
    requires f in FRAMES
  {
    Pos(1, 5 - f, if f == 4 then 1 else 0)
  }

  /** Four levels, in which only page 512 is mapped, to frame 9; page 0 has no level-1 table. */
  function Example(): Machine
  {
    Machine(map f | f in FRAMES :: ExampleTable(f), map f | f in FRAMES :: ExamplePos(f), {})
  }

  lemma ExampleTables(f: nat)
    requires f in Example().pos
    ensures TableOk(Example().mem, Example().pos, f) && NonEmpty(Example().mem, f)
  {
    var m := Example();
    var i, c := if f == 3 then 1 else 0, f + 1;
    assert m.mem[f][i] != UNUSED;
    assert f < 4 ==> IsChild(m.pos, f, i, c);
  }

  lemma ExampleParents(c: nat)
    requires c in Example().pos && c != 1
    ensures HasParent(Example().mem, Example().pos, c)
  {
    assert ParentOf(Example().mem, Example().pos, c - 1, c);
  }

  lemma ExamplePlaces()
    ensures var pos := Example().pos;
            && RootsThere(pos) && 0 !in pos && 1 in pos
            && forall f, g | f in pos && g in pos && pos[f] == pos[g] :: f == g
    ensures forall f | f in Example().pos && Example().pos[f].root != f :: f != 1
  {
    hide ExampleTable;
    var pos := Example().pos;
    assert 1 in FRAMES && 1 in pos && pos[1] == Pos(1, 4, 0);
    forall f | f in pos ensures pos[f].root == 1 && pos[f].level == 5 - f && 1 <= f <= 4 {
      assert f in FRAMES && pos[f] == ExamplePos(f);
    }
    hide Example, ExamplePos;
  }

  lemma ExampleSound()
    ensures Sound(Example()) && NoneEmpty(Example(), 1)
  {
    hide TableOk, NonEmpty, HasParent, OneEntry, ExampleTable, ExamplePos;
    var m := Example();
    ExamplePlaces();
    forall f | f in m.pos ensures TableOk(m.mem, m.pos, f) && NonEmpty(m.mem, f) {
      ExampleTables(f);
    }
    forall c | c in m.pos && m.pos[c].root != c ensures HasParent(m.mem, m.pos, c) {
      ExampleParents(c);
    }
  }

  lemma ExamplePage()
    ensures forall l | 1 <= l <= 4 :: Index(0, l) == 0
    ensures Index(512, 1) == 0 && Index(512, 2) == 1 && Index(512, 3) == 0 && Index(512, 4) == 0
    ensures Num(512, 4) == 0
  {
    assert Size(0) == 1 && Size(1) == 512 && Size(2) == 512 * 512 && Size(3) == 512 * 512 * 512;
    assert Size(4) == 512 * Size(3);
  }

  lemma ExamplePlan()
    ensures 512 in PlanTable(Example().mem, 1, 4, Extent(0, 1)).hits
    ensures Translate(Example().mem, 1, 4, 512) == Some(9)
  {
    ExamplePage();
    hide Index, Num;
    var mem, pages := Example().mem, Extent(0, 1);
    var leaf := PlanTable(mem, 4, 1, pages);
    assert leaf.n == 1 && 512 in leaf.hits;
    hide PlanTable, PlanFrom;
    PlanAbove(mem, 3, 2, pages);
    PlanSkips(mem, 3, 2, 0, pages);
    PlanEnters(mem, 3, 2, 1, pages);
    PlanAbove(mem, 2, 3, pages);
    PlanEnters(mem, 2, 3, 0, pages);
    PlanAbove(mem, 1, 4, pages);
    PlanEnters(mem, 1, 4, 0, pages);
    assert Translate(mem, 4, 1, 512) == Some(9);
    assert Translate(mem, 3, 2, 512) == Some(9);
    assert Translate(mem, 2, 3, 512) == Some(9);
  }

  lemma ExampleOnly(p: nat)
    requires Num(p, 4) == 0 && Translate(Example().mem, 1, 4, p).Some?
    ensures p == 512 && Translate(Example().mem, 1, 4, p) == Some(9)
  {
    hide Index, Num;
    var mem := Example().mem;
    assert Index(p, 4) == 0 && Translate(mem, 2, 3, p).Some?;
    assert Index(p, 3) == 0 && Translate(mem, 3, 2, p).Some?;
    assert Index(p, 2) == 1 && Translate(mem, 4, 1, p).Some?;
    assert Index(p, 1) == 0;
    NumDown(p, 4);
    NumDown(p, 3);
    NumDown(p, 2);
    NumDown(p, 1);
    LevelOne(p);
  }

  lemma ExampleWalkable()
    ensures Walkable(Example(), 1, 4, Extent(0, 1), true)
  {
    ExampleSound();
    hide Sound, PlanTable, View;
    var m := Example();
    forall p: nat | Owns(m.pos[1], p) && FrameAt(m, 1, p).Some? ensures p == 512 && FrameAt(m, 1, p) == Some(9) {
      ExampleOnly(p);
    }
  }

  /** Unmapping page 0, which has no table, unmaps page 512 instead and frees its frame. */
  lemma OtherPageUnmapped()
    ensures var m, pages := Example(), Extent(0, 1);
            var w := WalkTable(m.mem, m.free, 1, 4, pages, true);
            && Walkable(m, 1, 4, pages, true) && w.ok && 9 in w.free
            && Translate(m.mem, 1, 4, 512) == Some(9) && Translate(w.mem, 1, 4, 512) == None
            && !RangeUnmapped(m, w.mem, 1, pages)
  {
    hide Walkable, PlanTable, WalkTable, View, Shrinks, NoNewEmpty;
    var m, pages := Example(), Extent(0, 1);
    ExampleWalkable();
    ExamplePlan();
    WalkDoes(m, 1, 4, pages, true);
    ExamplePage();
    hide Num, Index;
    assert Owns(m.pos[1], 512);
    assert Behind(m, 1, PlanTable(m.mem, 1, 4, pages).hits, 9);
  }
}
