/** The walk that unmaps a range, for every hierarchy and range, and the pages it takes out.

    At an entry without a table the walk goes on to the next entry with the range as it is.  So the pages
    it takes out are not always those of the range; `Plan` says which ones they are from the tables there
    are before the walk. */
module UnmapWalks {
  import opened Arithmetic
  import opened PageIndex
  import opened PageTables
  import opened Unmapping

  /** Memory, free frames, the tables freed, the number of pages counted, and whether all went well. */
  datatype Walk = Walk(mem: Memory, free: set<nat>, gone: set<nat>, n: nat, ok: bool)

  datatype Clearing = Clearing(table: seq<Entry>, free: set<nat>, ok: bool)

  /** Clears `n` entries of a level-1 table from `si` on, freeing what they point to if asked. */
  function Clear(table: seq<Entry>, free: set<nat>, si: nat, n: nat, freePhysical: bool): (c: Clearing)
    requires si + n <= |table|
    ensures |c.table| == |table|
  {
    if n == 0 then Clearing(table, free, true)
    else
      var c := Clear(table, free, si, n - 1, freePhysical);
      var e := c.table[si + n - 1];
      if !c.ok || e == UNUSED then c
      else if freePhysical && e.frame in c.free then c.(ok := false)
      else Clearing(c.table[si + n - 1 := UNUSED], if freePhysical then c.free + {e.frame} else c.free, true)
  }

  function LeafCount(pages: Extent): (n: nat)
    requires pages.start <= pages.end
    ensures n <= pages.end - pages.start && Index(pages.start, 1) + n <= ENTRIES
  {
    Min(pages.end - pages.start, ENTRIES - Index(pages.start, 1))
  }

  function WalkTable(mem: Memory, free: set<nat>, t: nat, level: nat, pages: Extent, freePhysical: bool): (w: Walk)
    requires pages.start <= pages.end
    ensures w.n <= pages.end - pages.start
    decreases level, 1
  {
    if level == 0 || t !in mem || |mem[t]| != ENTRIES then Walk(mem, free, {}, 0, false)
    else if level == 1 then
      var n := LeafCount(pages);
      var c := Clear(mem[t], free, Index(pages.start, 1), n, freePhysical);
      Walk(mem[t := c.table], c.free, {}, n, c.ok)
    else WalkEntries(Walk(mem, free, {}, 0, true), t, level, Index(pages.start, level), pages, freePhysical)
  }

  /** The loop over the entries of a table above level 1, from entry `i` on, with `w` done so far.  An
      unused entry is skipped, and `pages` stays what it is. */
  function WalkEntries(w: Walk, t: nat, level: nat, i: nat, pages: Extent, freePhysical: bool): (w': Walk)
    requires level > 1 && i <= ENTRIES && pages.start <= pages.end
    ensures w'.n <= w.n + (pages.end - pages.start)
    decreases level, 0, ENTRIES - i
  {
    if i == ENTRIES then w
    else if t !in w.mem || |w.mem[t]| != ENTRIES then w.(ok := false)
    else if w.mem[t][i] == UNUSED then WalkEntries(w, t, level, i + 1, pages, freePhysical)
    else
      var c := w.mem[t][i].frame;
      var b := Swept(WalkTable(w.mem, w.free, c, level - 1, pages, freePhysical), t, i, c);
      if !b.ok || pages.start + b.n >= pages.end then Then(w, b)
      else WalkEntries(Then(w, b), t, level, i + 1, Extent(pages.start + b.n, pages.end), freePhysical)
  }

  function Then(w: Walk, b: Walk): Walk
  {
    Walk(b.mem, b.free, w.gone + b.gone, w.n + b.n, b.ok)
  }

  predicate Empty(table: seq<Entry>)
  {
    forall i | 0 <= i < |table| :: table[i] == UNUSED
  }

  /** After the walk below entry `i`: an empty table goes. */
  function Swept(w: Walk, t: nat, i: nat, c: nat): (w': Walk)
    ensures w'.n == w.n
  {
    if !w.ok || c !in w.mem || t !in w.mem || |w.mem[t]| != ENTRIES || i >= ENTRIES then w.(ok := false)
    else if Empty(w.mem[c]) then
      Walk(w.mem[t := w.mem[t][i := UNUSED]], w.free + {c}, w.gone + {c}, w.n, c !in w.free)
    else w
  }

  lemma WalkSkips(w: Walk, t: nat, level: nat, i: nat, pages: Extent, freePhysical: bool)
    requires level > 1 && i < ENTRIES && pages.start <= pages.end && t in w.mem && |w.mem[t]| == ENTRIES
             && w.mem[t][i] == UNUSED
    ensures WalkEntries(w, t, level, i, pages, freePhysical) == WalkEntries(w, t, level, i + 1, pages, freePhysical)
  {
  }

  lemma WalkEnters(w: Walk, t: nat, level: nat, i: nat, pages: Extent, freePhysical: bool)
    requires level > 1 && i < ENTRIES && pages.start <= pages.end && t in w.mem && |w.mem[t]| == ENTRIES
             && w.mem[t][i] != UNUSED
    ensures var c := w.mem[t][i].frame;
            var b := Swept(WalkTable(w.mem, w.free, c, level - 1, pages, freePhysical), t, i, c);
            WalkEntries(w, t, level, i, pages, freePhysical)
            == if !b.ok || pages.start + b.n >= pages.end then Then(w, b)
               else WalkEntries(Then(w, b), t, level, i + 1, Extent(pages.start + b.n, pages.end), freePhysical)
  {
  }

  lemma WalkEnds(w: Walk, t: nat, level: nat, i: nat, pages: Extent, freePhysical: bool)
    requires level > 1 && i <= ENTRIES && pages.start <= pages.end
             && (i == ENTRIES || t !in w.mem || |w.mem[t]| != ENTRIES)
    ensures WalkEntries(w, t, level, i, pages, freePhysical) == if i == ENTRIES then w else w.(ok := false)
  {
  }

  lemma WalkAbove(mem: Memory, free: set<nat>, t: nat, level: nat, pages: Extent, freePhysical: bool)
    requires pages.start <= pages.end && level > 1 && t in mem && |mem[t]| == ENTRIES
    ensures WalkTable(mem, free, t, level, pages, freePhysical)
         == WalkEntries(Walk(mem, free, {}, 0, true), t, level, Index(pages.start, level), pages, freePhysical)
  {
  }

  lemma {:induction false} ClearStops(table: seq<Entry>, free: set<nat>, si: nat, k: nat, n: nat, freePhysical: bool)
    requires k <= n && si + n <= |table| && !Clear(table, free, si, k, freePhysical).ok
    ensures Clear(table, free, si, n, freePhysical) == Clear(table, free, si, k, freePhysical)
    decreases n
  {
    if k < n {
      ClearStops(table, free, si, k, n - 1, freePhysical);
    }
  }

  lemma {:induction false} ClearSafe(
    table: seq<Entry>, free: set<nat>, si: nat, n: nat, freePhysical: bool, pos: Layout)
    requires |table| == ENTRIES && si + n <= ENTRIES && (freePhysical ==> SafeEntries(table, si, n, free, pos))
    ensures var c := Clear(table, free, si, n, freePhysical);
            && c.ok && EntriesCleared(table, c.table, si, n)
            && c.free == free + if freePhysical then EntryFrames(table, si, n) else {}
  {
    if n > 0 {
      ClearSafe(table, free, si, n - 1, freePhysical, pos);
      var e := table[si + n - 1];
      assert EntryFrames(table, si, n) == EntryFrames(table, si, n - 1) + if e != UNUSED then {e.frame} else {};
    }
  }

  // ------------------------------------------------------- what will be taken out

  /** How many pages a walk counts and which ones it takes out. */
  datatype Plan = Plan(n: nat, hits: iset<nat>)

  ghost function PlanTable(mem: Memory, t: nat, level: nat, pages: Extent): (r: Plan)
    requires pages.start <= pages.end
    ensures r.n <= pages.end - pages.start
    decreases level, 1
  {
    if level == 0 || t !in mem || |mem[t]| != ENTRIES then Plan(0, iset{})
    else if level == 1 then Plan(LeafCount(pages), LeafHits(Index(pages.start, 1), LeafCount(pages)))
    else PlanFrom(mem, t, level, Index(pages.start, level), pages)
  }

  ghost function PlanFrom(mem: Memory, t: nat, level: nat, i: nat, pages: Extent): (r: Plan)
    requires level > 1 && i <= ENTRIES && pages.start <= pages.end
    ensures r.n <= pages.end - pages.start
    decreases level, 0, ENTRIES - i
  {
    if i == ENTRIES || t !in mem || |mem[t]| != ENTRIES then Plan(0, iset{})
    else if mem[t][i] == UNUSED then PlanFrom(mem, t, level, i + 1, pages)
    else
      var child := PlanTable(mem, mem[t][i].frame, level - 1, pages);
      var up := UpHits(level, i, child.hits);
      if pages.start + child.n >= pages.end then Plan(child.n, up)
      else
        var rest := PlanFrom(mem, t, level, i + 1, Extent(pages.start + child.n, pages.end));
        Plan(child.n + rest.n, up + rest.hits)
  }

  lemma PlanSkips(mem: Memory, t: nat, level: nat, i: nat, pages: Extent)
    requires level > 1 && i < ENTRIES && pages.start <= pages.end && t in mem && |mem[t]| == ENTRIES
             && mem[t][i] == UNUSED
    ensures PlanFrom(mem, t, level, i, pages) == PlanFrom(mem, t, level, i + 1, pages)
  {
  }

  lemma PlanEnters(mem: Memory, t: nat, level: nat, i: nat, pages: Extent)
    requires level > 1 && i < ENTRIES && pages.start <= pages.end && t in mem && |mem[t]| == ENTRIES
             && mem[t][i] != UNUSED
    ensures var child := PlanTable(mem, mem[t][i].frame, level - 1, pages);
            var up := UpHits(level, i, child.hits);
            PlanFrom(mem, t, level, i, pages)
            == if pages.start + child.n >= pages.end then Plan(child.n, up)
               else
                 var rest := PlanFrom(mem, t, level, i + 1, Extent(pages.start + child.n, pages.end));
                 Plan(child.n + rest.n, up + rest.hits)
  {
  }

  lemma PlanEnds(mem: Memory, t: nat, level: nat, pages: Extent)
    requires level > 1 && pages.start <= pages.end
    ensures PlanFrom(mem, t, level, ENTRIES, pages) == Plan(0, iset{})
  {
  }

  lemma PlanAbove(mem: Memory, t: nat, level: nat, pages: Extent)
    requires pages.start <= pages.end && level > 1 && t in mem && |mem[t]| == ENTRIES
    ensures PlanTable(mem, t, level, pages) == PlanFrom(mem, t, level, Index(pages.start, level), pages)
  {
  }

  /** The plan for a table depends only on the tables in its region. */
  lemma PlanKept(mem: Memory, mem': Memory, pos: Layout, t: nat, pages: Extent)
    requires WellFormed(mem, pos) && t in pos && pages.start <= pages.end
    requires forall f | f in pos && Inside(pos[f], pos[t]) :: SameAt(mem, mem', f)
    ensures PlanTable(mem', t, pos[t].level, pages) == PlanTable(mem, t, pos[t].level, pages)
    decreases pos[t].level, 1
  {
    assert TableOk(mem, pos, t);
    InsideSelf(pos[t]);
    assert SameAt(mem, mem', t);
    if pos[t].level > 1 {
      forall f, j | f in pos && 0 <= j < ENTRIES && Inside(pos[f], ChildPos(pos[t], j)) ensures SameAt(mem, mem', f) {
        UnderChild(pos[t], j, pos[f]);
      }
      PlanFromKept(mem, mem', pos, t, Index(pages.start, pos[t].level), pages);
    }
  }

  lemma PlanFromKept(mem: Memory, mem': Memory, pos: Layout, t: nat, i: nat, pages: Extent)
    requires WellFormed(mem, pos) && t in pos && pos[t].level > 1 && i <= ENTRIES && pages.start <= pages.end
    requires LaterKept(mem, mem', pos, t, i)
    ensures PlanFrom(mem', t, pos[t].level, i, pages) == PlanFrom(mem, t, pos[t].level, i, pages)
    decreases pos[t].level, 0, ENTRIES - i
  {
    hide PlanTable, PlanFrom;
    assert TableOk(mem, pos, t);
    var level := pos[t].level;
    if i == ENTRIES {
      PlanEnds(mem, t, level, pages);
      PlanEnds(mem', t, level, pages);
    } else if mem[t][i] == UNUSED {
      PlanSkips(mem, t, level, i, pages);
      PlanSkips(mem', t, level, i, pages);
      PlanFromKept(mem, mem', pos, t, i + 1, pages);
    } else {
      var c := mem[t][i].frame;
      assert IsChild(pos, t, i, c);
      assert pos[c] == ChildPos(pos[t], i);
      PlanKept(mem, mem', pos, c, pages);
      PlanEnters(mem, t, level, i, pages);
      PlanEnters(mem', t, level, i, pages);
      var k := PlanTable(mem, c, level - 1, pages).n;
      if pages.start + k < pages.end {
        PlanFromKept(mem, mem', pos, t, i + 1, Extent(pages.start + k, pages.end));
      }
    }
  }

  /** The entries from `i` on and everything below them are as they were. */
  ghost predicate LaterKept(mem: Memory, mem': Memory, pos: Layout, t: nat, i: nat)
  {
    && t in pos && pos[t].level > 1 && t in mem && t in mem' && |mem[t]| == |mem'[t]| == ENTRIES
    && (forall j | i <= j < ENTRIES :: mem'[t][j] == mem[t][j])
    && (forall f, j | f in pos && i <= j < ENTRIES && Inside(pos[f], ChildPos(pos[t], j)) :: SameAt(mem, mem', f))
  }

  // ---------------------------------------------------------- what a walk achieves

  /** The machine a walk leaves. */
  ghost function After(m: Machine, w: Walk): Machine
  {
    Machine(w.mem, m.pos - w.gone, w.free)
  }

  /** What the walk can work with: any range, as long as frames it is to free are the space's own. */
  ghost predicate Walkable(m: Machine, t: nat, level: nat, pages: Extent, freePhysical: bool)
  {
    && Sound(m) && t in m.pos && m.pos[t].level == level && pages.start <= pages.end
    && (freePhysical ==> OwnedHits(m, t, PlanTable(m.mem, t, level, pages).hits))
  }

  lemma SoundTable(m: Machine, t: nat)
    requires Sound(m) && t in m.pos
    ensures TableOk(m.mem, m.pos, t) && t in m.mem && |m.mem[t]| == ENTRIES && m.pos[t].level >= 1
    ensures WellFormed(m.mem, m.pos)
  {
    hide Rooted, RootsThere;
    assert TableOk(m.mem, m.pos, t);
  }

  lemma LeafWalk(m: Machine, t: nat, pages: Extent, freePhysical: bool)
    requires Walkable(m, t, 1, pages, freePhysical)
    ensures var w := WalkTable(m.mem, m.free, t, 1, pages, freePhysical);
            var plan := PlanTable(m.mem, t, 1, pages);
            w.ok && w.gone == {} && w.n == plan.n && TakenOut(m, After(m, w), t, plan.hits, freePhysical)
  {
    hide Sound, NoNewEmpty, OwnedHits, TakenOut, EntriesCleared, SafeEntries, EntryFrames, Clear, LeafHits, Index,
      TableOk;
    SoundTable(m, t);
    var si, n := Index(pages.start, 1), LeafCount(pages);
    if freePhysical {
      LeafSafe(m, t, si, n);
    }
    ClearSafe(m.mem[t], m.free, si, n, freePhysical, m.pos);
    var c := Clear(m.mem[t], m.free, si, n, freePhysical);
    LeafTakenOut(m, t, c.table, c.free, si, n, freePhysical);
    var w := WalkTable(m.mem, m.free, t, 1, pages, freePhysical);
    assert m.pos - {} == m.pos;
    assert After(m, w) == Machine(m.mem[t := c.table], m.pos, c.free);
  }

  /** For every hierarchy and range: the walk goes well and takes out exactly the planned pages.  It frees
      exactly the tables that became empty and, if asked, the frames behind those pages. */
  lemma WalkDoes(m: Machine, t: nat, level: nat, pages: Extent, freePhysical: bool)
    requires Walkable(m, t, level, pages, freePhysical)
    ensures var w := WalkTable(m.mem, m.free, t, level, pages, freePhysical);
            var plan := PlanTable(m.mem, t, level, pages);
            w.ok && w.gone <= m.pos.Keys && w.n == plan.n && TakenOut(m, After(m, w), t, plan.hits, freePhysical)
    decreases level, 1
  {
    hide Sound, NoNewEmpty, OwnedHits, TakenOut, WalkTable, WalkEntries, PlanTable, PlanFrom, Index, TableOk;
    SoundTable(m, t);
    if level == 1 {
      LeafWalk(m, t, pages, freePhysical);
    } else {
      var i := Index(pages.start, level);
      WalkAbove(m.mem, m.free, t, level, pages, freePhysical);
      PlanAbove(m.mem, t, level, pages);
      EntriesDo(m, Walk(m.mem, m.free, {}, 0, true), t, level, i, pages, freePhysical);
    }
  }

  lemma EntriesDo(m: Machine, w: Walk, t: nat, level: nat, i: nat, pages: Extent, freePhysical: bool)
    requires Sound(m) && t in m.pos && m.pos[t].level == level > 1 && i <= ENTRIES && pages.start <= pages.end
    requires w.ok && w.mem == m.mem && w.free == m.free && w.gone !! m.pos.Keys
    requires freePhysical ==> OwnedHits(m, t, PlanFrom(m.mem, t, level, i, pages).hits)
    ensures var w' := WalkEntries(w, t, level, i, pages, freePhysical);
            var plan := PlanFrom(m.mem, t, level, i, pages);
            && w'.ok && w.gone <= w'.gone <= w.gone + m.pos.Keys && w'.n == w.n + plan.n
            && TakenOut(m, After(m, w'), t, plan.hits, freePhysical)
    decreases level, 0, ENTRIES - i
  {
    hide Sound, NoNewEmpty, OwnedHits, TakenOut, WalkTable, WalkEntries, PlanTable, PlanFrom, Swept, TableOk, UpHits;
    SoundTable(m, t);
    if i == ENTRIES {
      WalkEnds(w, t, level, i, pages, freePhysical);
      PlanEnds(m.mem, t, level, pages);
      NothingTakenOut(m, t, freePhysical);
      assert After(m, w) == m;
    } else if m.mem[t][i] == UNUSED {
      WalkSkips(w, t, level, i, pages, freePhysical);
      PlanSkips(m.mem, t, level, i, pages);
      EntriesDo(m, w, t, level, i + 1, pages, freePhysical);
    } else {
      WalkEnters(w, t, level, i, pages, freePhysical);
      PlanEnters(m.mem, t, level, i, pages);
      var c := m.mem[t][i].frame;
      var child := PlanTable(m.mem, c, level - 1, pages);
      var up := UpHits(level, i, child.hits);
      EntryDoes(m, t, i, pages, level, freePhysical, PlanFrom(m.mem, t, level, i, pages).hits);
      var b := Swept(WalkTable(m.mem, m.free, c, level - 1, pages, freePhysical), t, i, c);
      var m1 := After(m, b);
      assert After(m, Then(w, b)) == m1;
      if pages.start + child.n < pages.end {
        var rest := Extent(pages.start + child.n, pages.end);
        RestWalkable(m, m1, t, level, i, up, rest, freePhysical);
        EntriesDo(m1, Then(w, b), t, level, i + 1, rest, freePhysical);
        var w' := WalkEntries(Then(w, b), t, level, i + 1, rest, freePhysical);
        assert After(m1, w') == After(m, w') by { GoneMore(m.pos, b.gone, w'.gone); }
        TakenOutJoin(m, m1, After(m, w'), t, up, PlanFrom(m1.mem, t, level, i + 1, rest).hits, freePhysical);
      }
    }
  }

  lemma GoneMore(pos: Layout, gone: set<nat>, gone': set<nat>)
    requires gone <= gone'
    ensures (pos - gone) - gone' == pos - gone'
  {
  }

  /** After one entry's share the rest of the walk has what it needs, and its plan stands. */
  lemma RestWalkable(
    m: Machine, m1: Machine, t: nat, level: nat, i: nat, up: iset<nat>, rest: Extent, freePhysical: bool)
    requires Sound(m) && t in m.pos && m.pos[t].level == level > 1 && i < ENTRIES && rest.start <= rest.end
    requires TakenOut(m, m1, t, up, freePhysical) && LaterKept(m.mem, m1.mem, m.pos, t, i + 1)
    requires freePhysical ==> OwnedHits(m, t, up + PlanFrom(m.mem, t, level, i + 1, rest).hits)
    ensures Sound(m1) && t in m1.pos && m1.pos[t].level == level
    ensures PlanFrom(m1.mem, t, level, i + 1, rest) == PlanFrom(m.mem, t, level, i + 1, rest)
    ensures freePhysical ==> OwnedHits(m1, t, PlanFrom(m1.mem, t, level, i + 1, rest).hits)
  {
    hide Sound, NoNewEmpty, OwnedHits, Shrinks, Cleared, FreesHits, PlanFrom, LaterKept, TableOk;
    SoundTable(m, t);
    ShrinksFacts(m, m1, t);
    PlanFromKept(m.mem, m1.mem, m.pos, t, i + 1, rest);
    if freePhysical {
      OwnedLater(m, m1, t, up, PlanFrom(m.mem, t, level, i + 1, rest).hits);
    }
  }

  lemma ChildWalkable(m: Machine, t: nat, i: nat, pages: Extent, level: nat, freePhysical: bool, all: iset<nat>)
    requires Sound(m) && t in m.pos && m.pos[t].level == level > 1 && i < ENTRIES && pages.start <= pages.end
    requires TableOk(m.mem, m.pos, t) && m.mem[t][i] != UNUSED
    requires freePhysical ==>
               && OwnedHits(m, t, all)
               && UpHits(level, i, PlanTable(m.mem, m.mem[t][i].frame, level - 1, pages).hits) <= all
    ensures IsChild(m.pos, t, i, m.mem[t][i].frame) && Walkable(m, m.mem[t][i].frame, level - 1, pages, freePhysical)
  {
    hide Sound, OwnedHits, PlanTable;
    var c := m.mem[t][i].frame;
    assert IsChild(m.pos, t, i, c);
    if freePhysical {
      OwnedDown(m, t, i, c, PlanTable(m.mem, c, level - 1, pages).hits, all);
    }
  }

  /** One entry's share: the walk below it, and the table freed if nothing is left in it. */
  lemma EntryDoes(m: Machine, t: nat, i: nat, pages: Extent, level: nat, freePhysical: bool, all: iset<nat>)
    requires Sound(m) && t in m.pos && m.pos[t].level == level > 1 && i < ENTRIES && pages.start <= pages.end
    requires TableOk(m.mem, m.pos, t) && m.mem[t][i] != UNUSED
    requires freePhysical ==>
               && OwnedHits(m, t, all)
               && UpHits(level, i, PlanTable(m.mem, m.mem[t][i].frame, level - 1, pages).hits) <= all
    ensures var c := m.mem[t][i].frame;
            var b := Swept(WalkTable(m.mem, m.free, c, level - 1, pages, freePhysical), t, i, c);
            var child := PlanTable(m.mem, c, level - 1, pages);
            && b.ok && b.n == child.n && b.gone <= m.pos.Keys
            && TakenOut(m, After(m, b), t, UpHits(level, i, child.hits), freePhysical)
            && LaterKept(m.mem, b.mem, m.pos, t, i + 1)
    decreases level, 0, 0
  {
    hide Sound, NoNewEmpty, OwnedHits, TakenOut, WalkTable, PlanTable, UpHits, TableOk, LaterKept;
    SoundTable(m, t);
    ChildWalkable(m, t, i, pages, level, freePhysical, all);
    var c := m.mem[t][i].frame;
    WalkDoes(m, c, level - 1, pages, freePhysical);
    var w := WalkTable(m.mem, m.free, c, level - 1, pages, freePhysical);
    var hits := PlanTable(m.mem, c, level - 1, pages).hits;
    var m1 := After(m, w);
    TablesStand(m, m1, t, i, c, hits, freePhysical);
    EmptyOrNot(w.mem, c);
    LaterStand(m, m1, t, i, c, hits, freePhysical);
    if Empty(w.mem[c]) {
      ChildLeaves(m, m1, t, i, c, hits, freePhysical);
      assert m.pos - (w.gone + {c}) == (m.pos - w.gone) - {c};
    } else {
      ChildStays(m, m1, t, i, c, hits, freePhysical);
    }
  }

  lemma EmptyOrNot(mem: Memory, c: nat)
    requires c in mem
    ensures Empty(mem[c]) <==> !NonEmpty(mem, c)
  {
  }

  /** The walk below `c` leaves `c` and the table above it in memory. */
  lemma TablesStand(m: Machine, m': Machine, t: nat, i: nat, c: nat, hits: iset<nat>, freePhysical: bool)
    requires IsChild(m.pos, t, i, c) && i < ENTRIES && TableOk(m.mem, m.pos, t)
             && TakenOut(m, m', c, hits, freePhysical)
    ensures c in m'.mem && c in m.pos && t in m'.mem && |m'.mem[t]| == ENTRIES
  {
    hide Sound, Cleared, FreesHits, NoNewEmpty;
    ShrinksFacts(m, m', c);
    InMemory(m', c);
    ShrinksUp(m, m', t, i, c);
  }

  /** Later entries and what is below them stay, whether or not entry `i` is cleared. */
  lemma LaterStand(m: Machine, m': Machine, t: nat, i: nat, c: nat, hits: iset<nat>, freePhysical: bool)
    requires IsChild(m.pos, t, i, c) && i < ENTRIES && TableOk(m.mem, m.pos, t)
             && TakenOut(m, m', c, hits, freePhysical)
    requires m.pos[t].level > 1
    ensures t in m'.mem && |m'.mem[t]| == ENTRIES
    ensures LaterKept(m.mem, m'.mem, m.pos, t, i + 1)
    ensures LaterKept(m.mem, m'.mem[t := m'.mem[t][i := UNUSED]], m.pos, t, i + 1)
  {
    hide Sound, Cleared, FreesHits, NoNewEmpty;
    ShrinksUp(m, m', t, i, c);
    forall f, j | f in m.pos && i + 1 <= j < ENTRIES && Inside(m.pos[f], ChildPos(m.pos[t], j))
      ensures f != t && SameAt(m.mem, m'.mem, f)
    {
      assert !Inside(m.pos[f], m.pos[c]);
    }
  }
}
