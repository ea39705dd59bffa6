/** Whole runs over any number of address spaces: creating, copying, mapping and unmapping. */
module SpaceRuns {
  import opened MemorySpaces
  import opened PageIndex
  import opened PageTables
  import opened Unmapping
  import opened UnmapWalks
  import opened Copying
  import opened Paging

  /** An operation that came to its end, with what it was asked and what it answered: the frame of a new
      root, the number of pages mapped and the frames they got. */
  datatype Event =
    | Create(root: nat, depth: nat)
    | Copy(root: nat, copy: nat, depth: nat)
    | Map(root: nat, frames: Extent, pages: Extent, space: Space, flags: nat, n: nat, ts: seq<nat>)
    | Unmap(root: nat, pages: Extent, freePhysical: bool)

  predicate IsRoot(m: Machine, root: nat)
  {
    root in m.pos && m.pos[root] == Pos(root, m.pos[root].level, 0)
  }

  /** What a caller keeps to.  Nothing is said of the state of the tables; unmapping takes any range, and
      if it is to free frames, those it hits are the space's own. */
  ghost predicate Permitted(m: Machine, e: Event)
  {
    match e
    case Create(root, depth) => root in m.free && depth >= 1
    case Copy(root, _, depth) => IsRoot(m, root) && m.pos[root].level == depth
    case Map(root, frames, pages, _, _, _, _) =>
      IsRoot(m, root) && Owns(m.pos[root], pages.start) && Lockstep(frames, pages)
    case Unmap(root, pages, freePhysical) =>
      && IsRoot(m, root) && pages.start <= pages.end
      && (freePhysical ==> OwnedHits(m, root, PlanTable(m.mem, root, m.pos[root].level, pages).hits))
  }

  /** What the operations do: creating and unmapping as they compute it, copying and mapping as far as
      they promise, which is nothing unless the tables are in order. */
  ghost predicate Step(m: Machine, e: Event, m': Machine)
    requires Permitted(m, e)
  {
    match e
    case Create(root, depth) => m' == WithRoot(m, root, depth)
    case Copy(root, copy, depth) => Sound(m) ==> SpaceCopied(m, m', root, copy, depth)
    case Map(root, frames, pages, space, flags, n, ts) =>
      Sound(m) ==> MapDone(m, m', root, frames, pages, space, n, ts, flags)
    case Unmap(root, pages, freePhysical) =>
      m' == After(m, WalkTable(m.mem, m.free, root, m.pos[root].level, pages, freePhysical))
  }

  /** Table memory is in order and no table but roots is empty. */
  ghost predicate Orderly(m: Machine)
  {
    Sound(m) && NoneEmpty(m, 0)
  }

  lemma StepSound(m: Machine, e: Event, m': Machine)
    requires Sound(m) && Permitted(m, e) && Step(m, e, m')
    ensures Sound(m')
  {
    hide Sound, NoneEmpty, SameTranslation, Mapped, Cleared, WalkTable, PlanTable, OwnedHits;
    match e {
      case Create(root, depth) =>
        NewRoot(m, root, depth);
      case Copy(_, _, _) =>
      case Map(_, _, _, _, _, _, _) =>
      case Unmap(root, pages, freePhysical) =>
        WalkDoes(m, root, m.pos[root].level, pages, freePhysical);
    }
  }

  /** Mapping no page where the tables for it are missing. */
  predicate LeavesTable(m: Machine, e: Event)
  {
    && e.Map? && e.pages.start == e.pages.end && e.root in m.pos
    && LeafOf(m.mem, e.root, m.pos[e.root].level, e.pages.start).None?
  }

  /** Every operation keeps tables in order and leaves none empty, except for mapping no page where the
      tables for it are missing: that always leaves an empty one. */
  lemma StepOrderly(m: Machine, e: Event, m': Machine)
    requires Orderly(m) && Permitted(m, e) && Step(m, e, m')
    ensures Orderly(m') <==> !LeavesTable(m, e)
  {
    hide Sound, NoneEmpty, NoNewEmpty, SameTranslation, Mapped, Cleared, WalkTable, PlanTable, OwnedHits, MapDone;
    StepSound(m, e, m');
    match e {
      case Create(root, depth) =>
        NewRoot(m, root, depth);
      case Copy(_, _, _) =>
      case Map(root, frames, pages, space, flags, n, ts) =>
        MapOrderly(m, m', root, frames, pages, space, n, ts, flags);
      case Unmap(root, pages, freePhysical) =>
        AllButRoot(m, root);
        WalkDoes(m, root, m.pos[root].level, pages, freePhysical);
        NoneEmptyStays(m, m', root);
        RootMayBeEmpty(m', root);
    }
  }

  lemma MapOrderly(
    m: Machine, m': Machine, root: nat, frames: Extent, pages: Extent, space: Space, n: nat, ts: seq<nat>, flags: nat)
    requires Sound(m) && NoneEmpty(m, 0) && IsRoot(m, root) && MapDone(m, m', root, frames, pages, space, n, ts, flags)
    ensures NoneEmpty(m', 0) <==>
            !(pages.start >= pages.end && LeafOf(m.mem, root, m.pos[root].level, pages.start).None?)
  {
    hide Sound, NonEmpty, NoNewEmpty, Mapped, Targets, Accounts, LeafOf, NoneEmpty;
    if pages.start < pages.end {
      NoneEmptyStays(m, m', 0);
    } else if LeafOf(m.mem, root, m.pos[root].level, pages.start).None? {
      EmptyLeft(m, m', root, LeafOf(m'.mem, root, m.pos[root].level, pages.start).value);
    }
  }

  lemma EmptyLeft(m: Machine, m': Machine, root: nat, x: nat)
    requires IsRoot(m, root) && Grows(m, m', m.pos[root]) && EmptyNew(m, m', x)
    ensures !NoneEmpty(m', 0)
  {
    hide WellFormed, Rooted, RootsThere, NonEmpty, NoNewEmpty;
    assert x in m'.pos && m'.pos[x].root == root != x;
  }

  lemma AllButRoot(m: Machine, root: nat)
    requires Sound(m) && NoneEmpty(m, 0)
    ensures NoneEmpty(m, root)
  {
    hide WellFormed, Rooted, RootsThere, NonEmpty;
  }

  lemma RootMayBeEmpty(m: Machine, root: nat)
    requires NoneEmpty(m, root) && IsRoot(m, root)
    ensures NoneEmpty(m, 0)
  {
  }

  /** In a space just created, mapping no page leaves an empty table. */
  lemma NoPageLeavesTable(m: Machine, root: nat, depth: nat, p: nat, space: Space, flags: nat, m': Machine)
    requires Orderly(m) && root in m.free && depth > 1 && p < Size(depth)
    ensures var e := Map(root, Extent(0, 0), Extent(p, p), space, flags, 0, []);
            Permitted(WithRoot(m, root, depth), e) && (Step(WithRoot(m, root, depth), e, m') ==> !Orderly(m'))
  {
    hide Sound, NoneEmpty, Step;
    var e := Map(root, Extent(0, 0), Extent(p, p), space, flags, 0, []);
    NewRoot(m, root, depth);
    NumRange(p, depth, 0);
    if Step(WithRoot(m, root, depth), e, m') {
      StepOrderly(WithRoot(m, root, depth), e, m');
    }
  }

  /** The event maps or unmaps in the space of `t`. */
  predicate Concerns(m: Machine, e: Event, t: nat)
    requires t in m.pos
  {
    (e.Map? || e.Unmap?) && e.root == m.pos[t].root
  }

  lemma StepKeepsOthers(m: Machine, e: Event, m': Machine, t: nat)
    requires Sound(m) && Permitted(m, e) && Step(m, e, m') && t in m.pos && !Concerns(m, e, t)
    ensures t in m'.pos && m'.pos[t] == m.pos[t] && SameTranslation(m.mem, t, m'.mem, t, m.pos[t])
  {
    hide Rooted, RootsThere, Mapped, SameTranslation, MapDone, TakenOut, WalkTable, PlanTable, OwnedHits;
    match e {
      case Create(root, depth) =>
        forall f | f in m.pos ensures SameAt(m.mem, m'.mem, f) {
          assert TableOk(m.mem, m.pos, f);
        }
        TablesKept(m, m', t);
      case Copy(root, copy, depth) =>
        TablesKept(m, m', t);
      case Map(root, frames, pages, space, flags, n, ts) =>
        MapChangesOnly(m, m', root, frames, pages, space, n, ts, flags);
        OtherSpaceKept(m, m', root, t);
      case Unmap(root, pages, freePhysical) =>
        WalkDoes(m, root, m.pos[root].level, pages, freePhysical);
        UnmapChangesOnly(m, m', root, PlanTable(m.mem, root, m.pos[root].level, pages).hits, freePhysical);
        OtherSpaceKept(m, m', root, t);
    }
  }

  lemma TablesKept(m: Machine, m': Machine, t: nat)
    requires WellFormed(m.mem, m.pos) && t in m.pos && forall f | f in m.pos :: SameAt(m.mem, m'.mem, f)
    ensures SameTranslation(m.mem, t, m'.mem, t, m.pos[t])
  {
    forall p: nat, d: nat | Owns(m.pos[t], p)
      ensures View(m'.mem, t, m.pos[t].level, p, d) == View(m.mem, t, m.pos[t].level, p, d)
    {
      TranslateKept(m.mem, m'.mem, m.pos, t, p, d);
    }
  }

  ghost predicate Run(ms: seq<Machine>, es: seq<Event>)
  {
    |ms| == |es| + 1 && forall i | 0 <= i < |es| :: Permitted(ms[i], es[i]) && Step(ms[i], es[i], ms[i + 1])
  }

  /** Over every run every table stays in its place in one hierarchy. */
  lemma RunSound(ms: seq<Machine>, es: seq<Event>)
    requires Run(ms, es) && Sound(ms[0])
    ensures forall i | 0 <= i < |ms| :: Sound(ms[i])
  {
    hide Sound, Permitted, Step;
    for k := 0 to |es|
      invariant forall i | 0 <= i <= k :: Sound(ms[i])
    {
      StepSound(ms[k], es[k], ms[k + 1]);
    }
  }

  /** A run leaves no table but roots empty, unless it maps no page where the tables for it are missing. */
  lemma RunOrderly(ms: seq<Machine>, es: seq<Event>)
    requires Run(ms, es) && Orderly(ms[0]) && forall i | 0 <= i < |es| :: !LeavesTable(ms[i], es[i])
    ensures forall i | 0 <= i < |ms| :: Orderly(ms[i])
  {
    hide Orderly, Permitted, Step, LeavesTable;
    for k := 0 to |es|
      invariant forall i | 0 <= i <= k :: Orderly(ms[i])
    {
      StepOrderly(ms[k], es[k], ms[k + 1]);
    }
  }

  /** Over every run, a space in which nothing is mapped or unmapped translates as it did, whatever
      is created, copied, mapped and unmapped elsewhere; so a copy and its original go separate ways. */
  lemma RunKeepsOthers(ms: seq<Machine>, es: seq<Event>, t: nat)
    requires Run(ms, es) && Sound(ms[0]) && t in ms[0].pos
    requires forall i | 0 <= i < |es| && t in ms[i].pos :: !Concerns(ms[i], es[i], t)
    ensures var last := ms[|es|];
            && t in last.pos && last.pos[t] == ms[0].pos[t]
            && SameTranslation(ms[0].mem, t, last.mem, t, ms[0].pos[t])
  {
    hide Sound, Permitted, Step, Concerns;
    RunSound(ms, es);
    for k := 0 to |es|
      invariant t in ms[k].pos && ms[k].pos[t] == ms[0].pos[t]
      invariant SameTranslation(ms[0].mem, t, ms[k].mem, t, ms[0].pos[t])
    {
      StepKeepsOthers(ms[k], es[k], ms[k + 1], t);
    }
  }
}
