/** The frames behind user pages, over whole runs: nobody else's, never freed twice, never lost. */
module UserFrames {
  import opened Sequences
  import opened MemorySpaces
  import opened PageIndex
  import opened PageTables
  import opened Unmapping
  import opened UnmapWalks
  import opened UnmapRanges
  import opened Copying
  import opened Paging
  import opened SpaceRuns

  // ------------------------------------------------------------ frames and owners

  /** A page of the space with the given root. */
  datatype Place = Place(root: nat, page: nat)

  type Backing = imap<Place, nat>

  /** Frames behind pages are distinct, not frame 0, and neither free nor tables. */
  ghost predicate Own(u: Backing, free: set<nat>, tables: set<nat>)
  {
    && (forall k | k in u :: u[k] != 0 && u[k] !in free && u[k] !in tables)
    && Injective(u)
  }

  ghost predicate Injective(u: Backing)
  {
    forall k, l | k in u && l in u && k != l :: u[k] != u[l]
  }

  /** The frames that are free, tables, or behind a page. */
  ghost function Holding(u: Backing, free: set<nat>, tables: set<nat>): iset<nat>
  {
    iset x: nat | x in free || x in tables || x in u.Values
  }

  /** The frames behind the given places. */
  ghost function At(u: Backing, places: iset<Place>): iset<nat>
  {
    iset k | k in u && k in places :: u[k]
  }

  ghost function Without(u: Backing, places: iset<Place>): Backing
  {
    imap k | k in u && k !in places :: u[k]
  }

  /** Mapping `v` over `u` with frames that are nobody's, and tables on frames that were free. */
  lemma OwnMore(u: Backing, free: set<nat>, tables: set<nat>, v: Backing, free': set<nat>, tables': set<nat>)
    requires Own(u, free, tables) && free' <= free && tables <= tables' && tables' - tables <= free
    requires Injective(v) && forall k | k in v ::
               v[k] != 0 && v[k] !in free' && v[k] !in tables' && v[k] !in u.Values
    ensures Own(u + v, free', tables')
  {
    var u' := u + v;
    forall k, l | k in u' && l in u' && k != l ensures u'[k] != u'[l] {
      if k in v && l !in v {
        assert u[l] in u.Values;
      } else if l in v && k !in v {
        assert u[k] in u.Values;
      }
    }
  }

  /** What was behind the pages mapped over is lost, and what came from elsewhere is gained. */
  lemma HoldMore(
    u: Backing, free: set<nat>, tables: set<nat>, v: Backing, free': set<nat>, tables': set<nat>,
    taken: set<nat>, given: iset<nat>)
    requires Own(u, free, tables) && tables <= tables' && tables' - tables <= free && taken <= free
    requires free' == free - (tables' - tables) - taken && forall x :: x in v.Values <==> x in taken || x in given
    ensures Holding(u + v, free', tables') == Holding(u, free, tables) - At(u, v.Keys) + given
  {
    var u' := u + v;
    forall x: nat ensures x in u'.Values <==> x in v.Values || (x in u.Values && x !in At(u, v.Keys)) {
      if x in u.Values && x !in At(u, v.Keys) {
        var k :| k in u && u[k] == x;
        assert k !in v;
        assert u'[k] == x;
      }
      if x in v.Values {
        var k :| k in v && v[k] == x;
        assert u'[k] == x;
      }
      if x in u'.Values && x !in v.Values {
        var k :| k in u' && u'[k] == x;
        assert k in u && k !in v;
      }
    }
  }

  /** Taking places out, with their frames set free or not, and tables that go. */
  lemma OwnLess(
    u: Backing, free: set<nat>, tables: set<nat>, places: iset<Place>, free': set<nat>, tables': set<nat>)
    requires Own(u, free, tables) && tables' <= tables
    requires forall x :: x in free' ==> x in free || x in tables || x in At(u, places)
    ensures Own(Without(u, places), free', tables')
  {
  }

  lemma HoldLess(
    u: Backing, free: set<nat>, tables: set<nat>, places: iset<Place>, free': set<nat>, tables': set<nat>, freed: bool)
    requires Own(u, free, tables) && tables' <= tables
    requires forall x :: x in free' <==> x in free || x in tables - tables' || (freed && x in At(u, places))
    ensures Holding(Without(u, places), free', tables')
         == Holding(u, free, tables) - (if freed then iset{} else At(u, places))
  {
    var u' := Without(u, places);
    forall x: nat ensures x in u'.Values <==> x in u.Values && x !in At(u, places) {
      if x in u.Values && x !in At(u, places) {
        var k :| k in u && u[k] == x;
        assert u'[k] == x;
      }
    }
  }

  // ------------------------------------------------------------- user pages

  /** The first page of user space. */
  const FIRST_PAGE: nat := FIRST_USER / PAGE

  /** The page is a user page of a space and mapped. */
  ghost predicate InUse(m: Machine, k: Place)
  {
    && IsRoot(m, k.root) && FIRST_PAGE <= k.page && Owns(m.pos[k.root], k.page)
    && FrameAt(m, k.root, k.page).Some?
  }

  /** All user pages of all spaces, with the frames behind them. */
  ghost function UserMap(m: Machine): Backing
  {
    imap k | InUse(m, k) :: FrameAt(m, k.root, k.page).value
  }

  /** The frames behind user pages are distinct, not frame 0, and neither free nor tables. */
  ghost predicate OwnFrames(m: Machine)
  {
    Own(UserMap(m), m.free, m.pos.Keys)
  }

  /** The frames that are free, tables, or behind a user page. */
  ghost function Held(m: Machine): iset<nat>
  {
    Holding(UserMap(m), m.free, m.pos.Keys)
  }

  ghost predicate NoUserPages(m: Machine, root: nat)
  {
    forall k | k in UserMap(m) :: k.root != root
  }

  /** `x` is frame 0 or the allocator's, a table's or a user page's. */
  ghost predicate Occupied(m: Machine, x: nat)
  {
    x == 0 || x in Held(m)
  }

  /** What a caller keeps to: it copies spaces without user pages only, maps pages of the right part of a
      space, brings frames of its own that nobody has, and frees the frames behind user pages only. */
  ghost predicate Asked(m: Machine, e: Event)
  {
    match e
    case Create(root, depth) => root in m.free && depth >= 1
    case Copy(root, _, depth) => IsRoot(m, root) && m.pos[root].level == depth && NoUserPages(m, root)
    case Map(root, frames, pages, space, _, _, _) =>
      && IsRoot(m, root) && Owns(m.pos[root], pages.start) && Lockstep(frames, pages)
      && (space == Kernel ==> pages.end <= FIRST_PAGE) && (space == User ==> FIRST_PAGE <= pages.start)
      && (space == User ==> forall x: nat | frames.start <= x < frames.end :: !Occupied(m, x))
    case Unmap(root, pages, freePhysical) =>
      && IsRoot(m, root) && pages.start <= pages.end
      && (freePhysical ==> FIRST_PAGE <= pages.start && Owns(m.pos[root], pages.start))
  }

  /** The places of pages in one space. */
  ghost function Places(root: nat, pages: iset<nat>): iset<Place>
  {
    iset k: Place | k.root == root && k.page in pages
  }

  /** The walk for a user range hits user pages only, so the frames behind are the space's own. */
  lemma AskedPermitted(m: Machine, e: Event)
    requires OwnFrames(m) && Asked(m, e) && Sound(m)
    ensures Permitted(m, e)
  {
    hide Own, PlanTable, Holding, Sound;
    if e.Unmap? && e.freePhysical {
      SoundTable(m, e.root);
      UserHits(m, e.root, e.pages);
      HitsOwned(m, e.root, PlanTable(m.mem, e.root, m.pos[e.root].level, e.pages).hits);
    }
  }

  lemma UserHits(m: Machine, root: nat, pages: Extent)
    requires IsRoot(m, root) && Owns(m.pos[root], pages.start) && FIRST_PAGE <= pages.start <= pages.end
    requires m.pos[root].level >= 1
    ensures forall p: nat | p in PlanTable(m.mem, root, m.pos[root].level, pages).hits :: FIRST_PAGE <= p
  {
    hide PlanTable, Num;
    PlanAhead(m.mem, root, m.pos[root].level, pages);
  }

  lemma HitsOwned(m: Machine, root: nat, hits: iset<nat>)
    requires OwnFrames(m) && IsRoot(m, root) && forall p: nat | p in hits :: FIRST_PAGE <= p
    ensures OwnedHits(m, root, hits)
  {
    hide FrameAt, Owns;
    var u := UserMap(m);
    forall p: nat | p in hits && Owns(m.pos[root], p) && FrameAt(m, root, p).Some?
      ensures Place(root, p) in u && u[Place(root, p)] == FrameAt(m, root, p).value
    {
      assert InUse(m, Place(root, p));
    }
  }

  // ------------------------------------------------ what a step does to user pages

  /** A space that the step does not map or unmap in keeps its pages. */
  lemma OthersInUse(m: Machine, e: Event, m': Machine, k: Place)
    requires Sound(m) && Permitted(m, e) && Step(m, e, m') && IsRoot(m, k.root) && !Concerns(m, e, k.root)
    ensures k in UserMap(m') <==> k in UserMap(m)
    ensures k in UserMap(m) ==> UserMap(m')[k] == UserMap(m)[k]
  {
    hide Sound, Permitted, Step, Concerns, View, Owns;
    StepKeepsOthers(m, e, m', k.root);
  }

  lemma NewSpaceEmpty(m: Machine, root: nat, depth: nat)
    requires Sound(m) && root in m.free
    ensures root !in m.pos && forall p: nat :: Translate(WithRoot(m, root, depth).mem, root, depth, p) == None
  {
    hide WellFormed, Rooted, RootsThere, Num;
  }

  lemma CreateFrames(m: Machine, e: Event, m': Machine)
    requires Sound(m) && e.Create? && Permitted(m, e) && Step(m, e, m')
    ensures UserMap(m') == UserMap(m)
  {
    hide Sound, View, Owns, ZeroTable;
    NewSpaceEmpty(m, e.root, e.depth);
    forall k: Place ensures k in UserMap(m') <==> k in UserMap(m)
                    ensures k in UserMap(m) ==> UserMap(m')[k] == UserMap(m)[k]
    {
      if k.root != e.root && IsRoot(m, k.root) {
        OthersInUse(m, e, m', k);
      }
    }
  }

  lemma CopyFrames(m: Machine, e: Event, m': Machine)
    requires Sound(m) && e.Copy? && Permitted(m, e) && Step(m, e, m') && NoUserPages(m, e.root)
    ensures UserMap(m') == UserMap(m)
  {
    hide Sound, View, Num;
    forall k: Place ensures k in UserMap(m') <==> k in UserMap(m)
                    ensures k in UserMap(m) ==> UserMap(m')[k] == UserMap(m)[k]
    {
      if IsRoot(m, k.root) {
        OthersInUse(m, e, m', k);
      } else if k.root == e.copy {
        assert Place(e.root, k.page) !in UserMap(m);
      }
    }
  }

  /** The user pages a step maps, with their frames. */
  ghost function MappedPlaces(m: Machine, e: Event): Backing
  {
    if e.Map? && e.space == User && e.root in m.pos
    then imap k: Place | k.root == e.root && e.pages.start <= k.page < e.pages.start + |e.ts| ::
           e.ts[k.page - e.pages.start]
    else imap[]
  }

  lemma MapFrames(m: Machine, e: Event, m': Machine)
    requires Sound(m) && e.Map? && Asked(m, e) && Permitted(m, e) && Step(m, e, m')
    ensures UserMap(m') == UserMap(m) + MappedPlaces(m, e)
  {
    hide Sound, Asked, Permitted, Step, UserMap, MappedPlaces;
    forall k: Place ensures k in UserMap(m') <==> k in UserMap(m) + MappedPlaces(m, e)
                    ensures k in UserMap(m') ==> UserMap(m')[k] == (UserMap(m) + MappedPlaces(m, e))[k]
    {
      MapPlace(m, e, m', k);
    }
  }

  lemma MapPlace(m: Machine, e: Event, m': Machine, k: Place)
    requires Sound(m) && e.Map? && Asked(m, e) && Permitted(m, e) && Step(m, e, m')
    ensures k in UserMap(m') <==> k in UserMap(m) || k in MappedPlaces(m, e)
    ensures k in UserMap(m') ==>
              UserMap(m')[k] == if k in MappedPlaces(m, e) then MappedPlaces(m, e)[k] else UserMap(m)[k]
  {
    hide Sound, MapDone, FrameAt, Owns;
    MapRoots(m, e, m');
    if k.root == e.root {
      MapOwned(m, m', e);
      FramesMapped(m, e, m');
    } else if IsRoot(m, k.root) {
      OthersInUse(m, e, m', k);
    }
  }

  lemma FramesMapped(m: Machine, e: Event, m': Machine)
    requires e.Map? && IsRoot(m, e.root) && MapDone(m, m', e.root, e.frames, e.pages, e.space, e.n, e.ts, e.flags)
    ensures forall p: nat | Owns(m.pos[e.root], p) ::
              FrameAt(m', e.root, p)
              == if e.pages.start <= p < e.pages.start + |e.ts| then Some(e.ts[p - e.pages.start])
                 else FrameAt(m, e.root, p)
  {
    hide Grows, Targets, Accounts, Fills, View, Owns;
  }

  lemma MapRoots(m: Machine, e: Event, m': Machine)
    requires e.Map? && IsRoot(m, e.root) && MapDone(m, m', e.root, e.frames, e.pages, e.space, e.n, e.ts, e.flags)
    ensures m'.pos[e.root] == m.pos[e.root] && forall r :: IsRoot(m', r) <==> IsRoot(m, r)
  {
    hide Sound, Mapped, Targets, Accounts, Fills, SameOutside;
  }

  lemma MapOwned(m: Machine, m': Machine, e: Event)
    requires e.Map? && IsRoot(m, e.root) && MapDone(m, m', e.root, e.frames, e.pages, e.space, e.n, e.ts, e.flags)
    requires Owns(m.pos[e.root], e.pages.start)
    ensures e.pages.start + |e.ts| <= e.pages.end
    ensures forall p | e.pages.start <= p < e.pages.start + |e.ts| :: Owns(m.pos[e.root], p)
  {
    hide Grows, Mapped, Targets, Accounts, Fills, Owns, First;
    RegionOwned(m.pos[e.root], e.pages.start, |e.ts|);
  }

  lemma UnmapFrames(m: Machine, e: Event, m': Machine)
    requires Sound(m) && e.Unmap? && Permitted(m, e) && Step(m, e, m')
    requires TakenOut(m, m', e.root, PlanTable(m.mem, e.root, m.pos[e.root].level, e.pages).hits, e.freePhysical)
    ensures var hits := PlanTable(m.mem, e.root, m.pos[e.root].level, e.pages).hits;
            UserMap(m') == Without(UserMap(m), Places(e.root, hits))
  {
    hide Sound, View, Owns, WalkTable, PlanTable, OwnedHits, FreesHits, NoNewEmpty;
    var hits := PlanTable(m.mem, e.root, m.pos[e.root].level, e.pages).hits;
    UnmapRoots(m, m', e.root);
    hide Shrinks;
    forall k: Place ensures k in UserMap(m') <==> k in Without(UserMap(m), Places(e.root, hits))
                    ensures k in UserMap(m') ==> UserMap(m')[k] == Without(UserMap(m), Places(e.root, hits))[k]
    {
      if k.root != e.root && IsRoot(m, k.root) {
        OthersInUse(m, e, m', k);
      }
    }
  }

  lemma UnmapRoots(m: Machine, m': Machine, root: nat)
    requires Shrinks(m, m', root) && IsRoot(m, root)
    ensures m'.pos[root] == m.pos[root] && forall r :: IsRoot(m', r) <==> IsRoot(m, r)
  {
    hide Sound, SameOutside;
  }

  // ------------------------------------------------------------------- steps

  /** The frames a step loses: those behind pages it maps over, and those behind pages it unmaps without
      freeing. */
  ghost function Lost(m: Machine, e: Event): iset<nat>
    requires Permitted(m, e)
  {
    match e
    case Unmap(root, pages, false) =>
      At(UserMap(m), Places(root, PlanTable(m.mem, root, m.pos[root].level, pages).hits))
    case _ => At(UserMap(m), MappedPlaces(m, e).Keys)
  }

  /** The frames a caller brings. */
  ghost function Given(e: Event): iset<nat>
  {
    if e.Map? && e.space == User && e.frames.start < e.frames.end then iset x | x in e.ts else iset{}
  }

  /** What a step keeps, and what it does to the frames that are held. */
  ghost predicate Kept(m: Machine, e: Event, m': Machine)
  {
    && Permitted(m, e) && WalksWell(m, e)
    && OwnFrames(m') && Held(m') == Held(m) - Lost(m, e) + Given(e)
  }

  /** Unmapping, if that is the step, frees no frame that is free and stays within the tables. */
  ghost predicate WalksWell(m: Machine, e: Event)
  {
    e.Unmap? ==>
      && e.root in m.pos && e.pages.start <= e.pages.end
      && WalkTable(m.mem, m.free, e.root, m.pos[e.root].level, e.pages, e.freePhysical).ok
  }

  lemma CreateKept(m: Machine, e: Event, m': Machine)
    requires Sound(m) && OwnFrames(m) && e.Create? && Permitted(m, e) && Step(m, e, m')
    ensures Kept(m, e, m')
  {
    CreateFrames(m, e, m');
    hide Own, UserMap;
    TablesMore(m, e, m');
  }

  lemma CopyKept(m: Machine, e: Event, m': Machine)
    requires Sound(m) && OwnFrames(m) && e.Copy? && Permitted(m, e) && Step(m, e, m') && NoUserPages(m, e.root)
    ensures Kept(m, e, m')
  {
    CopyFrames(m, e, m');
    hide Own, UserMap, SameTranslation;
    TablesMore(m, e, m');
  }

  /** A step that only moves frames from the allocator to new tables. */
  lemma TablesMore(m: Machine, e: Event, m': Machine)
    requires OwnFrames(m) && Permitted(m, e) && UserMap(m') == UserMap(m) && (e.Create? || e.Copy?)
    requires m.pos.Keys <= m'.pos.Keys && m'.pos.Keys - m.pos.Keys <= m.free
    requires m'.free == m.free - (m'.pos.Keys - m.pos.Keys)
    ensures Kept(m, e, m')
  {
    var u, none: Backing := UserMap(m), imap[];
    hide UserMap, Own, Holding, Permitted;
    assert u + none == u;
    OwnMore(u, m.free, m.pos.Keys, none, m'.free, m'.pos.Keys);
    HoldMore(u, m.free, m.pos.Keys, none, m'.free, m'.pos.Keys, {}, iset{});
  }

  lemma MapKept(m: Machine, e: Event, m': Machine)
    requires Sound(m) && OwnFrames(m) && e.Map? && Asked(m, e) && Permitted(m, e) && Step(m, e, m')
    ensures Kept(m, e, m')
  {
    hide UserMap, Own, Holding, Permitted, Step, Asked, MappedPlaces, Sound, Taken, Injective;
    MapFrames(m, e, m');
    MapTargets(m, e, m');
    var u, v := UserMap(m), MappedPlaces(m, e);
    OwnMore(u, m.free, m.pos.Keys, v, m'.free, m'.pos.Keys);
    HoldMore(u, m.free, m.pos.Keys, v, m'.free, m'.pos.Keys, Taken(e.space, e.frames, e.ts), Given(e));
  }

  /** The frames mapped are nobody else's. */
  lemma MapTargets(m: Machine, e: Event, m': Machine)
    requires Sound(m) && OwnFrames(m) && e.Map? && Asked(m, e) && Permitted(m, e) && Step(m, e, m')
    ensures Accounts(m, m', e.space, e.frames, e.ts)
    ensures var v := MappedPlaces(m, e);
            && Injective(v) && Taken(e.space, e.frames, e.ts) <= m.free
            && (forall k | k in v :: v[k] != 0 && v[k] !in m'.free && v[k] !in m'.pos && v[k] !in UserMap(m).Values)
            && (forall x :: x in v.Values <==> x in Taken(e.space, e.frames, e.ts) || x in Given(e))
  {
    hide UserMap, Own, WellFormed, Rooted, RootsThere, Mapped, Fills, Grows, Targets, Accounts, Occupied;
    var v := MappedPlaces(m, e);
    if e.space == User {
      TargetsDistinct(m, e, m');
      PlacesValues(m, e);
      forall k | k in v ensures v[k] != 0 && v[k] !in m'.free && v[k] !in m'.pos && v[k] !in UserMap(m).Values {
        TargetFresh(m, e, m', k.page - e.pages.start);
      }
      forall x | x in Taken(e.space, e.frames, e.ts) ensures x in m.free {
        var i :| 0 <= i < |e.ts| && e.ts[i] == x;
        TargetFresh(m, e, m', i);
      }
    }
  }

  lemma TargetsDistinct(m: Machine, e: Event, m': Machine)
    requires e.Map? && e.space == User && Targets(User, e.frames, e.pages.start, e.ts, m.free, m'.free)
    ensures Distinct(e.ts)
  {
  }

  lemma PlacesValues(m: Machine, e: Event)
    requires e.Map? && e.space == User && e.root in m.pos
    ensures forall x :: x in MappedPlaces(m, e).Values <==> x in e.ts
  {
    var v := MappedPlaces(m, e);
    forall i | 0 <= i < |e.ts| ensures e.ts[i] in v.Values {
      assert v[Place(e.root, e.pages.start + i)] == e.ts[i];
    }
  }

  lemma TargetFresh(m: Machine, e: Event, m': Machine, i: nat)
    requires Sound(m) && OwnFrames(m) && e.Map? && Asked(m, e) && e.space == User && i < |e.ts|
    requires Targets(User, e.frames, e.pages.start, e.ts, m.free, m'.free) && Accounts(m, m', User, e.frames, e.ts)
    ensures e.ts[i] != 0 && e.ts[i] !in m'.free && e.ts[i] !in m'.pos && e.ts[i] !in UserMap(m).Values
    ensures e.frames.start >= e.frames.end ==> e.ts[i] in m.free
  {
    hide UserMap, WellFormed, Rooted, RootsThere;
    var x := e.ts[i];
    if e.frames.start < e.frames.end {
      assert !Occupied(m, x);
    } else {
      assert x in Taken(User, e.frames, e.ts);
    }
  }

  lemma UnmapKept(m: Machine, e: Event, m': Machine)
    requires Sound(m) && OwnFrames(m) && e.Unmap? && Asked(m, e) && Permitted(m, e) && Step(m, e, m')
    ensures Kept(m, e, m')
  {
    hide Sound, Own, UserMap, Holding, WalkTable, PlanTable, OwnedHits, Owns;
    var hits := PlanTable(m.mem, e.root, m.pos[e.root].level, e.pages).hits;
    WalkDoes(m, e.root, m.pos[e.root].level, e.pages, e.freePhysical);
    UnmapFrames(m, e, m');
    ShrinksFacts(m, m', e.root);
    if e.freePhysical {
      SoundTable(m, e.root);
      UserHits(m, e.root, e.pages);
      BehindUser(m, e.root, hits);
    }
    hide Shrinks, Cleared, NoNewEmpty, Behind;
    var u, places := UserMap(m), Places(e.root, hits);
    OwnLess(u, m.free, m.pos.Keys, places, m'.free, m'.pos.Keys);
    HoldLess(u, m.free, m.pos.Keys, places, m'.free, m'.pos.Keys, e.freePhysical);
    assert At(u, iset{}) == iset{};
  }

  /** Behind user pages are the frames the map of user pages says. */
  lemma BehindUser(m: Machine, root: nat, hits: iset<nat>)
    requires IsRoot(m, root) && forall p: nat | p in hits :: FIRST_PAGE <= p
    ensures forall x: nat :: Behind(m, root, hits, x) <==> x in At(UserMap(m), Places(root, hits))
  {
    hide FrameAt, Owns;
    var u, places := UserMap(m), Places(root, hits);
    forall x: nat ensures Behind(m, root, hits, x) <==> x in At(u, places) {
      if Behind(m, root, hits, x) {
        var p: nat :| p in hits && Owns(m.pos[root], p) && FrameAt(m, root, p) == Some(x);
        assert InUse(m, Place(root, p));
        assert Place(root, p) in u && Place(root, p) in places && u[Place(root, p)] == x;
      }
      if x in At(u, places) {
        var k :| k in u && k in places && u[k] == x;
        assert InUse(m, k);
      }
    }
  }

  /** Every step a caller may ask for is one that the tables allow, keeps the frames behind user pages the
      spaces' own, and moves frames only between the allocator, the tables and the user pages, but for those
      that are lost or brought. */
  lemma StepKept(m: Machine, e: Event, m': Machine)
    requires Sound(m) && OwnFrames(m) && Asked(m, e) && (Permitted(m, e) ==> Step(m, e, m'))
    ensures Sound(m') && Kept(m, e, m')
  {
    AskedPermitted(m, e);
    StepSound(m, e, m');
    hide Sound, OwnFrames, Permitted, Step, Kept, NoUserPages;
    match e {
      case Create(_, _) => CreateKept(m, e, m');
      case Copy(_, _, _) => CopyKept(m, e, m');
      case Map(_, _, _, _, _, _, _) => MapKept(m, e, m');
      case Unmap(_, _, _) => UnmapKept(m, e, m');
    }
  }

  /** The frames that are held stay the same exactly if the step loses none and brings none. */
  lemma ConservesExactly(m: Machine, e: Event, m': Machine)
    requires Sound(m) && OwnFrames(m) && Asked(m, e) && (Permitted(m, e) ==> Step(m, e, m'))
    ensures Permitted(m, e)
    ensures Held(m') == Held(m) <==> Lost(m, e) == iset{} && Given(e) == iset{}
  {
    hide Sound, OwnFrames, Permitted, Asked, Step, WalksWell, Lost, Held;
    StepKept(m, e, m');
    LostHeld(m, e);
    if Given(e) != iset{} {
      var x :| x in Given(e);
      BroughtNew(m, e, m', x);
    }
  }

  lemma LostHeld(m: Machine, e: Event)
    requires Permitted(m, e)
    ensures Lost(m, e) <= Held(m)
  {
    hide UserMap, Permitted, PlanTable, MappedPlaces;
  }

  lemma BroughtNew(m: Machine, e: Event, m': Machine, x: nat)
    requires Sound(m) && Asked(m, e) && Permitted(m, e) && Step(m, e, m') && x in Given(e)
    ensures x !in Held(m)
  {
    hide Sound, Held, Owns, Mapped, Grows, Accounts, Fills;
    var i :| 0 <= i < |e.ts| && e.ts[i] == x;
    assert !Occupied(m, x);
  }

  // -------------------------------------------------------------------- runs

  ghost predicate AskedRun(ms: seq<Machine>, es: seq<Event>)
  {
    && |ms| == |es| + 1
    && forall i | 0 <= i < |es| :: Asked(ms[i], es[i]) && (Permitted(ms[i], es[i]) ==> Step(ms[i], es[i], ms[i + 1]))
  }

  /** Over every run in which callers keep to their part, the frames behind user pages stay the spaces' own,
      and no unmapping ever frees a frame that is free. */
  lemma RunOwned(ms: seq<Machine>, es: seq<Event>)
    requires AskedRun(ms, es) && Sound(ms[0]) && OwnFrames(ms[0])
    ensures Run(ms, es) && forall i | 0 <= i < |ms| :: Sound(ms[i]) && OwnFrames(ms[i])
    ensures forall i | 0 <= i < |es| :: WalksWell(ms[i], es[i])
  {
    hide Sound, OwnFrames, Held, Lost, Permitted, Step, Asked, WalksWell;
    for k := 0 to |es|
      invariant forall i | 0 <= i <= k :: Sound(ms[i]) && OwnFrames(ms[i])
      invariant forall i | 0 <= i < k :: Permitted(ms[i], es[i]) && WalksWell(ms[i], es[i])
    {
      StepKept(ms[k], es[k], ms[k + 1]);
    }
  }

  /** A request that loses no frame and brings none: it maps frames from the allocator, to pages that are not
      mapped, and frees what it unmaps. */
  ghost predicate Thrifty(m: Machine, e: Event)
  {
    match e
    case Map(root, frames, pages, User, _, _, _) =>
      && frames.start >= frames.end
      && forall p: nat | pages.start <= p < pages.end :: FrameAt(m, root, p).None?
    case Unmap(_, _, freePhysical) => freePhysical
    case _ => true
  }

  /** Over every run of such requests, each frame that is free, a table or behind a user page stays one of
      the three, and no frame becomes one: none is lost, whatever is created, copied, mapped and unmapped. */
  lemma RunConserves(ms: seq<Machine>, es: seq<Event>)
    requires AskedRun(ms, es) && Sound(ms[0]) && OwnFrames(ms[0])
    requires forall i | 0 <= i < |es| :: Thrifty(ms[i], es[i])
    ensures Held(ms[|es|]) == Held(ms[0])
  {
    hide Sound, OwnFrames, Permitted, Step, Asked, WalksWell, Thrifty, Held, Lost;
    RunOwned(ms, es);
    for k := 0 to |es|
      invariant Held(ms[k]) == Held(ms[0])
    {
      StepKept(ms[k], es[k], ms[k + 1]);
      NothingLost(ms[k], es[k], ms[k + 1]);
    }
  }

  lemma NothingLost(m: Machine, e: Event, m': Machine)
    requires Sound(m) && Permitted(m, e) && Step(m, e, m') && Thrifty(m, e)
    ensures Lost(m, e) == iset{} && Given(e) == iset{}
  {
    hide Sound, Mapped, Grows, Targets, Accounts, Fills, PlanTable, FrameAt, Owns;
    if e.Map? && e.space == User {
      forall k | k in MappedPlaces(m, e) ensures k !in UserMap(m) {
        assert FrameAt(m, e.root, k.page).None?;
      }
    }
  }
}
