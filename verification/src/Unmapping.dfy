/** What taking pages out of a hierarchy of page tables does to the machine.

    `hits` are the pages taken out.  Which ones they are is up to the walk over the tables; here is what
    follows for the tables, the translations and the free frames. */
module Unmapping {
  import opened Sequences
  import opened PageIndex
  import opened PageTables

  ghost function FrameAt(m: Machine, t: nat, p: nat): Option<nat>
  {
    if t in m.pos then Translate(m.mem, t, m.pos[t].level, p) else None
  }

  /** Tables that are gone. */
  ghost function Gone(m: Machine, m': Machine): set<nat>
  {
    m.pos.Keys - m'.pos.Keys
  }

  /** Only tables inside the region of `t` changed or went away, and `t` did not. */
  ghost predicate Shrinks(m: Machine, m': Machine, t: nat)
  {
    && Sound(m') && t in m.pos && t in m'.pos && Extends(m'.pos, m.pos)
    && (forall f | f in m.pos && !Inside(m.pos[f], m.pos[t]) :: f in m'.pos)
    && SameOutside(m.mem, m'.mem, m.pos, m.pos[t])
  }

  /** Below `t` the pages in `hits` translate to nothing, and every other page as before, flags included. */
  ghost predicate Cleared(m: Machine, m': Machine, t: nat, hits: iset<nat>)
  {
    t in m.pos && t in m'.pos && m'.pos[t] == m.pos[t]
    && forall p: nat, d: nat | Owns(m.pos[t], p) ::
         Lessened(View(m.mem, t, m.pos[t].level, p, d), View(m'.mem, t, m.pos[t].level, p, d), d, p in hits)
  }

  /** At level 1 the entry is gone if the page is hit, and as it was otherwise.  Above, it is as it was or gone
      with its table. */
  predicate Lessened(v: Option<Entry>, v': Option<Entry>, d: nat, hit: bool)
  {
    if d == 1 then v' == if hit then None else v else v' == v || v'.None?
  }

  /** A page in `hits` is mapped to frame `x`. */
  ghost predicate Behind(m: Machine, t: nat, hits: iset<nat>, x: nat)
  {
    t in m.pos && exists p: nat :: p in hits && Owns(m.pos[t], p) && FrameAt(m, t, p) == Some(x)
  }

  /** The tables that are gone have been freed, and if asked the frames behind `hits`, and no others. */
  ghost predicate FreesHits(m: Machine, m': Machine, t: nat, hits: iset<nat>, freePhysical: bool)
  {
    forall x: nat :: x in m'.free <==> x in m.free || x in Gone(m, m') || (freePhysical && Behind(m, t, hits, x))
  }

  /** The frames behind `hits` are the space's own: distinct, not free, and not tables. */
  ghost predicate OwnedHits(m: Machine, t: nat, hits: iset<nat>)
  {
    && (forall p: nat | p in hits && t in m.pos && Owns(m.pos[t], p) && FrameAt(m, t, p).Some? ::
          var x := FrameAt(m, t, p).value; x != 0 && x !in m.free && x !in m.pos)
    && (forall p: nat, r: nat | p in hits && r in hits && p != r && t in m.pos && Owns(m.pos[t], p) && Owns(m.pos[t], r)
                                && FrameAt(m, t, p).Some? :: FrameAt(m, t, p) != FrameAt(m, t, r))
  }

  ghost predicate TakenOut(m: Machine, m': Machine, t: nat, hits: iset<nat>, freePhysical: bool)
  {
    && Shrinks(m, m', t) && Cleared(m, m', t, hits) && FreesHits(m, m', t, hits, freePhysical)
    && NoNewEmpty(m, m', t)
  }

  lemma NothingTakenOut(m: Machine, t: nat, freePhysical: bool)
    requires Sound(m) && t in m.pos
    ensures TakenOut(m, m, t, iset{}, freePhysical)
  {
    hide Rooted, RootsThere;
    assert forall f | f in m.pos :: TableOk(m.mem, m.pos, f);
  }

  // ------------------------------------------------------------------ leaf

  predicate EntriesCleared(old': seq<Entry>, new': seq<Entry>, si: nat, n: nat)
  {
    && |old'| == |new'| == ENTRIES && si + n <= ENTRIES
    && forall j | 0 <= j < ENTRIES :: new'[j] == if si <= j < si + n then UNUSED else old'[j]
  }

  ghost function EntryFrames(table: seq<Entry>, si: nat, n: nat): set<nat>
    requires si + n <= |table|
  {
    set j | si <= j < si + n && table[j] != UNUSED :: table[j].frame
  }

  predicate SafeEntries(table: seq<Entry>, si: nat, n: nat, free: set<nat>, pos: Layout)
    requires si + n <= |table|
  {
    && (forall j | si <= j < si + n && table[j] != UNUSED ::
          table[j].frame != 0 && table[j].frame !in free && table[j].frame !in pos)
    && (forall j, k | si <= j < k < si + n && table[j] != UNUSED && table[k] != UNUSED ::
          table[j].frame != table[k].frame)
  }

  /** Page numbers and entry numbers of a level-1 table. */
  lemma LeafEntry(m: Machine, t: nat, p: nat)
    requires Sound(m) && t in m.pos && m.pos[t].level == 1 && TableOk(m.mem, m.pos, t) && Owns(m.pos[t], p)
    ensures p == ENTRIES * m.pos[t].num + Index(p, 1)
    ensures FrameAt(m, t, p) == if m.mem[t][Index(p, 1)] == UNUSED then None else Some(m.mem[t][Index(p, 1)].frame)
  {
    LevelOne(p);
    NumDown(p, 1);
  }

  lemma EntryLeaf(m: Machine, t: nat, j: nat)
    requires Sound(m) && t in m.pos && m.pos[t].level == 1 && j < ENTRIES
    ensures var p := ENTRIES * m.pos[t].num + j; Owns(m.pos[t], p) && Index(p, 1) == j
  {
    LevelOne(ENTRIES * m.pos[t].num + j);
  }

  /** The pages with entries from `si` to before `si + n` in a level-1 table. */
  ghost function LeafHits(si: nat, n: nat): iset<nat>
  {
    iset p: nat | si <= Index(p, 1) < si + n
  }

  lemma LeafBehind(m: Machine, t: nat, si: nat, n: nat, x: nat)
    requires Sound(m) && t in m.pos && m.pos[t].level == 1 && TableOk(m.mem, m.pos, t) && si + n <= ENTRIES
    ensures x in EntryFrames(m.mem[t], si, n) <==> Behind(m, t, LeafHits(si, n), x)
  {
    hide Sound, FrameAt;
    if x in EntryFrames(m.mem[t], si, n) {
      var j :| si <= j < si + n && m.mem[t][j] != UNUSED && m.mem[t][j].frame == x;
      var p := ENTRIES * m.pos[t].num + j;
      EntryLeaf(m, t, j);
      LeafEntry(m, t, p);
      assert p in LeafHits(si, n);
    }
    if Behind(m, t, LeafHits(si, n), x) {
      var p: nat :| p in LeafHits(si, n) && Owns(m.pos[t], p) && FrameAt(m, t, p) == Some(x);
      LeafEntry(m, t, p);
    }
  }

  /** Frames about to be freed are neither free nor tables, nor frame 0, and distinct. */
  lemma LeafSafe(m: Machine, t: nat, si: nat, n: nat)
    requires Sound(m) && t in m.pos && m.pos[t].level == 1 && TableOk(m.mem, m.pos, t) && si + n <= ENTRIES
    requires OwnedHits(m, t, LeafHits(si, n))
    ensures SafeEntries(m.mem[t], si, n, m.free, m.pos)
  {
    hide Sound, FrameAt, Index, Owns;
    forall j | si <= j < si + n && m.mem[t][j] != UNUSED
      ensures m.mem[t][j].frame != 0 && m.mem[t][j].frame !in m.free && m.mem[t][j].frame !in m.pos
    {
      EntryAt(m, t, j);
      assert ENTRIES * m.pos[t].num + j in LeafHits(si, n);
    }
    forall j, k | si <= j < k < si + n && m.mem[t][j] != UNUSED && m.mem[t][k] != UNUSED
      ensures m.mem[t][j].frame != m.mem[t][k].frame
    {
      EntryAt(m, t, j);
      EntryAt(m, t, k);
      var p, r := ENTRIES * m.pos[t].num + j, ENTRIES * m.pos[t].num + k;
      assert p in LeafHits(si, n) && r in LeafHits(si, n);
      assert FrameAt(m, t, p) != FrameAt(m, t, r);
    }
  }

  lemma EntryAt(m: Machine, t: nat, j: nat)
    requires Sound(m) && t in m.pos && m.pos[t].level == 1 && TableOk(m.mem, m.pos, t) && j < ENTRIES
    ensures var p := ENTRIES * m.pos[t].num + j;
      && Owns(m.pos[t], p) && Index(p, 1) == j
      && FrameAt(m, t, p) == if m.mem[t][j] == UNUSED then None else Some(m.mem[t][j].frame)
  {
    EntryLeaf(m, t, j);
    LeafEntry(m, t, ENTRIES * m.pos[t].num + j);
  }

  lemma LeafTables(m: Machine, t: nat, table: seq<Entry>)
    requires WellFormed(m.mem, m.pos) && t in m.pos && m.pos[t].level == 1 && |table| == ENTRIES
    ensures WellFormed(m.mem[t := table], m.pos) && SameOutside(m.mem, m.mem[t := table], m.pos, m.pos[t])
  {
    InsideSelf(m.pos[t]);
    hide Inside;
    forall f | f in m.pos
      ensures TableOk(m.mem[t := table], m.pos, f) && (f != t ==> SameAt(m.mem, m.mem[t := table], f))
    {
      assert TableOk(m.mem, m.pos, f);
    }
  }

  lemma LeafShrinks(m: Machine, t: nat, table: seq<Entry>, free: set<nat>)
    requires Sound(m) && t in m.pos && m.pos[t].level == 1 && |table| == ENTRIES
    requires m.pos.Keys !! free && 0 !in free
    ensures Shrinks(m, Machine(m.mem[t := table], m.pos, free), t)
  {
    hide WellFormed, Rooted, RootsThere, SameOutside, Inside;
    LeafRooted(m, t, table);
    LeafTables(m, t, table);
  }

  lemma LeafCleared(m: Machine, t: nat, table: seq<Entry>, free: set<nat>, si: nat, n: nat)
    requires Sound(m) && t in m.pos && m.pos[t].level == 1 && TableOk(m.mem, m.pos, t)
    requires EntriesCleared(m.mem[t], table, si, n)
    ensures Cleared(m, Machine(m.mem[t := table], m.pos, free), t, LeafHits(si, n))
  {
    hide Sound;
    var m' := Machine(m.mem[t := table], m.pos, free);
    forall p: nat, d: nat | Owns(m.pos[t], p)
      ensures Lessened(View(m.mem, t, 1, p, d), View(m'.mem, t, 1, p, d), d, p in LeafHits(si, n))
    {
      LeafEntry(m, t, p);
    }
  }

  /** Clearing entries of a level-1 table takes out exactly their pages. */
  lemma LeafTakenOut(m: Machine, t: nat, table: seq<Entry>, free: set<nat>, si: nat, n: nat, freePhysical: bool)
    requires Sound(m) && t in m.pos && m.pos[t].level == 1 && TableOk(m.mem, m.pos, t)
    requires EntriesCleared(m.mem[t], table, si, n) && (freePhysical ==> SafeEntries(m.mem[t], si, n, m.free, m.pos))
    requires free == m.free + if freePhysical then EntryFrames(m.mem[t], si, n) else {}
    ensures TakenOut(m, Machine(m.mem[t := table], m.pos, free), t, LeafHits(si, n), freePhysical)
  {
    hide Rooted, RootsThere, WellFormed, NonEmpty, TableOk, Behind;
    InMemory(m, t);
    LeafShrinks(m, t, table, free);
    LeafCleared(m, t, table, free, si, n);
    LeafNonEmpty(m, t, table, free);
    hide Sound, Shrinks, Cleared, NoNewEmpty;
    var m' := Machine(m.mem[t := table], m.pos, free);
    assert Gone(m, m') == {};
    forall x: nat ensures x in EntryFrames(m.mem[t], si, n) <==> Behind(m, t, LeafHits(si, n), x) {
      LeafBehind(m, t, si, n, x);
    }
    hide EntryFrames;
  }

  lemma LeafNonEmpty(m: Machine, t: nat, table: seq<Entry>, free: set<nat>)
    ensures NoNewEmpty(m, Machine(m.mem[t := table], m.pos, free), t)
  {
    var m' := Machine(m.mem[t := table], m.pos, free);
    forall f | f in m'.pos && f != t ensures NonEmpty(m'.mem, f) <==> NonEmpty(m.mem, f) {
    }
  }

  // ------------------------------------------------- from a child to its table

  lemma ShrinksUp(m: Machine, m': Machine, t: nat, i: nat, c: nat)
    requires IsChild(m.pos, t, i, c) && i < ENTRIES && Shrinks(m, m', c)
    ensures Shrinks(m, m', t) && SameAt(m.mem, m'.mem, t) && IsChild(m'.pos, t, i, c)
  {
    ChildInside(m.pos, t, i, c);
    forall a | Inside(a, m.pos[c]) ensures Inside(a, m.pos[t]) {
      InsideChild(m.pos, t, i, c, a);
    }
    assert t in m'.pos && SameAt(m.mem, m'.mem, t);
  }

  /** Pages of entry `i` that are among `hits`. */
  ghost function UpHits(level: nat, i: nat, hits: iset<nat>): iset<nat>
    requires level >= 1
  {
    iset p: nat | p in hits && Index(p, level) == i
  }

  lemma OwnsUp(m: Machine, t: nat, i: nat, c: nat, p: nat)
    requires IsChild(m.pos, t, i, c) && i < ENTRIES && TableOk(m.mem, m.pos, t) && m.pos[t].level > 1
    requires m.mem[t][i] != UNUSED && m.mem[t][i].frame == c
    ensures Owns(m.pos[c], p) <==> Owns(m.pos[t], p) && Index(p, m.pos[t].level) == i
    ensures Owns(m.pos[c], p) ==> FrameAt(m, c, p) == FrameAt(m, t, p)
  {
    NumUp(p, m.pos[t].level);
    NumDown(p, m.pos[t].level);
  }

  lemma ClearedUp(m: Machine, m': Machine, t: nat, i: nat, c: nat, hits: iset<nat>)
    requires Sound(m) && IsChild(m.pos, t, i, c) && i < ENTRIES && m.mem[t][i].frame == c && m.mem[t][i] != UNUSED
    requires m.pos[t].level > 1 && Shrinks(m, m', c) && Cleared(m, m', c, hits)
    ensures Cleared(m, m', t, UpHits(m.pos[t].level, i, hits))
  {
    hide Rooted, RootsThere;
    ChildInside(m.pos, t, i, c);
    assert TableOk(m.mem, m.pos, t);
    assert t in m'.pos && SameAt(m.mem, m'.mem, t);
    forall p: nat, d: nat | Owns(m.pos[t], p)
      ensures Lessened(View(m.mem, t, m.pos[t].level, p, d), View(m'.mem, t, m.pos[t].level, p, d),
                       d, p in UpHits(m.pos[t].level, i, hits))
    {
      ChildOwns(m.pos, t, i, c, p);
      if Index(p, m.pos[t].level) != i {
        OutsideKept(m.mem, m'.mem, m.pos, t, m.pos[c], p, d);
      }
    }
  }

  lemma BehindUp(m: Machine, t: nat, i: nat, c: nat, hits: iset<nat>, x: nat)
    requires IsChild(m.pos, t, i, c) && i < ENTRIES && TableOk(m.mem, m.pos, t) && m.pos[t].level > 1
    requires m.mem[t][i] != UNUSED && m.mem[t][i].frame == c
    ensures Behind(m, c, hits, x) <==> Behind(m, t, UpHits(m.pos[t].level, i, hits), x)
  {
    hide FrameAt, Index, Owns, TableOk;
    var up := UpHits(m.pos[t].level, i, hits);
    if Behind(m, c, hits, x) {
      var p: nat :| p in hits && Owns(m.pos[c], p) && FrameAt(m, c, p) == Some(x);
      OwnsUp(m, t, i, c, p);
      assert p in up;
    }
    if Behind(m, t, up, x) {
      var p: nat :| p in up && Owns(m.pos[t], p) && FrameAt(m, t, p) == Some(x);
      OwnsUp(m, t, i, c, p);
    }
  }

  lemma OwnedDown(m: Machine, t: nat, i: nat, c: nat, hits: iset<nat>, all: iset<nat>)
    requires IsChild(m.pos, t, i, c) && i < ENTRIES && TableOk(m.mem, m.pos, t) && m.pos[t].level > 1
    requires m.mem[t][i] != UNUSED && m.mem[t][i].frame == c
    requires OwnedHits(m, t, all) && UpHits(m.pos[t].level, i, hits) <= all
    ensures OwnedHits(m, c, hits)
  {
    hide FrameAt, Index, Owns, TableOk;
    forall p: nat | p in hits && Owns(m.pos[c], p)
      ensures p in all && Owns(m.pos[t], p) && FrameAt(m, t, p) == FrameAt(m, c, p)
    {
      OwnsUp(m, t, i, c, p);
      assert p in UpHits(m.pos[t].level, i, hits);
    }
  }

  /** What is taken out below a child is taken out below its table; the child may be empty now. */
  lemma TakenOutUp(m: Machine, m': Machine, t: nat, i: nat, c: nat, hits: iset<nat>, freePhysical: bool)
    requires Sound(m) && IsChild(m.pos, t, i, c) && i < ENTRIES && m.pos[t].level > 1 && TableOk(m.mem, m.pos, t)
    requires m.mem[t][i] != UNUSED && m.mem[t][i].frame == c && TakenOut(m, m', c, hits, freePhysical)
    ensures var up := UpHits(m.pos[t].level, i, hits);
      Shrinks(m, m', t) && Cleared(m, m', t, up) && FreesHits(m, m', t, up, freePhysical)
    ensures SameAt(m.mem, m'.mem, t) && IsChild(m'.pos, t, i, c)
  {
    hide Sound, NoNewEmpty, Behind, TableOk;
    ClearedUp(m, m', t, i, c, hits);
    ShrinksUp(m, m', t, i, c);
    hide Shrinks, Cleared, UpHits;
    forall x: nat ensures Behind(m, c, hits, x) <==> Behind(m, t, UpHits(m.pos[t].level, i, hits), x) {
      BehindUp(m, t, i, c, hits, x);
    }
  }

  // --------------------------------------------------------- an empty table goes

  /** Machine `m` without the empty table `c` below entry `i` of `t`. */
  function WithoutChild(m: Machine, t: nat, i: nat, c: nat): Machine
    requires t in m.mem && i < |m.mem[t]|
  {
    Machine(m.mem[t := m.mem[t][i := UNUSED]], m.pos - {c}, m.free + {c})
  }

  /** An empty table has nothing below it. */
  lemma EmptyChildless(m: Machine, c: nat, d: nat)
    requires Sound(m) && c in m.pos && !NonEmpty(m.mem, c) && d in m.pos
    ensures !ParentOf(m.mem, m.pos, c, d)
  {
  }

  lemma WithoutChildTable(m: Machine, t: nat, i: nat, c: nat, f: nat)
    requires Rooted(m.mem, m.pos) && IsChild(m.pos, t, i, c) && i < ENTRIES && TableOk(m.mem, m.pos, t)
    requires TableOk(m.mem, m.pos, f) && f != c
    ensures TableOk(WithoutChild(m, t, i, c).mem, WithoutChild(m, t, i, c).pos, f)
  {
    hide Rooted;
    var m' := WithoutChild(m, t, i, c);
    if m.pos[f].level > 1 {
      forall j | 0 <= j < ENTRIES && m'.mem[f][j] != UNUSED ensures IsChild(m'.pos, f, j, m'.mem[f][j].frame) {
        assert IsChild(m.pos, f, j, m.mem[f][j].frame);
        if m.mem[f][j].frame == c {
          SamePlace(m, t, i, f, j, c);
        }
      }
    }
  }

  lemma WithoutChildWellFormed(m: Machine, t: nat, i: nat, c: nat)
    requires Sound(m) && IsChild(m.pos, t, i, c) && i < ENTRIES && TableOk(m.mem, m.pos, t)
    ensures WellFormed(WithoutChild(m, t, i, c).mem, WithoutChild(m, t, i, c).pos)
    ensures SameOutside(m.mem, WithoutChild(m, t, i, c).mem, m.pos, m.pos[t])
  {
    hide Rooted, RootsThere, TableOk;
    InMemory(m, t);
    var m' := WithoutChild(m, t, i, c);
    InsideSelf(m.pos[t]);
    forall f | f in m'.pos ensures TableOk(m'.mem, m'.pos, f) {
      assert TableOk(m.mem, m.pos, f);
      WithoutChildTable(m, t, i, c, f);
    }
    forall f | f in m.pos && !Inside(m.pos[f], m.pos[t]) ensures SameAt(m.mem, m'.mem, f) {
      assert TableOk(m.mem, m.pos, f);
      InMemory(m, f);
    }
  }

  lemma InMemory(m: Machine, f: nat)
    requires TableOk(m.mem, m.pos, f)
    ensures f in m.mem && |m.mem[f]| == ENTRIES
  {
  }

  /** Only one entry can point to a table. */
  lemma SamePlace(m: Machine, t: nat, i: nat, f: nat, j: nat, c: nat)
    requires Rooted(m.mem, m.pos) && IsChild(m.pos, t, i, c) && IsChild(m.pos, f, j, c) && i < ENTRIES && j < ENTRIES
    ensures f == t && i == j
  {
    hide HasParent;
    assert m.pos[f] == m.pos[t];
  }

  lemma ParentElsewhere(m: Machine, t: nat, i: nat, c: nat, d: nat, f: nat)
    requires Rooted(m.mem, m.pos) && IsChild(m.pos, t, i, c) && i < ENTRIES
    requires ParentOf(m.mem, m.pos, f, d) && d != c
    ensures f != t || m.pos[d].num % ENTRIES != i
  {
    hide HasParent;
    var pd, pc := m.pos[d], m.pos[c];
    assert f == t && pd.num % ENTRIES == i ==> pd == pc;
  }

  lemma ParentStays(m: Machine, t: nat, i: nat, c: nat, d: nat, f: nat)
    requires t in m.mem && i < |m.mem[t]| && ParentOf(m.mem, m.pos, f, d) && f != c && d != c
    requires f != t || m.pos[d].num % ENTRIES != i
    ensures ParentOf(WithoutChild(m, t, i, c).mem, WithoutChild(m, t, i, c).pos, f, d)
  {
  }

  lemma WithoutChildParent(m: Machine, t: nat, i: nat, c: nat, d: nat)
    requires Sound(m) && IsChild(m.pos, t, i, c) && i < ENTRIES && TableOk(m.mem, m.pos, t) && !NonEmpty(m.mem, c)
    requires d in m.pos && d != c && m.pos[d].root != d
    ensures HasParent(WithoutChild(m, t, i, c).mem, WithoutChild(m, t, i, c).pos, d)
  {
    hide WellFormed, RootsThere, NonEmpty, ParentOf;
    assert HasParent(m.mem, m.pos, d);
    var f :| ParentOf(m.mem, m.pos, f, d);
    EmptyChildless(m, c, d);
    ParentElsewhere(m, t, i, c, d, f);
    ParentStays(m, t, i, c, d, f);
  }

  lemma WithoutChildRooted(m: Machine, t: nat, i: nat, c: nat)
    requires Sound(m) && IsChild(m.pos, t, i, c) && i < ENTRIES && TableOk(m.mem, m.pos, t) && !NonEmpty(m.mem, c)
    ensures Rooted(WithoutChild(m, t, i, c).mem, WithoutChild(m, t, i, c).pos)
    ensures RootsThere(WithoutChild(m, t, i, c).pos)
  {
    hide WellFormed, HasParent, NonEmpty;
    var m' := WithoutChild(m, t, i, c);
    forall d | d in m'.pos && m'.pos[d].root != d ensures HasParent(m'.mem, m'.pos, d) {
      WithoutChildParent(m, t, i, c, d);
    }
    forall f | f in m'.pos ensures m'.pos[f].root != c {
      assert m.pos[m.pos[f].root].root == m.pos[f].root;
    }
  }

  lemma WithoutChildShrinks(m: Machine, t: nat, i: nat, c: nat)
    requires Sound(m) && IsChild(m.pos, t, i, c) && i < ENTRIES && TableOk(m.mem, m.pos, t) && !NonEmpty(m.mem, c)
    ensures Shrinks(m, WithoutChild(m, t, i, c), t)
  {
    ChildInside(m.pos, t, i, c);
    WithoutChildRooted(m, t, i, c);
    WithoutChildWellFormed(m, t, i, c);
    hide Rooted, RootsThere, WellFormed, SameOutside, HasParent;
  }

  lemma WithoutChildCleared(m: Machine, t: nat, i: nat, c: nat)
    requires Sound(m) && IsChild(m.pos, t, i, c) && i < ENTRIES && TableOk(m.mem, m.pos, t) && !NonEmpty(m.mem, c)
    requires m.mem[t][i].frame == c && m.mem[t][i] != UNUSED
    ensures Cleared(m, WithoutChild(m, t, i, c), t, iset{})
  {
    hide Rooted, RootsThere;
    var m' := WithoutChild(m, t, i, c);
    assert TableOk(m.mem, m.pos, c);
    forall p: nat, d: nat | Owns(m.pos[t], p)
      ensures Lessened(View(m.mem, t, m.pos[t].level, p, d), View(m'.mem, t, m.pos[t].level, p, d), d, false)
    {
      var j := Index(p, m.pos[t].level);
      var e := m.mem[t][j];
      if j == i {
        assert m.mem[c][Index(p, m.pos[c].level)] == UNUSED;
      } else if e != UNUSED {
        assert IsChild(m.pos, t, j, e.frame);
        ChildOwns(m.pos, t, j, e.frame, p);
        forall f | f in m.pos && OnPath(m.pos[f], m.pos[e.frame], p) ensures SameAt(m.mem, m'.mem, f) {
          assert TableOk(m.mem, m.pos, f);
        }
        TranslateKept(m.mem, m'.mem, m.pos, e.frame, p, d);
      }
    }
  }

  lemma StayNonEmpty(m: Machine, m': Machine, t: nat, c: nat)
    requires NoNewEmpty(m, m', c) && NonEmpty(m'.mem, c)
    ensures NoNewEmpty(m, m', t)
  {
  }

  lemma LeftNonEmpty(m: Machine, m1: Machine, t: nat, i: nat, c: nat)
    requires NoNewEmpty(m, m1, c) && t in m1.mem && i < |m1.mem[t]|
    ensures NoNewEmpty(m, WithoutChild(m1, t, i, c), t)
  {
    var m2 := WithoutChild(m1, t, i, c);
    forall f | f in m2.pos && f != t ensures NonEmpty(m2.mem, f) <==> NonEmpty(m1.mem, f) {
    }
  }

  lemma ShrinksFacts(m: Machine, m': Machine, t: nat)
    requires Shrinks(m, m', t)
    ensures t in m.pos && t in m'.pos && m'.pos[t] == m.pos[t]
    ensures Sound(m') && TableOk(m'.mem, m'.pos, t)
    ensures m'.pos.Keys <= m.pos.Keys && m'.pos.Keys !! m'.free
    ensures forall c | c in m'.pos :: c in m.pos && m'.pos[c] == m.pos[c]
  {
    hide Rooted, RootsThere, SameOutside;
    assert TableOk(m'.mem, m'.pos, t);
  }

  /** The child's part done and the child kept, because something is left in it. */
  lemma ChildStays(m: Machine, m': Machine, t: nat, i: nat, c: nat, hits: iset<nat>, freePhysical: bool)
    requires Sound(m) && IsChild(m.pos, t, i, c) && i < ENTRIES && m.pos[t].level > 1 && TableOk(m.mem, m.pos, t)
    requires m.mem[t][i] != UNUSED && m.mem[t][i].frame == c && TakenOut(m, m', c, hits, freePhysical)
             && NonEmpty(m'.mem, c)
    ensures TakenOut(m, m', t, UpHits(m.pos[t].level, i, hits), freePhysical)
  {
    hide Sound, Shrinks, Cleared, FreesHits, TableOk;
    TakenOutUp(m, m', t, i, c, hits, freePhysical);
    StayNonEmpty(m, m', t, c);
  }

  /** The child's part done and the child, now empty, taken out and freed. */
  lemma ChildLeaves(m: Machine, m1: Machine, t: nat, i: nat, c: nat, hits: iset<nat>, freePhysical: bool)
    requires Sound(m) && IsChild(m.pos, t, i, c) && i < ENTRIES && m.pos[t].level > 1 && TableOk(m.mem, m.pos, t)
    requires m.mem[t][i] != UNUSED && m.mem[t][i].frame == c && TakenOut(m, m1, c, hits, freePhysical)
             && !NonEmpty(m1.mem, c)
    ensures t in m1.mem && |m1.mem[t]| == ENTRIES && c !in m1.free
    ensures TakenOut(m, WithoutChild(m1, t, i, c), t, UpHits(m.pos[t].level, i, hits), freePhysical)
  {
    hide Sound, Shrinks, Cleared, NoNewEmpty, NonEmpty, Behind, TableOk, Owns, UpHits;
    TakenOutUp(m, m1, t, i, c, hits, freePhysical);
    ShrinksFacts(m, m1, t);
    InMemory(m1, t);
    assert m1.mem[t][i] != UNUSED && m1.mem[t][i].frame == c by { InMemory(m, t); }
    var m2 := WithoutChild(m1, t, i, c);
    WithoutChildShrinks(m1, t, i, c);
    WithoutChildCleared(m1, t, i, c);
    ShrinksTrans(m, m1, m2, t);
    ClearedTrans(m, m1, m2, t, UpHits(m.pos[t].level, i, hits), iset{});
    LeftNonEmpty(m, m1, t, i, c);
    assert Gone(m, m2) == Gone(m, m1) + {c};
    assert UpHits(m.pos[t].level, i, hits) + iset{} == UpHits(m.pos[t].level, i, hits);
  }

  // ---------------------------------------------------------- one after another

  lemma ShrinksTrans(m: Machine, m1: Machine, m2: Machine, t: nat)
    requires Shrinks(m, m1, t) && Shrinks(m1, m2, t)
    ensures Shrinks(m, m2, t)
  {
    hide Sound;
    forall f | f in m.pos && !Inside(m.pos[f], m.pos[t]) ensures f in m2.pos && SameAt(m.mem, m2.mem, f) {
      assert f in m1.pos && SameAt(m.mem, m1.mem, f) && SameAt(m1.mem, m2.mem, f);
    }
  }

  lemma ClearedTrans(m: Machine, m1: Machine, m2: Machine, t: nat, hits: iset<nat>, more: iset<nat>)
    requires Cleared(m, m1, t, hits) && Cleared(m1, m2, t, more)
    ensures Cleared(m, m2, t, hits + more)
  {
    hide View, Owns;
  }

  lemma BehindJoin(m: Machine, m1: Machine, t: nat, hits: iset<nat>, more: iset<nat>, x: nat)
    requires Cleared(m, m1, t, hits)
    ensures Behind(m, t, hits + more, x) <==> Behind(m, t, hits, x) || Behind(m1, t, more, x)
  {
    forall p: nat | Owns(m.pos[t], p) ensures FrameAt(m1, t, p) == if p in hits then None else FrameAt(m, t, p) {
    }
    hide FrameAt;
    if Behind(m, t, hits + more, x) {
      var p: nat :| p in hits + more && Owns(m.pos[t], p) && FrameAt(m, t, p) == Some(x);
      assert p in hits || FrameAt(m1, t, p) == Some(x);
    }
    if Behind(m, t, hits, x) {
      var p: nat :| p in hits && Owns(m.pos[t], p) && FrameAt(m, t, p) == Some(x);
      assert p in hits + more;
    }
    if Behind(m1, t, more, x) {
      var p: nat :| p in more && Owns(m1.pos[t], p) && FrameAt(m1, t, p) == Some(x);
      assert p in hits + more;
    }
  }

  lemma GoneJoin(m: Machine, m1: Machine, m2: Machine)
    requires m2.pos.Keys <= m1.pos.Keys <= m.pos.Keys
    ensures Gone(m, m2) == Gone(m, m1) + Gone(m1, m2)
  {
  }

  lemma TakenOutJoin(m: Machine, m1: Machine, m2: Machine, t: nat, hits: iset<nat>, more: iset<nat>, freePhysical: bool)
    requires TakenOut(m, m1, t, hits, freePhysical) && TakenOut(m1, m2, t, more, freePhysical)
    ensures TakenOut(m, m2, t, hits + more, freePhysical)
  {
    NoNewEmptyTrans(m, m1, m2, t);
    hide Sound, NoNewEmpty, TableOk, Behind;
    ShrinksTrans(m, m1, m2, t);
    ClearedTrans(m, m1, m2, t, hits, more);
    ShrinksFacts(m, m1, t);
    ShrinksFacts(m1, m2, t);
    GoneJoin(m, m1, m2);
    hide Shrinks, Gone;
    forall x: nat ensures Behind(m, t, hits + more, x) <==> Behind(m, t, hits, x) || Behind(m1, t, more, x) {
      BehindJoin(m, m1, t, hits, more, x);
    }
  }

  /** Frames still to be freed keep what freeing them needs. */
  lemma OwnedLater(m: Machine, m1: Machine, t: nat, hits: iset<nat>, more: iset<nat>)
    requires OwnedHits(m, t, hits + more) && TakenOut(m, m1, t, hits, true)
    ensures OwnedHits(m1, t, more)
  {
    hide Sound, NoNewEmpty, TableOk;
    ShrinksFacts(m, m1, t);
    hide Shrinks;
    forall p: nat | Owns(m.pos[t], p) ensures FrameAt(m1, t, p) == if p in hits then None else FrameAt(m, t, p) {
    }
    hide FrameAt, Cleared;
    forall p: nat | p in more && Owns(m1.pos[t], p) && FrameAt(m1, t, p).Some?
      ensures var x := FrameAt(m1, t, p).value; x != 0 && x !in m1.free && x !in m1.pos
    {
      assert p in hits + more && p !in hits;
      var x := FrameAt(m, t, p).value;
      assert x !in m.free && x !in m.pos;
      forall r: nat | r in hits && Owns(m.pos[t], r) ensures FrameAt(m, t, r) != Some(x) {
        assert r in hits + more;
      }
      assert !Behind(m, t, hits, x);
    }
    forall p: nat, r: nat | p in more && r in more && p != r && Owns(m1.pos[t], p) && Owns(m1.pos[t], r)
                            && FrameAt(m1, t, p).Some?
      ensures FrameAt(m1, t, p) != FrameAt(m1, t, r)
    {
      assert p in hits + more && r in hits + more;
    }
  }
}
