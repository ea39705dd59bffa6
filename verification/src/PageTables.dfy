/** Four-level page tables as memory: frames that hold tables of 512 entries, which point to further
    table frames.

    Nothing makes such memory a tree.  A `Layout` gives every table frame one place: the root it
    belongs to, its level, and the number of the region it covers.  `WellFormed` says that every
    entry in use points to the table placed right below it; so no table hangs in two places, and
    what a page translates to depends only on the tables placed above that page. */
module PageTables {
  import opened Sequences
  import opened MemorySpaces
  import opened PageIndex

  /** A page-table entry: frame number and flag bits.  It is unused when all its bits are zero. */
  datatype Entry = Entry(frame: nat, flags: nat)

  const UNUSED := Entry(0, 0)

  type Memory = map<nat, seq<Entry>>

  datatype Pos = Pos(root: nat, level: nat, num: nat)

  type Layout = map<nat, Pos>

  /** What a walk for page `p` from table `t` down finds at level `d`: the entry if `d` is 1, and above that
      the flags, which count for the page as well.  Nothing if the walk does not get that far. */
  function View(mem: Memory, t: nat, level: nat, p: nat, d: nat): Option<Entry>
    decreases level
  {
    if level == 0 || level < d || t !in mem || |mem[t]| != ENTRIES then None
    else
      var e := mem[t][Index(p, level)];
      if e == UNUSED then None
      else if level > d then View(mem, e.frame, level - 1, p, d)
      else Some(if level == 1 then e else Entry(0, e.flags))
  }

  /** `translate_in_table`: the frame of the level-1 entry. */
  function Translate(mem: Memory, t: nat, level: nat, p: nat): Option<nat>
  {
    var leaf := View(mem, t, level, p, 1);
    if leaf.Some? then Some(leaf.value.frame) else None
  }

  /** The level-1 table a walk for page `p` ends in, if all tables on the way are there. */
  function LeafOf(mem: Memory, t: nat, level: nat, p: nat): Option<nat>
    decreases level
  {
    if level == 0 || t !in mem || |mem[t]| != ENTRIES then None
    else if level == 1 then Some(t)
    else if mem[t][Index(p, level)] == UNUSED then None
    else LeafOf(mem, mem[t][Index(p, level)].frame, level - 1, p)
  }

  lemma LeafDown(mem: Memory, t: nat, level: nat, p: nat)
    requires level > 1 && t in mem && |mem[t]| == ENTRIES
    ensures LeafOf(mem, t, level, p) == if mem[t][Index(p, level)] == UNUSED then None
                                        else LeafOf(mem, mem[t][Index(p, level)].frame, level - 1, p)
  {
  }

  /** The region of entry `j` of a table placed at `q`. */
  function ChildPos(q: Pos, j: nat): Pos
    requires q.level >= 1
  {
    Pos(q.root, q.level - 1, ENTRIES * q.num + j)
  }

  predicate IsChild(pos: Layout, f: nat, i: nat, c: nat)
  {
    f in pos && c in pos && pos[f].level >= 1
    && pos[c] == ChildPos(pos[f], i)
  }

  predicate TableOk(mem: Memory, pos: Layout, f: nat)
  {
    && f in pos && f in mem && |mem[f]| == ENTRIES && pos[f].level >= 1
    && (pos[f].level > 1 ==>
          forall i | 0 <= i < ENTRIES :: mem[f][i] == UNUSED || IsChild(pos, f, i, mem[f][i].frame))
  }

  predicate WellFormed(mem: Memory, pos: Layout)
  {
    forall f | f in pos :: TableOk(mem, pos, f)
  }

  /** Page `p` is in the region placed at `q`. */
  predicate Owns(q: Pos, p: nat)
  {
    Num(p, q.level) == q.num
  }

  /** A table placed at `a` is one that a translation of `p` starting at `q` may visit. */
  predicate OnPath(a: Pos, q: Pos, p: nat)
  {
    a.root == q.root && a.level <= q.level && Owns(a, p)
  }

  /** The region at `a` is part of the region at `q`. */
  predicate Inside(a: Pos, q: Pos)
  {
    a.root == q.root && a.level <= q.level && Num(First(a.level, a.num), q.level) == q.num
  }

  predicate SameAt(mem: Memory, mem': Memory, f: nat)
  {
    f in mem && f in mem' && mem'[f] == mem[f]
  }

  /** Only tables inside the region at `q` differ. */
  predicate SameOutside(mem: Memory, mem': Memory, pos: Layout, q: Pos)
  {
    forall f | f in pos && !Inside(pos[f], q) :: SameAt(mem, mem', f)
  }

  // --------------------------------------------------------------- framing

  lemma ChildOwns(pos: Layout, f: nat, i: nat, c: nat, p: nat)
    requires IsChild(pos, f, i, c) && Owns(pos[f], p)
    ensures Owns(pos[c], p) <==> i == Index(p, pos[f].level)
  {
    NumDown(p, pos[f].level);
  }

  /** A translation reads only tables placed above its page. */
  lemma {:induction false} TranslateKept(mem: Memory, mem': Memory, pos: Layout, t: nat, p: nat, d: nat)
    requires WellFormed(mem, pos) && t in pos && Owns(pos[t], p)
    requires forall f | f in pos && OnPath(pos[f], pos[t], p) :: SameAt(mem, mem', f)
    ensures View(mem', t, pos[t].level, p, d) == View(mem, t, pos[t].level, p, d)
    decreases pos[t].level
  {
    assert TableOk(mem, pos, t);
    assert OnPath(pos[t], pos[t], p);
    var level, i := pos[t].level, Index(p, pos[t].level);
    var e := mem[t][i];
    if level > 1 && e != UNUSED {
      assert IsChild(pos, t, i, e.frame);
      ChildOwns(pos, t, i, e.frame, p);
      TranslateKept(mem, mem', pos, e.frame, p, d);
    }
  }

  /** A page outside a region keeps its translation when only that region's tables change. */
  lemma OutsideKept(mem: Memory, mem': Memory, pos: Layout, t: nat, q: Pos, p: nat, d: nat)
    requires WellFormed(mem, pos) && t in pos && Owns(pos[t], p) && !Owns(q, p)
    requires SameOutside(mem, mem', pos, q)
    ensures View(mem', t, pos[t].level, p, d) == View(mem, t, pos[t].level, p, d)
  {
    forall f | f in pos && OnPath(pos[f], pos[t], p) ensures SameAt(mem, mem', f) {
      if Inside(pos[f], q) {
        FloorUp(p, pos[f].level, q.level);
        assert false;
      }
    }
    TranslateKept(mem, mem', pos, t, p, d);
  }

  lemma InsideChild(pos: Layout, f: nat, i: nat, c: nat, a: Pos)
    requires IsChild(pos, f, i, c) && i < ENTRIES && Inside(a, pos[c])
    ensures Inside(a, pos[f])
  {
    NumUp(First(a.level, a.num), pos[f].level);
  }

  lemma UnderChild(q: Pos, j: nat, a: Pos)
    requires q.level >= 1 && j < ENTRIES && Inside(a, ChildPos(q, j))
    ensures Inside(a, q) && a.level < q.level
  {
    NumUp(First(a.level, a.num), q.level);
  }

  lemma InsideSelf(q: Pos)
    ensures Inside(q, q)
  {
    FirstNum(q.level, q.num);
  }

  lemma ChildInside(pos: Layout, f: nat, i: nat, c: nat)
    requires IsChild(pos, f, i, c) && i < ENTRIES
    ensures Inside(pos[c], pos[f]) && !Inside(pos[f], pos[c])
  {
    InsideSelf(pos[c]);
    InsideChild(pos, f, i, c, pos[c]);
  }

  // ---------------------------------------------------------- whole machine

  /** Table memory, its layout, and the frames the allocator can hand out. */
  datatype Machine = Machine(mem: Memory, pos: Layout, free: set<nat>)

  /** `f` is the table above `c`, and its entry for `c`'s region points to `c`. */
  predicate ParentOf(mem: Memory, pos: Layout, f: nat, c: nat)
  {
    && f in pos && c in pos && f in mem && |mem[f]| == ENTRIES
    && pos[f] == Pos(pos[c].root, pos[c].level + 1, pos[c].num / ENTRIES)
    && mem[f][pos[c].num % ENTRIES] != UNUSED && mem[f][pos[c].num % ENTRIES].frame == c
  }

  ghost predicate HasParent(mem: Memory, pos: Layout, c: nat)
  {
    exists f :: ParentOf(mem, pos, f, c)
  }

  /** No two tables are placed alike, and every table but a root hangs below another one. */
  ghost predicate Rooted(mem: Memory, pos: Layout)
  {
    && (forall f, g | f in pos && g in pos && pos[f] == pos[g] :: f == g)
    && (forall c | c in pos && pos[c].root != c :: HasParent(mem, pos, c))
  }

  ghost predicate Sound(m: Machine)
  {
    && WellFormed(m.mem, m.pos) && Rooted(m.mem, m.pos) && RootsThere(m.pos)
    && m.pos.Keys !! m.free && 0 !in m.free && 0 !in m.pos
  }

  ghost predicate Extends(pos: Layout, pos': Layout)
  {
    forall f | f in pos :: f in pos' && pos'[f] == pos[f]
  }

  /** From `m` to `m'` only tables inside `q` changed; new tables are inside `q` and on frames the
      allocator handed out. */
  ghost predicate Grows(m: Machine, m': Machine, q: Pos)
  {
    && Sound(m') && m'.free <= m.free && Extends(m.pos, m'.pos)
    && SameOutside(m.mem, m'.mem, m.pos, q)
    && (forall f | f in m'.pos && f !in m.pos :: f in m.free && Inside(m'.pos[f], q))
  }

  /** From `v` to `v'`: at level 1 the entry is `target` if there is one, and as it was otherwise.  Above,
      an entry that was there stays, and one that is new has the flags `flags`. */
  predicate Changed(v: Option<Entry>, v': Option<Entry>, d: nat, target: Option<Entry>, flags: nat)
  {
    if d == 1 then v' == if target.Some? then target else v
    else if v.Some? then v' == v
    else v'.None? || v' == Some(Entry(0, flags))
  }

  /** The entry meant for page `p` when the pages from `start` on are mapped to the frames `ts`. */
  function Target(start: nat, ts: seq<nat>, flags: nat, p: nat): Option<Entry>
  {
    if start <= p < start + |ts| then Some(Entry(ts[p - start], flags)) else None
  }

  /** Below table `t`, the pages from `start` on have level-1 entries with the frames `ts` and the given
      flags, and every other page has the entry it had; tables made on the way have these flags, too. */
  ghost predicate Mapped(m: Machine, m': Machine, t: nat, start: nat, ts: seq<nat>, flags: nat)
  {
    && t in m.pos && t in m'.pos && m'.pos[t] == m.pos[t]
    && (forall p: nat, d: nat | Owns(m.pos[t], p) ::
          Changed(View(m.mem, t, m.pos[t].level, p, d), View(m'.mem, t, m.pos[t].level, p, d),
                  d, Target(start, ts, flags, p), flags))
  }

  lemma GrowsRefl(m: Machine, q: Pos)
    requires Sound(m)
    ensures Grows(m, m, q)
  {
    assert forall f | f in m.pos :: TableOk(m.mem, m.pos, f);
  }

  lemma GrowsTrans(m: Machine, m1: Machine, m2: Machine, q: Pos)
    requires Grows(m, m1, q) && Grows(m1, m2, q)
    ensures Grows(m, m2, q)
  {
    forall f | f in m.pos && !Inside(m.pos[f], q) ensures SameAt(m.mem, m2.mem, f) {
      assert SameAt(m.mem, m1.mem, f) && SameAt(m1.mem, m2.mem, f);
    }
  }

  lemma GrowsUp(m: Machine, m': Machine, t: nat, i: nat, c: nat)
    requires IsChild(m.pos, t, i, c) && i < ENTRIES && Grows(m, m', m.pos[c])
    ensures Grows(m, m', m.pos[t])
  {
    forall a | Inside(a, m.pos[c]) ensures Inside(a, m.pos[t]) {
      InsideChild(m.pos, t, i, c, a);
    }
  }

  lemma MappedTrans(
    m: Machine, m1: Machine, m2: Machine, t: nat, start: nat, ts: seq<nat>, us: seq<nat>, flags: nat)
    requires Mapped(m, m1, t, start, ts, flags) && Mapped(m1, m2, t, start + |ts|, us, flags)
    ensures Mapped(m, m2, t, start, ts + us, flags)
  {
    hide View, Owns;
  }

  /** Mapping pages of a child's region maps them for the parent. */
  lemma MappedUp(m: Machine, m': Machine, t: nat, i: nat, c: nat, start: nat, ts: seq<nat>, flags: nat)
    requires Sound(m) && IsChild(m.pos, t, i, c) && i < ENTRIES && m.mem[t][i].frame == c && m.mem[t][i] != UNUSED
    requires Grows(m, m', m.pos[c]) && Mapped(m, m', c, start, ts, flags)
    requires forall p | start <= p < start + |ts| :: Owns(m.pos[c], p)
    ensures Mapped(m, m', t, start, ts, flags)
  {
    hide Rooted, RootsThere;
    ChildInside(m.pos, t, i, c);
    assert TableOk(m.mem, m.pos, t);
    assert SameAt(m.mem, m'.mem, t);
    forall p: nat, d: nat | Owns(m.pos[t], p)
      ensures Changed(View(m.mem, t, m.pos[t].level, p, d), View(m'.mem, t, m.pos[t].level, p, d),
                      d, Target(start, ts, flags, p), flags)
    {
      ChildOwns(m.pos, t, i, c, p);
      if Index(p, m.pos[t].level) != i {
        OutsideKept(m.mem, m'.mem, m.pos, t, m.pos[c], p, d);
      }
    }
  }

  /** The pages from `start` to the end of a region. */
  function Room(level: nat, num: nat, start: nat): int
  {
    First(level, num + 1) - start
  }

  lemma RegionOwned(q: Pos, start: nat, n: nat)
    requires Owns(q, start) && start + n <= First(q.level, q.num + 1)
    ensures forall p | start <= p < start + n :: Owns(q, p)
  {
    NumRange(start, q.level, q.num);
    forall p | start <= p < start + n ensures Owns(q, p) {
      NumRange(p, q.level, q.num);
    }
  }

  // ------------------------------------------------------- elementary steps

  function ZeroTable(): (t: seq<Entry>)
    ensures |t| == ENTRIES && forall i | 0 <= i < ENTRIES :: t[i] == UNUSED
  {
    seq(ENTRIES, _ => UNUSED)
  }

  /** An unused entry `i` of table `t` gets a fresh, zeroed table `c`. */
  function WithChild(m: Machine, t: nat, i: nat, c: nat, flags: nat): Machine
    requires t in m.mem && t in m.pos && i < |m.mem[t]| && m.pos[t].level > 1
  {
    Machine(
      m.mem[c := ZeroTable()][t := m.mem[t][i := Entry(c, flags)]],
      m.pos[c := ChildPos(m.pos[t], i)],
      m.free - {c})
  }

  /** A table placed below entry `i` of `t` is what the entry points to. */
  lemma PlaceUsed(m: Machine, t: nat, i: nat, g: nat)
    requires Sound(m) && t in m.pos && m.pos[t].level > 1 && i < ENTRIES && TableOk(m.mem, m.pos, t)
    requires IsChild(m.pos, t, i, g)
    ensures m.mem[t][i] != UNUSED && m.mem[t][i].frame == g
  {
    hide WellFormed;
    assert g != m.pos[g].root;
    assert HasParent(m.mem, m.pos, g);
    var f :| ParentOf(m.mem, m.pos, f, g);
    assert m.pos[f] == m.pos[t];
  }

  /** Every table's root is a table of at least its level. */
  predicate RootsThere(pos: Layout)
  {
    forall f | f in pos :: pos[f].root in pos && pos[pos[f].root].level >= pos[f].level
                           && pos[pos[f].root].root == pos[f].root
  }

  lemma WithChildUnique(m: Machine, t: nat, i: nat, c: nat, flags: nat, g: nat)
    requires Sound(m) && t in m.pos && m.pos[t].level > 1 && i < ENTRIES
    requires TableOk(m.mem, m.pos, t) && m.mem[t][i] == UNUSED && g in m.pos && c !in m.pos
    ensures m.pos[g] != WithChild(m, t, i, c, flags).pos[c]
  {
    hide Sound;
    if m.pos[g] == WithChild(m, t, i, c, flags).pos[c] {
      PlaceUsed(m, t, i, g);
    }
  }

  lemma WithChildParents(m: Machine, t: nat, i: nat, c: nat, flags: nat, d: nat)
    requires Rooted(m.mem, m.pos) && t in m.pos && m.pos[t].level > 1 && i < ENTRIES
    requires TableOk(m.mem, m.pos, t) && m.mem[t][i] == UNUSED && c !in m.pos && c != 0
    requires d == c || (d in m.pos && m.pos[d].root != d)
    ensures HasParent(WithChild(m, t, i, c, flags).mem, WithChild(m, t, i, c, flags).pos, d)
  {
    var m' := WithChild(m, t, i, c, flags);
    if d == c {
      assert ParentOf(m'.mem, m'.pos, t, c);
    } else {
      assert HasParent(m.mem, m.pos, d);
      var f :| ParentOf(m.mem, m.pos, f, d);
      assert ParentOf(m'.mem, m'.pos, f, d);
    }
  }

  lemma WithChildRooted(m: Machine, t: nat, i: nat, c: nat, flags: nat)
    requires Sound(m) && t in m.pos && m.pos[t].level > 1 && i < ENTRIES
    requires TableOk(m.mem, m.pos, t) && m.mem[t][i] == UNUSED && c in m.free
    ensures Rooted(WithChild(m, t, i, c, flags).mem, WithChild(m, t, i, c, flags).pos)
    ensures RootsThere(WithChild(m, t, i, c, flags).pos)
  {
    hide WellFormed, HasParent;
    var m' := WithChild(m, t, i, c, flags);
    forall g | g in m.pos ensures m.pos[g] != m'.pos[c] {
      WithChildUnique(m, t, i, c, flags, g);
    }
    forall d | d in m'.pos && m'.pos[d].root != d ensures HasParent(m'.mem, m'.pos, d) {
      WithChildParents(m, t, i, c, flags, d);
    }
  }

  lemma WithChildWellFormed(m: Machine, t: nat, i: nat, c: nat, flags: nat)
    requires WellFormed(m.mem, m.pos) && t in m.pos && m.pos[t].level > 1 && i < ENTRIES
    requires TableOk(m.mem, m.pos, t) && c !in m.pos
    ensures WellFormed(WithChild(m, t, i, c, flags).mem, WithChild(m, t, i, c, flags).pos)
    ensures SameOutside(m.mem, WithChild(m, t, i, c, flags).mem, m.pos, m.pos[t])
  {
    var m' := WithChild(m, t, i, c, flags);
    InsideSelf(m.pos[t]);
    forall f | f in m'.pos ensures TableOk(m'.mem, m'.pos, f) {
      if f != c {
        assert TableOk(m.mem, m.pos, f);
      }
    }
    forall f | f in m.pos && !Inside(m.pos[f], m.pos[t]) ensures SameAt(m.mem, m'.mem, f) {
      assert TableOk(m.mem, m.pos, f);
    }
  }

  lemma WithChildSound(m: Machine, t: nat, i: nat, c: nat, flags: nat)
    requires Sound(m) && t in m.pos && m.pos[t].level > 1 && i < ENTRIES
    requires TableOk(m.mem, m.pos, t) && m.mem[t][i] == UNUSED && c in m.free
    ensures Grows(m, WithChild(m, t, i, c, flags), m.pos[t])
    ensures IsChild(WithChild(m, t, i, c, flags).pos, t, i, c)
  {
    hide WellFormed, Rooted, RootsThere, SameOutside;
    var m' := WithChild(m, t, i, c, flags);
    assert c !in m.pos && c != t;
    ChildInside(m'.pos, t, i, c);
    WithChildRooted(m, t, i, c, flags);
    WithChildWellFormed(m, t, i, c, flags);
  }

  lemma WithChildMapped(m: Machine, t: nat, i: nat, c: nat, flags: nat, start: nat)
    requires Sound(m) && t in m.pos && m.pos[t].level > 1 && i < ENTRIES
    requires TableOk(m.mem, m.pos, t) && m.mem[t][i] == UNUSED && c in m.free
    ensures Mapped(m, WithChild(m, t, i, c, flags), t, start, [], flags)
  {
    hide Rooted, RootsThere;
    var m' := WithChild(m, t, i, c, flags);
    assert c !in m.pos && c != t;
    forall p: nat, d: nat | Owns(m.pos[t], p)
      ensures Changed(View(m.mem, t, m.pos[t].level, p, d), View(m'.mem, t, m.pos[t].level, p, d), d, None, flags)
    {
      var j := Index(p, m.pos[t].level);
      var e := m.mem[t][j];
      if j == i {
        assert View(m'.mem, c, m.pos[t].level - 1, p, d) == None;
      } else if e != UNUSED {
        assert IsChild(m.pos, t, j, e.frame);
        ChildOwns(m.pos, t, j, e.frame, p);
        forall f | f in m.pos && OnPath(m.pos[f], m.pos[e.frame], p) ensures SameAt(m.mem, m'.mem, f) {
          assert TableOk(m.mem, m.pos, f);
        }
        TranslateKept(m.mem, m'.mem, m.pos, e.frame, p, d);
      }
    }
  }

  /** A table like `old'` with the entries from `si` on set to the frames `ts`. */
  predicate EntriesSet(old': seq<Entry>, new': seq<Entry>, si: nat, ts: seq<nat>, flags: nat)
  {
    && |old'| == |new'| == ENTRIES && si + |ts| <= ENTRIES
    && (forall j | 0 <= j < ENTRIES ::
          new'[j] == if si <= j < si + |ts| then Entry(ts[j - si], flags) else old'[j])
  }

  /** Rewriting a level-1 table moves no table. */
  lemma LeafRooted(m: Machine, t: nat, table: seq<Entry>)
    requires Sound(m) && t in m.pos && m.pos[t].level == 1
    ensures Rooted(m.mem[t := table], m.pos)
  {
    forall c | c in m.pos && m.pos[c].root != c ensures HasParent(m.mem[t := table], m.pos, c) {
      assert TableOk(m.mem, m.pos, c);
      var f :| ParentOf(m.mem, m.pos, f, c);
      assert ParentOf(m.mem[t := table], m.pos, f, c);
    }
  }

  /** Setting entries of a level-1 table maps the pages they stand for. */
  lemma LeafMapped(m: Machine, t: nat, table: seq<Entry>, free: set<nat>, start: nat, ts: seq<nat>, flags: nat)
    requires Sound(m) && t in m.pos && m.pos[t].level == 1 && TableOk(m.mem, m.pos, t)
    requires Owns(m.pos[t], start) && EntriesSet(m.mem[t], table, Index(start, 1), ts, flags)
    requires free <= m.free && forall k | 0 <= k < |ts| :: Entry(ts[k], flags) != UNUSED
    ensures Grows(m, Machine(m.mem[t := table], m.pos, free), m.pos[t])
    ensures Mapped(m, Machine(m.mem[t := table], m.pos, free), t, start, ts, flags)
  {
    var m' := Machine(m.mem[t := table], m.pos, free);
    InsideSelf(m.pos[t]);
    LeafRooted(m, t, table);
    forall f | f in m'.pos ensures TableOk(m'.mem, m'.pos, f) {
      assert TableOk(m.mem, m.pos, f);
    }
    forall f | f in m.pos && !Inside(m.pos[f], m.pos[t]) ensures SameAt(m.mem, m'.mem, f) {
      assert TableOk(m.mem, m.pos, f);
    }
    LevelOne(start);
    forall p: nat, d: nat | Owns(m.pos[t], p)
      ensures Changed(View(m.mem, t, 1, p, d), View(m'.mem, t, 1, p, d), d, Target(start, ts, flags, p), flags)
    {
      LevelOne(p);
      NumDown(p, 1);
      NumDown(start, 1);
    }
  }

  // ----------------------------------------------------------- empty tables

  /** `!is_table_empty`. */
  ghost predicate NonEmpty(mem: Memory, f: nat)
  {
    f in mem && exists i :: 0 <= i < |mem[f]| && mem[f][i] != UNUSED
  }

  /** No table but roots and possibly `x` is empty. */
  ghost predicate NoneEmpty(m: Machine, x: nat)
  {
    forall f | f in m.pos && f != x && m.pos[f].root != f :: NonEmpty(m.mem, f)
  }

  /** Every empty table, roots and possibly `x` aside, was there and empty before. */
  ghost predicate NoNewEmpty(m: Machine, m': Machine, x: nat)
  {
    forall f | f in m'.pos && f != x && m'.pos[f].root != f ::
      NonEmpty(m'.mem, f) || (f in m.pos && m.pos[f].root != f && !NonEmpty(m.mem, f))
  }

  lemma NoneEmptyStays(m: Machine, m': Machine, x: nat)
    requires NoneEmpty(m, x) && NoNewEmpty(m, m', x)
    ensures NoneEmpty(m', x)
  {
  }

  lemma NoNewEmptyTrans(m: Machine, m1: Machine, m2: Machine, x: nat)
    requires NoNewEmpty(m, m1, x) && NoNewEmpty(m1, m2, x)
    ensures NoNewEmpty(m, m2, x)
  {
    hide NonEmpty;
  }

  // ------------------------------------------------------------ the request

  /** A half-open range of pages or frames. */
  datatype Extent = Extent(start: nat, end: nat)

  /** The frames `ts` chosen for the pages from `start` on: the same numbers in kernel space, the
      given frames one for one if there are any, and otherwise distinct frames from the allocator. */
  ghost predicate Targets(space: Space, frames: Extent, start: nat, ts: seq<nat>, free: set<nat>, free': set<nat>)
  {
    match space
    case Kernel => forall k | 0 <= k < |ts| :: ts[k] == start + k
    case User =>
      if frames.start < frames.end then
        |ts| <= frames.end - frames.start && forall k | 0 <= k < |ts| :: ts[k] == frames.start + k
      else
        Distinct(ts) && forall k | 0 <= k < |ts| :: ts[k] in free && ts[k] !in free'
  }

  /** No entry to be written reads as unused: that is how frame 0 without flags would. */
  predicate Legible(space: Space, frames: Extent, pages: Extent, flags: nat)
  {
    flags != 0
    || (match space
        case Kernel => pages.start > 0
        case User => frames.start < frames.end ==> frames.start > 0)
  }

  /** The frames behind pages that come from the allocator. */
  ghost function Taken(space: Space, frames: Extent, ts: seq<nat>): set<nat>
  {
    if space == User && frames.start >= frames.end then Elements(ts) else {}
  }

  /** What has left the allocator is in new tables or behind the pages, and not in both. */
  ghost predicate Accounts(m: Machine, m': Machine, space: Space, frames: Extent, ts: seq<nat>)
  {
    && m.pos.Keys <= m'.pos.Keys && m'.pos.Keys - m.pos.Keys <= m.free
    && m'.free == m.free - (m'.pos.Keys - m.pos.Keys) - Taken(space, frames, ts)
    && Taken(space, frames, ts) !! m'.pos.Keys
  }

  lemma AccountsTrans(
    m: Machine, m1: Machine, m2: Machine, space: Space, frames: Extent, frames': Extent, ts: seq<nat>, us: seq<nat>)
    requires Accounts(m, m1, space, frames, ts) && Accounts(m1, m2, space, frames', us)
    requires frames.start < frames.end <==> frames'.start < frames'.end
    ensures Accounts(m, m2, space, frames, ts + us)
  {
    assert m2.pos.Keys - m.pos.Keys == (m2.pos.Keys - m1.pos.Keys) + (m1.pos.Keys - m.pos.Keys);
    assert Taken(space, frames, ts + us) == Taken(space, frames, ts) + Taken(space, frames', us);
  }

  /** Explicit frames and pages are equally many. */
  predicate Lockstep(frames: Extent, pages: Extent)
  {
    && frames.start <= frames.end && pages.start <= pages.end
    && (frames.start == frames.end || frames.end - frames.start == pages.end - pages.start)
  }

  function AdvanceFrames(frames: Extent, n: nat): Extent
  {
    if frames.end > frames.start then Extent(frames.start + n, frames.end) else frames
  }

  lemma TargetsConcat(
    space: Space, frames: Extent, pages: Extent, ts: seq<nat>, us: seq<nat>, f0: set<nat>, f1: set<nat>, f2: set<nat>)
    requires Lockstep(frames, pages) && |ts| < pages.end - pages.start
    requires |us| <= pages.end - (pages.start + |ts|)
    requires f2 <= f1 <= f0
    requires Targets(space, frames, pages.start, ts, f0, f1)
    requires Targets(space, AdvanceFrames(frames, |ts|), pages.start + |ts|, us, f1, f2)
    ensures Targets(space, frames, pages.start, ts + us, f0, f2)
  {
    if space == User && frames.start == frames.end {
      forall x | x in ts ensures x !in us {
        var i :| 0 <= i < |ts| && ts[i] == x;
        assert forall k | 0 <= k < |us| :: us[k] in f1;
      }
      DistinctConcat(ts, us);
    }
  }
}
