/** Copying a hierarchy of page tables to fresh frames. */
module Copying {
  import opened PageIndex
  import opened PageTables

  /** `sub` lays out a hierarchy with top `t` placed at `q`. */
  ghost predicate Subtree(mem: Memory, sub: Layout, t: nat, q: Pos)
  {
    && t in sub && sub[t] == q && WellFormed(mem, sub)
    && (forall f, g | f in sub && g in sub && sub[f] == sub[g] :: f == g)
    && (forall c | c in sub && c != t :: HasParent(mem, sub, c))
    && (forall f | f in sub :: Inside(sub[f], q) && (f != t ==> sub[f].level < q.level))
  }

  /** Nothing but `t` and frames that were free has changed. */
  ghost predicate Untouched(m: Machine, mem': Memory, t: nat)
  {
    forall f | f in m.mem && f !in m.free && f != t :: SameAt(m.mem, mem', f)
  }

  ghost predicate SameTranslation(mem: Memory, s: nat, mem': Memory, t: nat, q: Pos)
  {
    forall p: nat, d: nat | Owns(q, p) :: View(mem', t, q.level, p, d) == View(mem, s, q.level, p, d)
  }

  /** The hierarchy at `s` has been copied to `t`, and all frames taken from the allocator are in the copy. */
  ghost predicate CopyDone(m: Machine, mem': Memory, free': set<nat>, s: nat, t: nat, q: Pos, sub: Layout)
  {
    && Subtree(mem', sub, t, q) && t !in free'
    && free' == m.free - (sub.Keys - {t}) && (forall f | f in sub && f != t :: f in m.free)
    && Untouched(m, mem', t) && SameTranslation(m.mem, s, mem', t, q)
    && (NonEmpty(m.mem, s) ==> NonEmpty(mem', t))
    && (NoneEmpty(m, 0) ==> forall f | f in sub && f != t :: NonEmpty(mem', f))
  }

  /** Entry `j` of the source has been dealt with. */
  ghost predicate EntryCopied(mem: Memory, s: nat, mem': Memory, t: nat, q: Pos, sub: Layout, j: nat)
    requires q.level > 1 && s in mem && t in mem' && |mem[s]| == |mem'[t]| == ENTRIES && j < ENTRIES
  {
    if mem[s][j] == UNUSED then mem'[t][j] == UNUSED
    else
      && mem'[t][j] != UNUSED && mem'[t][j].flags == mem[s][j].flags
      && mem'[t][j].frame in sub && sub[mem'[t][j].frame] == ChildPos(q, j)
      && SameTranslation(mem, mem[s][j].frame, mem', mem'[t][j].frame, ChildPos(q, j))
  }

  /** `c` hangs below another copied table or below one of the entries of `t` done so far. */
  ghost predicate Hangs(mem': Memory, t: nat, q: Pos, sub: Layout, i: nat, c: nat)
    requires q.level > 1 && t in mem' && |mem'[t]| == ENTRIES && i <= ENTRIES && c in sub
  {
    HasParent(mem', sub, c)
    || exists j :: 0 <= j < i && mem'[t][j] != UNUSED && mem'[t][j].frame == c && sub[c] == ChildPos(q, j)
  }

  ghost predicate UnderSome(a: Pos, q: Pos, i: nat)
    requires q.level > 1
  {
    exists j :: 0 <= j < i && Inside(a, ChildPos(q, j))
  }

  /** The first `i` entries have been dealt with; `sub` lays out the copies below them. */
  ghost predicate Partial(m: Machine, mem': Memory, free': set<nat>, s: nat, t: nat, q: Pos, i: nat, sub: Layout)
  {
    && q.level > 1 && i <= ENTRIES && t !in free' && free' == m.free - sub.Keys
    && s in m.mem && t in mem' && |m.mem[s]| == |mem'[t]| == ENTRIES
    && WellFormed(mem', sub)
    && (forall f | f in sub :: f != t && f in m.free && UnderSome(sub[f], q, i))
    && (forall f, g | f in sub && g in sub && sub[f] == sub[g] :: f == g)
    && (forall c | c in sub :: Hangs(mem', t, q, sub, i, c))
    && (forall j | 0 <= j < i :: EntryCopied(m.mem, s, mem', t, q, sub, j))
    && Untouched(m, mem', t)
    && (NoneEmpty(m, 0) ==> forall f | f in sub :: NonEmpty(mem', f))
  }

  // ------------------------------------------------------------------ leaf

  lemma LeafCopied(m: Machine, s: nat, t: nat, q: Pos)
    requires Sound(m) && s in m.pos && m.pos[s].level == 1 == q.level && TableOk(m.mem, m.pos, s) && t !in m.pos
             && t !in m.free
    ensures CopyDone(m, m.mem[t := m.mem[s]], m.free, s, t, q, map[t := q])
  {
    hide Rooted, RootsThere;
    InsideSelf(q);
    var mem', sub := m.mem[t := m.mem[s]], map[t := q];
    assert TableOk(mem', sub, t);
    assert SameTranslation(m.mem, s, mem', t, q);
  }

  // ------------------------------------------------------------------- end

  /** All entries done: with `t` on top, the copies form a hierarchy. */
  lemma PartialDone(m: Machine, mem': Memory, free': set<nat>, s: nat, t: nat, q: Pos, sub: Layout)
    requires Sound(m) && s in m.pos && m.pos[s].level == q.level && m.pos[s].num == q.num
    requires Partial(m, mem', free', s, t, q, ENTRIES, sub)
    ensures CopyDone(m, mem', free', s, t, q, sub[t := q])
  {
    hide Sound, WellFormed, Hangs, Untouched, View;
    var all := sub[t := q];
    DoneWellFormed(m, mem', free', s, t, q, sub);
    forall f | f in all ensures Inside(all[f], q) && (f != t ==> all[f].level < q.level) {
      if f == t {
        InsideSelf(q);
      } else {
        assert UnderSome(sub[f], q, ENTRIES);
        var j :| 0 <= j < ENTRIES && Inside(sub[f], ChildPos(q, j));
        UnderChild(q, j, sub[f]);
      }
    }
    forall c | c in all && c != t ensures HasParent(mem', all, c) {
      DoneParent(m, mem', free', s, t, q, sub, c);
    }
    forall p: nat, d: nat | Owns(q, p) ensures View(mem', t, q.level, p, d) == View(m.mem, s, q.level, p, d) {
      DoneView(m, mem', free', s, t, q, sub, p, d);
    }
    if NonEmpty(m.mem, s) {
      var j :| 0 <= j < |m.mem[s]| && m.mem[s][j] != UNUSED;
      assert EntryCopied(m.mem, s, mem', t, q, sub, j);
    }
  }

  lemma DoneWellFormed(m: Machine, mem': Memory, free': set<nat>, s: nat, t: nat, q: Pos, sub: Layout)
    requires Partial(m, mem', free', s, t, q, ENTRIES, sub)
    ensures WellFormed(mem', sub[t := q])
  {
    hide UnderSome, Hangs, Untouched, NoneEmpty, NonEmpty, SameTranslation;
    var all := sub[t := q];
    forall f | f in all ensures TableOk(mem', all, f) {
      if f == t {
        forall j | 0 <= j < ENTRIES ensures mem'[t][j] == UNUSED || IsChild(all, t, j, mem'[t][j].frame) {
          assert EntryCopied(m.mem, s, mem', t, q, sub, j);
        }
      } else {
        assert TableOk(mem', sub, f);
      }
    }
  }

  lemma DoneParent(m: Machine, mem': Memory, free': set<nat>, s: nat, t: nat, q: Pos, sub: Layout, c: nat)
    requires Partial(m, mem', free', s, t, q, ENTRIES, sub) && c in sub
    ensures HasParent(mem', sub[t := q], c)
  {
    hide WellFormed, UnderSome, EntryCopied, Untouched, NoneEmpty, NonEmpty, HasParent;
    assert Hangs(mem', t, q, sub, ENTRIES, c);
    if HasParent(mem', sub, c) {
      ParentStays(mem', sub, t, q, c);
    } else {
      var j :| 0 <= j < ENTRIES && mem'[t][j] != UNUSED && mem'[t][j].frame == c && sub[c] == ChildPos(q, j);
      ParentOnTop(mem', sub, t, q, c, j);
    }
  }

  lemma ParentStays(mem: Memory, sub: Layout, t: nat, q: Pos, c: nat)
    requires HasParent(mem, sub, c) && t !in sub
    ensures HasParent(mem, sub[t := q], c)
  {
    var f :| ParentOf(mem, sub, f, c);
    assert ParentOf(mem, sub[t := q], f, c);
  }

  lemma ParentOnTop(mem: Memory, sub: Layout, t: nat, q: Pos, c: nat, j: nat)
    requires t in mem && |mem[t]| == ENTRIES && j < ENTRIES && q.level > 1 && t !in sub
    requires c in sub && sub[c] == ChildPos(q, j) && mem[t][j] != UNUSED && mem[t][j].frame == c
    ensures HasParent(mem, sub[t := q], c)
  {
    assert ParentOf(mem, sub[t := q], t, c);
  }

  lemma DoneView(m: Machine, mem': Memory, free': set<nat>, s: nat, t: nat, q: Pos, sub: Layout, p: nat, d: nat)
    requires Partial(m, mem', free', s, t, q, ENTRIES, sub) && Owns(q, p)
    ensures View(mem', t, q.level, p, d) == View(m.mem, s, q.level, p, d)
  {
    var j := Index(p, q.level);
    assert EntryCopied(m.mem, s, mem', t, q, sub, j);
    NumDown(p, q.level);
    assert Owns(ChildPos(q, j), p);
  }

  // ------------------------------------------------------------ each entry

  lemma PartialStart(m: Machine, s: nat, t: nat, q: Pos)
    requires Sound(m) && s in m.pos && TableOk(m.mem, m.pos, s) && q.level > 1
    requires t in m.mem && |m.mem[t]| == ENTRIES && t !in m.free
    ensures Partial(m, m.mem, m.free, s, t, q, 0, map[])
  {
  }

  lemma {:induction false} KeptBelow(mem: Memory, mem': Memory, sub: Layout, s: nat, f: nat, src: Memory, q: Pos)
    requires WellFormed(mem, sub) && f in sub && sub[f] == q && SameTranslation(src, s, mem, f, q)
    requires forall g | g in sub :: SameAt(mem, mem', g)
    ensures SameTranslation(src, s, mem', f, q)
  {
    forall p: nat, d: nat | Owns(q, p) ensures View(mem', f, q.level, p, d) == View(src, s, q.level, p, d) {
      TranslateKept(mem, mem', sub, f, p, d);
    }
  }

  lemma SkipEntry(m: Machine, mem': Memory, free': set<nat>, s: nat, t: nat, q: Pos, i: nat, sub: Layout)
    requires Partial(m, mem', free', s, t, q, i, sub) && i < ENTRIES && m.mem[s][i] == UNUSED
    ensures Partial(m, mem'[t := mem'[t][i := UNUSED]], free', s, t, q, i + 1, sub)
  {
    var mem2 := mem'[t := mem'[t][i := UNUSED]];
    forall f | f in sub ensures SameAt(mem', mem2, f) && UnderSome(sub[f], q, i + 1) {
      assert UnderSome(sub[f], q, i);
    }
    EarlierCopied(m, mem', free', s, t, q, i, sub, mem2, sub);
    SubKept(m, mem', free', s, t, q, i, sub, mem2);
    assert EntryCopied(m.mem, s, mem2, t, q, sub, i);
    forall j | 0 <= j < i + 1 ensures EntryCopied(m.mem, s, mem2, t, q, sub, j) {
    }
    forall f | f in m.mem && f !in m.free && f != t ensures SameAt(m.mem, mem2, f) {
      assert SameAt(m.mem, mem', f);
    }
  }

  /** Changes elsewhere leave the copies made so far in order. */
  lemma SubKept(
    m: Machine, mem': Memory, free': set<nat>, s: nat, t: nat, q: Pos, i: nat, sub: Layout, mem2: Memory)
    requires Partial(m, mem', free', s, t, q, i, sub)
    requires t in mem2 && |mem2[t]| == ENTRIES && mem2[t][..i] == mem'[t][..i]
    requires forall f | f in sub :: SameAt(mem', mem2, f)
    ensures WellFormed(mem2, sub) && forall c | c in sub :: Hangs(mem2, t, q, sub, i, c)
  {
    hide EntryCopied, Untouched, UnderSome;
    forall f | f in sub ensures TableOk(mem2, sub, f) {
      assert TableOk(mem', sub, f);
    }
    forall c | c in sub ensures Hangs(mem2, t, q, sub, i, c) {
      assert Hangs(mem', t, q, sub, i, c);
      if HasParent(mem', sub, c) {
        var f :| ParentOf(mem', sub, f, c);
        assert ParentOf(mem2, sub, f, c);
      } else {
        var j :| 0 <= j < i && mem'[t][j] != UNUSED && mem'[t][j].frame == c && sub[c] == ChildPos(q, j);
        assert mem2[t][j] == mem2[t][..i][j] == mem'[t][..i][j];
      }
    }
  }

  lemma EarlierCopied(
    m: Machine, mem': Memory, free': set<nat>, s: nat, t: nat, q: Pos, i: nat, sub: Layout, mem2: Memory, sub2: Layout)
    requires Partial(m, mem', free', s, t, q, i, sub) && Extends(sub, sub2)
    requires t in mem2 && |mem2[t]| == ENTRIES && mem2[t][..i] == mem'[t][..i]
    requires forall f | f in sub :: SameAt(mem', mem2, f)
    ensures forall j | 0 <= j < i :: EntryCopied(m.mem, s, mem2, t, q, sub2, j)
  {
    hide Hangs, Untouched, UnderSome;
    forall j | 0 <= j < i ensures EntryCopied(m.mem, s, mem2, t, q, sub2, j) {
      assert EntryCopied(m.mem, s, mem', t, q, sub, j);
      assert mem2[t][j] == mem2[t][..i][j] == mem'[t][..i][j] == mem'[t][j];
      if m.mem[s][j] != UNUSED {
        KeptBelow(mem', mem2, sub, m.mem[s][j].frame, mem'[t][j].frame, m.mem, ChildPos(q, j));
      }
    }
  }

  /** The memory once entry `i` points to the fresh frame `c`, whatever is in that frame. */
  ghost function Pointed(mem': Memory, t: nat, i: nat, c: nat, flags: nat, junk: seq<Entry>): Memory
    requires t in mem' && i < |mem'[t]|
  {
    mem'[c := junk][t := mem'[t][i := Entry(c, flags)]]
  }

  /** What a copy of the child leaves alone. */
  lemma ChildLeaves(
    m: Machine, mem': Memory, free': set<nat>, s: nat, t: nat, q: Pos, i: nat, sub: Layout, c: nat, flags: nat,
    junk: seq<Entry>, mem2: Memory)
    requires Partial(m, mem', free', s, t, q, i, sub) && i < ENTRIES && c in free'
    requires Untouched(Machine(Pointed(mem', t, i, c, flags, junk), m.pos, free' - {c}), mem2, c)
    ensures t in mem2 && mem2[t] == mem'[t][i := Entry(c, flags)] && mem2[t][..i] == mem'[t][..i]
    ensures forall f | f in sub :: SameAt(mem', mem2, f)
    ensures Untouched(m, mem2, t)
  {
    hide EntryCopied, Hangs, UnderSome;
    var m1 := Machine(Pointed(mem', t, i, c, flags, junk), m.pos, free' - {c});
    assert SameAt(m1.mem, mem2, t);
    forall f | f in sub ensures SameAt(mem', mem2, f) {
      assert TableOk(mem', sub, f);
      assert SameAt(m1.mem, mem2, f);
    }
    forall f | f in m.mem && f !in m.free && f != t ensures SameAt(m.mem, mem2, f) {
      assert SameAt(m.mem, mem', f);
      assert SameAt(m1.mem, mem2, f);
    }
  }

  lemma ApartPlaces(q: Pos, i: nat, a: Pos)
    requires q.level > 1 && UnderSome(a, q, i)
    ensures !Inside(a, ChildPos(q, i))
  {
  }

  lemma JoinedWellFormed(mem: Memory, sub: Layout, sub': Layout)
    requires WellFormed(mem, sub) && WellFormed(mem, sub') && sub.Keys !! sub'.Keys
    ensures WellFormed(mem, sub + sub')
  {
    forall f | f in sub + sub' ensures TableOk(mem, sub + sub', f) {
      if f in sub {
        assert TableOk(mem, sub, f);
      } else {
        assert TableOk(mem, sub', f);
      }
    }
  }

  lemma JoinedHangs(mem: Memory, t: nat, q: Pos, sub: Layout, sub': Layout, i: nat, d: nat, c: nat)
    requires q.level > 1 && t in mem && |mem[t]| == ENTRIES && i < ENTRIES && sub.Keys !! sub'.Keys
    requires mem[t][i].frame == c && mem[t][i] != UNUSED && c in sub' && sub'[c] == ChildPos(q, i)
    requires (d in sub && Hangs(mem, t, q, sub, i, d)) || (d in sub' && (d == c || HasParent(mem, sub', d)))
    ensures Hangs(mem, t, q, sub + sub', i + 1, d)
  {
    var all := sub + sub';
    if d in sub && HasParent(mem, sub, d) {
      var f :| ParentOf(mem, sub, f, d);
      assert ParentOf(mem, all, f, d);
    } else if d in sub && Hangs(mem, t, q, sub, i, d) {
      var j :| 0 <= j < i && mem[t][j] != UNUSED && mem[t][j].frame == d && sub[d] == ChildPos(q, j);
      assert all[d] == ChildPos(q, j);
    } else if d != c {
      var f :| ParentOf(mem, sub', f, d);
      assert ParentOf(mem, all, f, d);
    }
  }

  /** Tables that had their place keep it and their contents. */
  lemma PlacedKept(m: Machine, mem': Memory, t: nat, i: nat, c: nat, flags: nat, junk: seq<Entry>)
    requires Sound(m) && Untouched(m, mem', t) && t in mem' && i < |mem'[t]| && c in m.free && t !in m.pos
    ensures forall f | f in m.pos :: SameAt(m.mem, Pointed(mem', t, i, c, flags, junk), f)
  {
    hide Rooted, RootsThere;
    forall f | f in m.pos ensures SameAt(m.mem, Pointed(mem', t, i, c, flags, junk), f) {
      assert TableOk(m.mem, m.pos, f);
      assert SameAt(m.mem, mem', f);
    }
  }

  /** The source reads the same after the entry was written as before the copy began. */
  lemma SourceKept(
    m: Machine, mem': Memory, free': set<nat>, s: nat, t: nat, q: Pos, i: nat, sub: Layout, c: nat, flags: nat,
    junk: seq<Entry>)
    requires Sound(m) && Partial(m, mem', free', s, t, q, i, sub) && i < ENTRIES && c in free' && t !in m.pos
    requires s in m.pos && m.pos[s].level == q.level && m.pos[s].num == q.num && m.mem[s][i] != UNUSED
    ensures var m1 := Machine(Pointed(mem', t, i, c, flags, junk), m.pos, free' - {c});
            && Sound(m1) && m.mem[s][i].frame in m.pos
            && m.pos[m.mem[s][i].frame].level == q.level - 1
            && m.pos[m.mem[s][i].frame].num == ENTRIES * q.num + i
            && SameTranslation(m.mem, m.mem[s][i].frame, m1.mem, m.mem[s][i].frame, ChildPos(q, i))
  {
    hide EntryCopied, Hangs, UnderSome, RootsThere;
    var m1 := Machine(Pointed(mem', t, i, c, flags, junk), m.pos, free' - {c});
    var d := m.mem[s][i].frame;
    assert TableOk(m.mem, m.pos, s);
    assert IsChild(m.pos, s, i, d);
    PlacedKept(m, mem', t, i, c, flags, junk);
    SoundKept(m, m1);
    hide Sound;
    var below := q.level - 1;
    forall p: nat, l: nat | Owns(ChildPos(q, i), p) ensures View(m1.mem, d, below, p, l) == View(m.mem, d, below, p, l)
    {
      TranslateKept(m.mem, m1.mem, m.pos, d, p, l);
    }
  }

  lemma SoundKept(m: Machine, m1: Machine)
    requires Sound(m) && m1.pos == m.pos && m1.free <= m.free && forall f | f in m.pos :: SameAt(m.mem, m1.mem, f)
    ensures Sound(m1)
  {
    forall f | f in m1.pos ensures TableOk(m1.mem, m1.pos, f) {
      assert TableOk(m.mem, m.pos, f);
    }
    forall c | c in m1.pos && m1.pos[c].root != c ensures HasParent(m1.mem, m1.pos, c) {
      assert HasParent(m.mem, m.pos, c);
      var f :| ParentOf(m.mem, m.pos, f, c);
      assert ParentOf(m1.mem, m1.pos, f, c);
    }
  }

  /** One more entry, whose table has been copied. */
  lemma EntryJoined(
    m: Machine, mem': Memory, free': set<nat>, s: nat, t: nat, q: Pos, i: nat, sub: Layout, c: nat, flags: nat,
    junk: seq<Entry>, mem2: Memory, free2: set<nat>, sub': Layout)
    requires Sound(m) && Partial(m, mem', free', s, t, q, i, sub) && i < ENTRIES && c in free' && t !in m.pos
             && 0 !in m.free
    requires s in m.pos && m.pos[s].level == q.level && m.pos[s].num == q.num && m.mem[s][i] != UNUSED
    requires flags == m.mem[s][i].flags
    requires CopyDone(Machine(Pointed(mem', t, i, c, flags, junk), m.pos, free' - {c}), mem2, free2,
                      m.mem[s][i].frame, c, ChildPos(q, i), sub')
    ensures Partial(m, mem2, free2, s, t, q, i + 1, sub + sub')
  {
    hide Sound, WellFormed, EntryCopied, Hangs, UnderSome, Untouched, SameTranslation, TableOk, Inside, HasParent;
    ChildLeaves(m, mem', free', s, t, q, i, sub, c, flags, junk, mem2);
    SubKept(m, mem', free', s, t, q, i, sub, mem2);
    JoinedWellFormed(mem2, sub, sub');
    EarlierCopied(m, mem', free', s, t, q, i, sub, mem2, sub + sub');
    forall d | d in sub + sub' ensures Hangs(mem2, t, q, sub + sub', i + 1, d) {
      JoinedHangs(mem2, t, q, sub, sub', i, d, c);
    }
    JoinedPlaces(m, mem', free', s, t, q, i, sub, mem2, c, sub');
    assert free2 == m.free - (sub + sub').Keys;
    JoinedNonEmpty(m, mem', free', s, t, q, i, sub, c, flags, junk, mem2, free2, sub');
    LastCopied(m, mem', free', s, t, q, i, sub, c, flags, junk, mem2, free2, sub');
    forall j | 0 <= j < i + 1 ensures EntryCopied(m.mem, s, mem2, t, q, sub + sub', j) {
    }
  }

  lemma JoinedPlaces(
    m: Machine, mem': Memory, free': set<nat>, s: nat, t: nat, q: Pos, i: nat, sub: Layout, mem2: Memory,
    c: nat, sub': Layout)
    requires Partial(m, mem', free', s, t, q, i, sub) && Subtree(mem2, sub', c, ChildPos(q, i))
    ensures forall f | f in sub + sub' :: UnderSome((sub + sub')[f], q, i + 1)
    ensures forall f, g | f in sub + sub' && g in sub + sub' && (sub + sub')[f] == (sub + sub')[g] :: f == g
  {
    hide EntryCopied, Hangs, Untouched, WellFormed, Inside, HasParent;
    var all := sub + sub';
    forall f | f in all ensures UnderSome(all[f], q, i + 1) {
      if f !in sub' {
        assert UnderSome(sub[f], q, i);
      }
    }
    forall f, g | f in all && g in all && all[f] == all[g] ensures f == g {
      if f in sub' && g !in sub' {
        ApartPlaces(q, i, sub[g]);
      } else if g in sub' && f !in sub' {
        ApartPlaces(q, i, sub[f]);
      }
    }
  }

  lemma JoinedNonEmpty(
    m: Machine, mem': Memory, free': set<nat>, s: nat, t: nat, q: Pos, i: nat, sub: Layout, c: nat, flags: nat,
    junk: seq<Entry>, mem2: Memory, free2: set<nat>, sub': Layout)
    requires Sound(m) && Partial(m, mem', free', s, t, q, i, sub) && i < ENTRIES && c in free' && t !in m.pos
    requires s in m.pos && m.pos[s].level == q.level && m.pos[s].num == q.num && m.mem[s][i] != UNUSED
    requires CopyDone(Machine(Pointed(mem', t, i, c, flags, junk), m.pos, free' - {c}), mem2, free2,
                      m.mem[s][i].frame, c, ChildPos(q, i), sub')
    requires forall f | f in sub :: SameAt(mem', mem2, f)
    ensures NoneEmpty(m, 0) ==> forall f | f in sub + sub' :: NonEmpty(mem2, f)
  {
    hide EntryCopied, Hangs, UnderSome, Subtree, SameTranslation, Sound, Untouched, NonEmpty, WellFormed;
    if NoneEmpty(m, 0) {
      var m1 := Machine(Pointed(mem', t, i, c, flags, junk), m.pos, free' - {c});
      PlacedKept(m, mem', t, i, c, flags, junk);
      ChildNonEmpty(m, s, i);
      assert NoneEmpty(m1, 0) by { NonEmptyKept(m, m1); }
      NonEmptyAt(m, m1, m.mem[s][i].frame);
      forall f | f in sub + sub' ensures NonEmpty(mem2, f) {
        if f !in sub' {
          SameNonEmpty(mem', mem2, f);
        }
      }
    }
  }

  lemma SameNonEmpty(mem: Memory, mem': Memory, f: nat)
    requires SameAt(mem, mem', f) && NonEmpty(mem, f)
    ensures NonEmpty(mem', f)
  {
  }

  lemma NonEmptyAt(m: Machine, m1: Machine, f: nat)
    requires f in m.pos && NonEmpty(m.mem, f) && forall g | g in m.pos :: SameAt(m.mem, m1.mem, g)
    ensures NonEmpty(m1.mem, f)
  {
    SameNonEmpty(m.mem, m1.mem, f);
  }

  lemma NonEmptyKept(m: Machine, m1: Machine)
    requires m1.pos == m.pos && NoneEmpty(m, 0) && forall f | f in m.pos :: SameAt(m.mem, m1.mem, f)
    ensures NoneEmpty(m1, 0)
  {
    forall f | f in m1.pos && f != 0 && m1.pos[f].root != f ensures NonEmpty(m1.mem, f) {
      SameNonEmpty(m.mem, m1.mem, f);
    }
  }

  lemma ChildNonEmpty(m: Machine, s: nat, i: nat)
    requires Sound(m) && NoneEmpty(m, 0) && s in m.pos && m.pos[s].level > 1 && i < ENTRIES
    requires s in m.mem && |m.mem[s]| == ENTRIES && m.mem[s][i] != UNUSED
    ensures m.mem[s][i].frame in m.pos && NonEmpty(m.mem, m.mem[s][i].frame)
  {
    hide Rooted;
    var d := m.mem[s][i].frame;
    assert TableOk(m.mem, m.pos, s);
    assert IsChild(m.pos, s, i, d);
    assert m.pos[m.pos[s].root].level >= m.pos[s].level;
  }

  lemma LastCopied(
    m: Machine, mem': Memory, free': set<nat>, s: nat, t: nat, q: Pos, i: nat, sub: Layout, c: nat, flags: nat,
    junk: seq<Entry>, mem2: Memory, free2: set<nat>, sub': Layout)
    requires Sound(m) && Partial(m, mem', free', s, t, q, i, sub) && i < ENTRIES && c in free' && t !in m.pos
             && 0 !in m.free
    requires s in m.pos && m.pos[s].level == q.level && m.pos[s].num == q.num && m.mem[s][i] != UNUSED
    requires flags == m.mem[s][i].flags
    requires CopyDone(Machine(Pointed(mem', t, i, c, flags, junk), m.pos, free' - {c}), mem2, free2,
                      m.mem[s][i].frame, c, ChildPos(q, i), sub')
    requires t in mem2 && mem2[t] == mem'[t][i := Entry(c, flags)]
    ensures EntryCopied(m.mem, s, mem2, t, q, sub + sub', i)
  {
    hide Sound, WellFormed, Hangs, UnderSome, Untouched, TableOk, Inside, HasParent;
    SourceKept(m, mem', free', s, t, q, i, sub, c, flags, junk);
  }

  // ----------------------------------------------------- the copied space

  /** `m'` has one more address space, `copy`, on fresh frames; it translates every page as `root`
      does, and no table that was there has changed.  All frames taken are tables of the copy. */
  ghost predicate SpaceCopied(m: Machine, m': Machine, root: nat, copy: nat, depth: nat)
  {
    && Sound(m') && (NoneEmpty(m, 0) ==> NoneEmpty(m', 0)) && Extends(m.pos, m'.pos)
    && m'.free == m.free - (m'.pos.Keys - m.pos.Keys)
    && (forall f | f in m.pos :: SameAt(m.mem, m'.mem, f))
    && copy in m'.pos && m'.pos[copy] == Pos(copy, depth, 0)
    && (forall f | f in m'.pos && f !in m.pos :: f in m.free && m'.pos[f].root == copy)
    && SameTranslation(m.mem, root, m'.mem, copy, Pos(copy, depth, 0))
    && SameTranslation(m'.mem, root, m'.mem, copy, Pos(copy, depth, 0))
  }

  lemma JoinedRooted(m: Machine, mem': Memory, t: nat, q: Pos, sub: Layout)
    requires Sound(m) && t !in m.pos && q.root == t && Subtree(mem', sub, t, q)
    requires m.pos.Keys !! sub.Keys && forall f | f in m.pos :: SameAt(m.mem, mem', f)
    ensures Rooted(mem', m.pos + sub) && RootsThere(m.pos + sub)
  {
    hide WellFormed, HasParent;
    JoinedRoots(m, mem', t, q, sub);
    forall c | c in m.pos + sub && (m.pos + sub)[c].root != c ensures HasParent(mem', m.pos + sub, c) {
      JoinedParent(m, mem', t, q, sub, c);
    }
  }

  lemma JoinedRoots(m: Machine, mem': Memory, t: nat, q: Pos, sub: Layout)
    requires Sound(m) && t !in m.pos && q.root == t && Subtree(mem', sub, t, q) && m.pos.Keys !! sub.Keys
    ensures RootsThere(m.pos + sub)
    ensures forall f, g | f in m.pos + sub && g in m.pos + sub && (m.pos + sub)[f] == (m.pos + sub)[g] :: f == g
  {
    hide WellFormed, HasParent;
    forall f | f in m.pos ensures m.pos[f].root != t {
      assert m.pos[f].root in m.pos;
    }
  }

  lemma JoinedParent(m: Machine, mem': Memory, t: nat, q: Pos, sub: Layout, c: nat)
    requires Rooted(m.mem, m.pos) && q.root == t && Subtree(mem', sub, t, q) && m.pos.Keys !! sub.Keys
    requires forall f | f in m.pos :: SameAt(m.mem, mem', f)
    requires c in m.pos + sub && (m.pos + sub)[c].root != c
    ensures HasParent(mem', m.pos + sub, c)
  {
    hide WellFormed, Inside;
    if c in sub {
      var f :| ParentOf(mem', sub, f, c);
      assert ParentOf(mem', m.pos + sub, f, c);
    } else {
      assert HasParent(m.mem, m.pos, c);
      var f :| ParentOf(m.mem, m.pos, f, c);
      assert SameAt(m.mem, mem', f);
      assert ParentOf(mem', m.pos + sub, f, c);
    }
  }

  lemma CopyJoined(m: Machine, mem': Memory, free': set<nat>, root: nat, t: nat, depth: nat, sub: Layout)
    requires Sound(m) && root in m.pos && m.pos[root] == Pos(root, depth, 0)
    requires t !in m.pos && t !in m.free && t != 0 && CopyDone(m, mem', free', root, t, Pos(t, depth, 0), sub)
    ensures var m' := Machine(mem', m.pos + sub, free');
            && Sound(m') && (NoneEmpty(m, 0) ==> NoneEmpty(m', 0)) && m'.free <= m.free
            && (forall f | f in m.pos :: SameAt(m.mem, m'.mem, f))
            && SameTranslation(m'.mem, root, m'.mem, t, Pos(t, depth, 0))
  {
    hide Rooted, RootsThere, NonEmpty;
    var q := Pos(t, depth, 0);
    forall f | f in m.pos ensures SameAt(m.mem, mem', f) {
      assert TableOk(m.mem, m.pos, f);
    }
    JoinedRooted(m, mem', t, q, sub);
    forall f | f in m.pos ensures TableOk(mem', m.pos, f) {
      assert TableOk(m.mem, m.pos, f);
    }
    JoinedWellFormed(mem', m.pos, sub);
    var m' := Machine(mem', m.pos + sub, free');
    if NoneEmpty(m, 0) {
      forall f | f in m'.pos && f != 0 && m'.pos[f].root != f ensures NonEmpty(mem', f) {
        if f !in sub {
          SameNonEmpty(m.mem, mem', f);
        }
      }
    }
    forall p: nat, d: nat | Owns(q, p) ensures View(mem', t, depth, p, d) == View(mem', root, depth, p, d) {
      TranslateKept(m.mem, mem', m.pos, root, p, d);
    }
  }

  // ---------------------------------------------------------- independence

  /** A change to the tables of one address space, by mapping or unmapping. */
  ghost predicate ChangesOnly(m: Machine, m': Machine, r: nat)
  {
    && Sound(m') && r in m.pos && SameOutside(m.mem, m'.mem, m.pos, m.pos[r])
    && (forall f | f in m.pos && !Inside(m.pos[f], m.pos[r]) :: f in m'.pos && m'.pos[f] == m.pos[f])
  }

  lemma OtherSpaceKept(m: Machine, m': Machine, r: nat, t: nat)
    requires Sound(m) && ChangesOnly(m, m', r) && t in m.pos && m.pos[t].root != m.pos[r].root
    ensures t in m'.pos && m'.pos[t] == m.pos[t] && SameTranslation(m.mem, t, m'.mem, t, m.pos[t])
  {
    hide Rooted, RootsThere;
    forall p: nat, d: nat | Owns(m.pos[t], p)
      ensures View(m'.mem, t, m.pos[t].level, p, d) == View(m.mem, t, m.pos[t].level, p, d)
    {
      TranslateKept(m.mem, m'.mem, m.pos, t, p, d);
    }
  }
}
