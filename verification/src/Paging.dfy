/** Mapping, unmapping and copying page tables in place. */
module Paging {
  import opened Sequences
  import opened MemorySpaces
  import opened Arithmetic
  import opened PageIndex
  import opened PageTables
  import opened Unmapping
  import opened UnmapWalks
  import opened UnmapRanges
  import opened Copying

  /** Mapping the given pages below table `t` has been done: as many of them as lie in the table's
      region, from the first on, each to its frame, and nothing else changed. */
  ghost predicate MapDone(
    m: Machine, m': Machine, t: nat, frames: Extent, pages: Extent, space: Space, n: nat, ts: seq<nat>, flags: nat)
  {
    && t in m.pos && |ts| == n <= pages.end - pages.start
    && n == (if pages.end - pages.start <= Room(m.pos[t].level, m.pos[t].num, pages.start)
             then pages.end - pages.start else Room(m.pos[t].level, m.pos[t].num, pages.start))
    && Grows(m, m', m.pos[t]) && Mapped(m, m', t, pages.start, ts, flags)
    && Targets(space, frames, pages.start, ts, m.free, m'.free) && Accounts(m, m', space, frames, ts)
    && Fills(m, m', t, pages)
  }

  /** Mapping pages leaves no table empty that was not.  Mapping no page does nothing where the level-1
      table for it is there, and otherwise it makes that table and leaves it empty. */
  ghost predicate Fills(m: Machine, m': Machine, t: nat, pages: Extent)
    requires t in m.pos
  {
    if pages.start < pages.end then NoNewEmpty(m, m', 0) && NonEmpty(m'.mem, t)
    else if LeafOf(m.mem, t, m.pos[t].level, pages.start).Some? then m' == m
    else
      var leaf := LeafOf(m'.mem, t, m.pos[t].level, pages.start);
      leaf.Some? && EmptyNew(m, m', leaf.value)
  }

  /** Table `x` is new and the only new one that is empty. */
  ghost predicate EmptyNew(m: Machine, m': Machine, x: nat)
  {
    x in m'.pos && x !in m.pos && !NonEmpty(m'.mem, x) && NoNewEmpty(m, m', x)
  }

  /** The level-1 case. */
  lemma LeafDone(
    m: Machine, t: nat, table: seq<Entry>, free: set<nat>, frames: Extent, pages: Extent, space: Space,
    ts: seq<nat>, flags: nat)
    requires Sound(m) && t in m.pos && m.pos[t].level == 1 && TableOk(m.mem, m.pos, t)
    requires Owns(m.pos[t], pages.start) && pages.start <= pages.end && free == m.free - Taken(space, frames, ts)
    requires forall k | 0 <= k < |ts| :: Entry(ts[k], flags) != UNUSED
    requires |ts| == Min(pages.end - pages.start, ENTRIES - Index(pages.start, 1))
    requires EntriesSet(m.mem[t], table, Index(pages.start, 1), ts, flags)
    requires Targets(space, frames, pages.start, ts, m.free, free)
    ensures MapDone(m, Machine(m.mem[t := table], m.pos, free), t, frames, pages, space, |ts|, ts, flags)
  {
    var m' := Machine(m.mem[t := table], m.pos, free);
    LeafMapped(m, t, table, free, pages.start, ts, flags);
    LevelOne(pages.start);
    NumDown(pages.start, 1);
    assert Size(1) == ENTRIES;
    assert First(1, m.pos[t].num + 1) == ENTRIES * m.pos[t].num + ENTRIES;
    assert Accounts(m, m', space, frames, ts);
    LeafFills(m, t, table, free, pages, ts, flags);
  }

  lemma LeafFills(m: Machine, t: nat, table: seq<Entry>, free: set<nat>, pages: Extent, ts: seq<nat>, flags: nat)
    requires t in m.pos && m.pos[t].level == 1 && TableOk(m.mem, m.pos, t) && pages.start <= pages.end
    requires EntriesSet(m.mem[t], table, Index(pages.start, 1), ts, flags) && (ts == [] ==> free == m.free)
    requires |ts| == Min(pages.end - pages.start, ENTRIES - Index(pages.start, 1))
    requires forall k | 0 <= k < |ts| :: Entry(ts[k], flags) != UNUSED
    ensures Fills(m, Machine(m.mem[t := table], m.pos, free), t, pages)
  {
    var m' := Machine(m.mem[t := table], m.pos, free);
    if pages.start < pages.end {
      assert table[Index(pages.start, 1)] == Entry(ts[0], flags);
      assert NonEmpty(m'.mem, t);
      forall f | f in m'.pos && f != t ensures NonEmpty(m'.mem, f) <==> NonEmpty(m.mem, f) {
      }
    } else {
      assert table == m.mem[t];
      assert m'.mem == m.mem;
    }
  }

  /** The table below entry `i` of `t` is in place, empty at first if it had to be made. */
  ghost predicate TableReady(m: Machine, m': Machine, t: nat, i: nat, c: nat, flags: nat)
  {
    && t in m.pos && i < ENTRIES && IsChild(m'.pos, t, i, c) && TableOk(m'.mem, m'.pos, t)
    && m'.mem[t][i] != UNUSED && m'.mem[t][i].frame == c
    && Grows(m, m', m.pos[t]) && Mapped(m, m', t, 0, [], flags)
    && TableOk(m.mem, m.pos, t) && if m.mem[t][i] == UNUSED then JustMade(m, m', c) else m' == m
  }

  /** Table `c` is new and empty, and its frame is all that was taken. */
  ghost predicate JustMade(m: Machine, m': Machine, c: nat)
  {
    && c in m.free && c !in m.pos && m'.pos.Keys == m.pos.Keys + {c} && m'.free == m.free - {c}
    && c in m'.mem && m'.mem[c] == ZeroTable() && NoNewEmpty(m, m', c)
  }

  lemma ChildExists(m: Machine, t: nat, i: nat, flags: nat)
    requires Sound(m) && t in m.pos && m.pos[t].level > 1 && i < ENTRIES
    requires TableOk(m.mem, m.pos, t) && m.mem[t][i] != UNUSED
    ensures TableReady(m, m, t, i, m.mem[t][i].frame, flags)
  {
    assert IsChild(m.pos, t, i, m.mem[t][i].frame);
    GrowsRefl(m, m.pos[t]);
  }

  lemma ChildMade(m: Machine, t: nat, i: nat, c: nat, flags: nat)
    requires Sound(m) && t in m.pos && m.pos[t].level > 1 && i < ENTRIES
    requires TableOk(m.mem, m.pos, t) && m.mem[t][i] == UNUSED && c in m.free
    ensures TableReady(m, WithChild(m, t, i, c, flags), t, i, c, flags)
  {
    hide Rooted, RootsThere, SameOutside;
    WithChildSound(m, t, i, c, flags);
    WithChildMapped(m, t, i, c, flags, 0);
    ChildMadeNonEmpty(m, t, i, c, flags);
    hide WellFormed, Mapped, NoNewEmpty;
  }

  lemma ChildMadeNonEmpty(m: Machine, t: nat, i: nat, c: nat, flags: nat)
    requires t in m.pos && m.pos[t].level > 1 && i < ENTRIES && c !in m.pos && c in m.free && c != 0
    requires TableOk(m.mem, m.pos, t)
    ensures JustMade(m, WithChild(m, t, i, c, flags), c)
    ensures WithChild(m, t, i, c, flags).mem[t][i] == Entry(c, flags)
    ensures TableOk(WithChild(m, t, i, c, flags).mem, WithChild(m, t, i, c, flags).pos, t)
  {
    var m' := WithChild(m, t, i, c, flags);
    assert m'.mem[t][i] != UNUSED;
    forall f | f in m'.pos && f != c && f != t ensures NonEmpty(m'.mem, f) <==> NonEmpty(m.mem, f) {
    }
  }

  /** What one entry's share of a mapping amounts to for the table the entry is in. */
  ghost predicate EntryDone(
    m: Machine, m': Machine, t: nat, i: nat, frames: Extent, pages: Extent, space: Space, n: nat, ts: seq<nat>,
    flags: nat)
  {
    && t in m.pos && m.pos[t].level > 1 && |ts| == n <= pages.end - pages.start
    && n == (if pages.end - pages.start <= Room(m.pos[t].level - 1, ENTRIES * m.pos[t].num + i, pages.start)
             then pages.end - pages.start else Room(m.pos[t].level - 1, ENTRIES * m.pos[t].num + i, pages.start))
    && Grows(m, m', m.pos[t]) && Mapped(m, m', t, pages.start, ts, flags)
    && Targets(space, frames, pages.start, ts, m.free, m'.free) && Accounts(m, m', space, frames, ts)
    && Fills(m, m', t, pages)
  }

  lemma EntryMapped(
    m: Machine, m1: Machine, m2: Machine, t: nat, i: nat, c: nat, start: nat, ts: seq<nat>, flags: nat)
    requires TableReady(m, m1, t, i, c, flags) && Grows(m1, m2, m1.pos[c]) && Mapped(m1, m2, c, start, ts, flags)
    requires forall p | start <= p < start + |ts| :: Owns(m1.pos[c], p)
    ensures Grows(m, m2, m.pos[t]) && Mapped(m, m2, t, start, ts, flags)
  {
    hide Rooted, RootsThere, WellFormed, SameOutside;
    MappedUp(m1, m2, t, i, c, start, ts, flags);
    GrowsUp(m1, m2, t, i, c);
    hide Sound, Grows;
    assert m1.pos[t] == m.pos[t];
    GrowsTrans(m, m1, m2, m.pos[t]);
    assert Mapped(m, m1, t, start, [], flags);
    MappedTrans(m, m1, m2, t, start, [], ts, flags);
    assert [] + ts == ts;
  }

  /** What a mapping below entry `i` fills, it fills for the table of the entry. */
  lemma EntryFills(m: Machine, m1: Machine, m2: Machine, t: nat, i: nat, c: nat, pages: Extent, flags: nat)
    requires TableReady(m, m1, t, i, c, flags) && Grows(m1, m2, m1.pos[c]) && Fills(m1, m2, c, pages)
    requires i == Index(pages.start, m.pos[t].level) && m.pos[t].level > 1
    ensures Fills(m, m2, t, pages)
  {
    EntryKept(m, m1, m2, t, i, c, flags);
    hide Sound, Mapped, Index, Grows, TableOk, Fills, NonEmpty, JustMade;
    if m.mem[t][i] == UNUSED {
      MadeFills(m, m1, m2, t, i, c, pages);
    } else {
      UsedFills(m, m2, t, i, pages);
    }
  }

  lemma UsedFills(m: Machine, m2: Machine, t: nat, i: nat, pages: Extent)
    requires t in m.pos && m.pos[t].level > 1 && i == Index(pages.start, m.pos[t].level) && TableOk(m.mem, m.pos, t)
    requires m.mem[t][i] != UNUSED && SameAt(m.mem, m2.mem, t) && NonEmpty(m2.mem, t)
    requires m.mem[t][i].frame in m.pos && Fills(m, m2, m.mem[t][i].frame, pages)
    ensures Fills(m, m2, t, pages)
  {
    hide NoNewEmpty, NonEmpty, LeafOf, Index;
    LeafDown(m.mem, t, m.pos[t].level, pages.start);
    LeafDown(m2.mem, t, m.pos[t].level, pages.start);
  }

  lemma MadeFills(m: Machine, m1: Machine, m2: Machine, t: nat, i: nat, c: nat, pages: Extent)
    requires t in m.pos && m.pos[t].level > 1 && i == Index(pages.start, m.pos[t].level) && TableOk(m.mem, m.pos, t)
    requires m.mem[t][i] == UNUSED && JustMade(m, m1, c) && IsChild(m1.pos, t, i, c) && m1.pos[t] == m.pos[t]
    requires t in m2.mem && |m2.mem[t]| == ENTRIES && m2.mem[t][i] != UNUSED && m2.mem[t][i].frame == c
    requires NonEmpty(m2.mem, t) && Fills(m1, m2, c, pages)
    ensures Fills(m, m2, t, pages)
  {
    hide NoNewEmpty, NonEmpty, LeafOf, Index;
    if pages.start < pages.end {
      MadeThenFilled(m, m1, m2, c);
    } else {
      LeafDown(m.mem, t, m.pos[t].level, pages.start);
      LeafDown(m2.mem, t, m.pos[t].level, pages.start);
      MadeThenNone(m, m1, m2, c, pages);
    }
  }

  /** The table above is as it was when the mapping below it is done. */
  lemma EntryKept(m: Machine, m1: Machine, m2: Machine, t: nat, i: nat, c: nat, flags: nat)
    requires TableReady(m, m1, t, i, c, flags) && Grows(m1, m2, m1.pos[c])
    ensures SameAt(m1.mem, m2.mem, t) && NonEmpty(m2.mem, t) && |m1.mem[t]| == ENTRIES && m1.pos[t] == m.pos[t]
  {
    ChildInside(m1.pos, t, i, c);
    assert SameAt(m1.mem, m2.mem, t);
    assert m2.mem[t][i] != UNUSED;
  }

  lemma MadeThenFilled(m: Machine, m1: Machine, m2: Machine, c: nat)
    requires JustMade(m, m1, c) && NoNewEmpty(m1, m2, 0) && NonEmpty(m2.mem, c)
    ensures NoNewEmpty(m, m2, 0)
  {
  }

  /** A table made for no page stays empty at level 1; above, the empty one is further down. */
  lemma MadeThenNone(m: Machine, m1: Machine, m2: Machine, c: nat, pages: Extent)
    requires JustMade(m, m1, c) && c in m1.pos && m1.pos[c].level >= 1 && pages.start >= pages.end
    requires Fills(m1, m2, c, pages)
    ensures var leaf := LeafOf(m2.mem, c, m1.pos[c].level, pages.start);
            leaf.Some? && EmptyNew(m, m2, leaf.value)
  {
    hide Index;
    if m1.pos[c].level > 1 {
      var leaf := LeafOf(m2.mem, c, m1.pos[c].level, pages.start);
      assert m2.mem[c][Index(pages.start, m1.pos[c].level)] != UNUSED;
      assert NonEmpty(m2.mem, c);
    }
  }

  lemma EntryFromChild(
    m: Machine, m1: Machine, m2: Machine, t: nat, i: nat, c: nat, frames: Extent, pages: Extent, space: Space,
    n: nat, ts: seq<nat>, flags: nat)
    requires TableReady(m, m1, t, i, c, flags) && MapDone(m1, m2, c, frames, pages, space, n, ts, flags)
    requires Owns(m1.pos[c], pages.start) && pages.start <= pages.end && m.pos[t].level > 1
    requires i == Index(pages.start, m.pos[t].level)
    ensures EntryDone(m, m2, t, i, frames, pages, space, n, ts, flags)
  {
    hide Mapped, Fills, Grows, TableOk, Owns, First, Num, Index, Sound, Accounts, JustMade;
    RegionOwned(m1.pos[c], pages.start, n);
    EntryMapped(m, m1, m2, t, i, c, pages.start, ts, flags);
    EntryFills(m, m1, m2, t, i, c, pages, flags);
    ReadyAccounts(m, m1, t, i, c, space, frames, flags);
    AccountsTrans(m, m1, m2, space, frames, frames, [], ts);
    assert [] + ts == ts;
    GrowsFacts(m, m1, m.pos[t]);
    TargetsFrom(space, frames, pages.start, ts, m.free, m1.free, m2.free);
  }

  lemma ReadyAccounts(m: Machine, m': Machine, t: nat, i: nat, c: nat, space: Space, frames: Extent, flags: nat)
    requires TableReady(m, m', t, i, c, flags)
    ensures Accounts(m, m', space, frames, [])
  {
    hide Mapped, Grows, TableOk, NoNewEmpty;
  }

  lemma GrowsFacts(m: Machine, m': Machine, q: Pos)
    requires Grows(m, m', q)
    ensures Sound(m') && m'.free <= m.free && Extends(m.pos, m'.pos)
  {
  }

  lemma TargetsFrom(space: Space, frames: Extent, start: nat, ts: seq<nat>, f0: set<nat>, f1: set<nat>, f2: set<nat>)
    requires f1 <= f0 && Targets(space, frames, start, ts, f1, f2)
    ensures Targets(space, frames, start, ts, f0, f2)
  {
  }

  /** The loop has dealt with the entries before `i`: all pages before entry `i`'s region are mapped,
      and more are to come. */
  ghost predicate LoopAt(
    m: Machine, m': Machine, t: nat, i: nat, frames: Extent, pages: Extent, space: Space, ts: seq<nat>, flags: nat)
  {
    && t in m.pos && m.pos[t].level > 1 && Owns(m.pos[t], pages.start)
    && |ts| < pages.end - pages.start
    && Index(pages.start, m.pos[t].level) <= i <= ENTRIES
    && (if ts == [] then i == Index(pages.start, m.pos[t].level)
        else pages.start + |ts| == First(m.pos[t].level - 1, ENTRIES * m.pos[t].num + i) && NonEmpty(m'.mem, t))
    && Grows(m, m', m.pos[t]) && Mapped(m, m', t, pages.start, ts, flags)
    && Targets(space, frames, pages.start, ts, m.free, m'.free) && Accounts(m, m', space, frames, ts)
    && NoNewEmpty(m, m', 0)
  }

  lemma LoopStart(m: Machine, t: nat, frames: Extent, pages: Extent, space: Space, flags: nat)
    requires Sound(m) && t in m.pos && m.pos[t].level > 1 && Owns(m.pos[t], pages.start)
    requires Lockstep(frames, pages) && pages.start < pages.end
    ensures LoopAt(m, m, t, Index(pages.start, m.pos[t].level), frames, pages, space, [], flags)
  {
    hide Sound, Grows, NonEmpty, View, Index, Owns, First;
    GrowsRefl(m, m.pos[t]);
    assert Elements<nat>([]) == {};
  }

  /** Where the next page to map lies. */
  lemma LoopPlace(
    m: Machine, m': Machine, t: nat, i: nat, frames: Extent, pages: Extent, space: Space, ts: seq<nat>, flags: nat)
    requires LoopAt(m, m', t, i, frames, pages, space, ts, flags)
    ensures Num(pages.start + |ts|, m.pos[t].level - 1) == ENTRIES * m.pos[t].num + i
    ensures Sound(m') && t in m'.pos && m'.pos[t] == m.pos[t]
  {
    hide Sound, Mapped, Targets;
    if ts == [] {
      NumDown(pages.start, m.pos[t].level);
    } else {
      FirstNum(m.pos[t].level - 1, ENTRIES * m.pos[t].num + i);
    }
  }

  lemma LoopJoin(
    m: Machine, m1: Machine, m2: Machine, t: nat, i: nat, frames: Extent, pages: Extent, space: Space,
    ts: seq<nat>, n: nat, us: seq<nat>, flags: nat)
    requires Lockstep(frames, pages) && LoopAt(m, m1, t, i, frames, pages, space, ts, flags)
    requires EntryDone(m1, m2, t, i, AdvanceFrames(frames, |ts|), Extent(pages.start + |ts|, pages.end), space,
                       n, us, flags)
    requires m1.pos[t] == m.pos[t]
    ensures Grows(m, m2, m.pos[t]) && Mapped(m, m2, t, pages.start, ts + us, flags)
    ensures Targets(space, frames, pages.start, ts + us, m.free, m2.free) && Accounts(m, m2, space, frames, ts + us)
  {
    hide Mapped, Targets, Fills, NoNewEmpty, NonEmpty, WellFormed, SameOutside, First, Index;
    AccountsTrans(m, m1, m2, space, frames, AdvanceFrames(frames, |ts|), ts, us);
    hide Accounts;
    MappedTrans(m, m1, m2, t, pages.start, ts, us, flags);
    GrowsTrans(m, m1, m2, m.pos[t]);
    TargetsConcat(space, frames, pages, ts, us, m.free, m1.free, m2.free);
  }

  lemma LoopNext(
    m: Machine, m1: Machine, m2: Machine, t: nat, i: nat, frames: Extent, pages: Extent, space: Space,
    ts: seq<nat>, n: nat, us: seq<nat>, flags: nat)
    requires Lockstep(frames, pages) && LoopAt(m, m1, t, i, frames, pages, space, ts, flags) && i < ENTRIES
    requires EntryDone(m1, m2, t, i, AdvanceFrames(frames, |ts|), Extent(pages.start + |ts|, pages.end), space,
                       n, us, flags)
    requires m1.pos[t] == m.pos[t]
    ensures |ts + us| < pages.end - pages.start ==> LoopAt(m, m2, t, i + 1, frames, pages, space, ts + us, flags)
    ensures |ts + us| == pages.end - pages.start ==> MapDone(m, m2, t, frames, pages, space, |ts + us|, ts + us, flags)
    ensures |ts + us| <= pages.end - pages.start
  {
    hide Grows, Mapped, Targets, Accounts, NoNewEmpty, NonEmpty, First, Index, Owns;
    LoopJoin(m, m1, m2, t, i, frames, pages, space, ts, n, us, flags);
    NoNewEmptyTrans(m, m1, m2, 0);
    var level, num := m.pos[t].level, m.pos[t].num;
    FirstDown(level, num + 1);
    FirstGrows(level - 1, ENTRIES * num + i + 1, ENTRIES * num + ENTRIES);
    assert ENTRIES * (num + 1) == ENTRIES * num + ENTRIES;
    assert n > 0 by {
      LoopPlace(m, m1, t, i, frames, pages, space, ts, flags);
      NumRange(pages.start + |ts|, level - 1, ENTRIES * num + i);
    }
  }

  lemma FirstPlace(q: Pos, p: nat)
    requires Owns(q, p) && q.level > 1
    ensures Num(p, q.level - 1) == ENTRIES * q.num + Index(p, q.level)
  {
    NumDown(p, q.level);
  }

  /** Mapping no page ends with the first entry. */
  lemma NoneMapped(
    m: Machine, m': Machine, t: nat, i: nat, frames: Extent, pages: Extent, space: Space, n: nat, ts: seq<nat>,
    flags: nat)
    requires EntryDone(m, m', t, i, frames, pages, space, n, ts, flags) && pages.start == pages.end
             && Owns(m.pos[t], pages.start)
    ensures n == 0 && ts == [] && MapDone(m, m', t, frames, pages, space, n, ts, flags)
  {
    hide Grows, Mapped, Targets, Accounts, Fills;
    NumRange(pages.start, m.pos[t].level, m.pos[t].num);
  }

  lemma LoopExhausted(
    m: Machine, m': Machine, t: nat, frames: Extent, pages: Extent, space: Space, ts: seq<nat>, flags: nat)
    requires LoopAt(m, m', t, ENTRIES, frames, pages, space, ts, flags)
    ensures MapDone(m, m', t, frames, pages, space, |ts|, ts, flags)
  {
    hide Grows, Mapped, Targets, Accounts, NoNewEmpty, NonEmpty, First, Owns;
    FirstDown(m.pos[t].level, m.pos[t].num + 1);
    assert ENTRIES * (m.pos[t].num + 1) == ENTRIES * m.pos[t].num + ENTRIES;
  }

  class AddressSpaces {
    var mem: Memory
    var free: set<nat>
    ghost var pos: Layout

    ghost function State(): Machine
      reads this
    {
      Machine(mem, pos, free)
    }

    /** `frames::alloc(1)`: some free frame, or `None` where the allocator panics. */
    method AllocFrame() returns (f: Option<nat>)
      modifies this`free
      ensures f.None? ==> free == old(free) == {}
      ensures f.Some? ==> f.value in old(free) && free == old(free) - {f.value}
    {
      if free == {} {
        return None;
      }
      var x :| x in free;
      free := free - {x};
      f := Some(x);
    }

    method IdentityMapKernel(t: nat, pages: Extent, flags: nat) returns (n: nat, ghost ts: seq<nat>)
      requires t in mem && |mem[t]| == ENTRIES && pages.start <= pages.end
      modifies this`mem
      ensures n == |ts| == Min(pages.end - pages.start, ENTRIES - Index(pages.start, 1))
      ensures forall k | 0 <= k < n :: ts[k] == pages.start + k
      ensures t in mem && mem == old(mem)[t := mem[t]]
      ensures EntriesSet(old(mem)[t], mem[t], Index(pages.start, 1), ts, flags)
    {
      var si := Index(pages.start, 1);
      n := Min(pages.end - pages.start, ENTRIES - si);
      ts := [];
      var frame := pages.start;
      for count := 0 to n
        invariant t in mem && mem == old(mem)[t := mem[t]] && |ts| == count && frame == pages.start + count
        invariant forall k | 0 <= k < count :: ts[k] == pages.start + k
        invariant EntriesSet(old(mem)[t], mem[t], si, ts, flags)
      {
        mem := mem[t := mem[t][si + count := Entry(frame, flags)]];
        ts := ts + [frame];
        frame := frame + 1;
      }
    }

    method MapUser(t: nat, pages: Extent, flags: nat) returns (ok: bool, n: nat, ghost ts: seq<nat>)
      requires t in mem && |mem[t]| == ENTRIES && pages.start <= pages.end
      modifies this`mem, this`free
      ensures !ok ==> free == {}
      ensures ok ==>
                && free == old(free) - Elements(ts)
                && n == |ts| == Min(pages.end - pages.start, ENTRIES - Index(pages.start, 1))
                && Distinct(ts) && (forall k | 0 <= k < n :: ts[k] in old(free) && ts[k] !in free)
                && t in mem && mem == old(mem)[t := mem[t]]
                && EntriesSet(old(mem)[t], mem[t], Index(pages.start, 1), ts, flags)
    {
      var si := Index(pages.start, 1);
      n := Min(pages.end - pages.start, ENTRIES - si);
      ts := [];
      for count := 0 to n
        invariant t in mem && mem == old(mem)[t := mem[t]] && |ts| == count
        invariant free == old(free) - Elements(ts) && Distinct(ts)
        invariant forall k | 0 <= k < count :: ts[k] in old(free) && ts[k] !in free
        invariant EntriesSet(old(mem)[t], mem[t], si, ts, flags)
      {
        var frame := AllocFrame();
        if frame.None? {
          return false, n, ts;
        }
        mem := mem[t := mem[t][si + count := Entry(frame.value, flags)]];
        ts := ts + [frame.value];
      }
      ok := true;
    }

    /** Uses the given frames one for one; asking for one more than there are would panic. */
    method MapUserPhysical(t: nat, frames: Extent, pages: Extent, flags: nat) returns (n: nat, ghost ts: seq<nat>)
      requires t in mem && |mem[t]| == ENTRIES && pages.start <= pages.end
      requires Lockstep(frames, pages)
      requires frames.start < frames.end
      modifies this`mem
      ensures n == |ts| == Min(pages.end - pages.start, ENTRIES - Index(pages.start, 1))
      ensures forall k | 0 <= k < n :: ts[k] == frames.start + k
      ensures t in mem && mem == old(mem)[t := mem[t]]
      ensures EntriesSet(old(mem)[t], mem[t], Index(pages.start, 1), ts, flags)
    {
      var si := Index(pages.start, 1);
      n := Min(pages.end - pages.start, ENTRIES - si);
      ts := [];
      var next := frames.start;
      for count := 0 to n
        invariant t in mem && mem == old(mem)[t := mem[t]] && |ts| == count && next == frames.start + count
        invariant forall k | 0 <= k < count :: ts[k] == frames.start + k
        invariant EntriesSet(old(mem)[t], mem[t], si, ts, flags)
      {
        assert next < frames.end;
        mem := mem[t := mem[t][si + count := Entry(next, flags)]];
        ts := ts + [next];
        next := next + 1;
      }
    }
  
    /** Maps the pages of one level-1 table. */
    method MapLeaf(t: nat, frames: Extent, pages: Extent, space: Space, flags: nat)
      returns (ok: bool, n: nat, ghost ts: seq<nat>)
      requires Sound(State()) && t in pos && pos[t].level == 1 && Owns(pos[t], pages.start)
      requires Lockstep(frames, pages) && Legible(space, frames, pages, flags)
      modifies this`mem, this`free
      ensures !ok ==> free == {}
      ensures ok ==> MapDone(old(State()), State(), t, frames, pages, space, n, ts, flags)
    {
      hide Rooted, RootsThere, MapDone, EntriesSet;
      ghost var m := State();
      assert TableOk(mem, pos, t);
      ok := true;
      match space {
        case Kernel =>
          n, ts := IdentityMapKernel(t, pages, flags);
        case User =>
          if frames.start == frames.end {
            ok, n, ts := MapUser(t, pages, flags);
            if !ok {
              return;
            }
          } else {
            n, ts := MapUserPhysical(t, frames, pages, flags);
          }
      }
      assert State() == Machine(m.mem[t := mem[t]], m.pos, free);
      LeafDone(m, t, mem[t], free, frames, pages, space, ts, flags);
    }

    /** The table below entry `i` of `t`, made and zeroed if there is none. */
    method NextTable(t: nat, i: nat, flags: nat) returns (ok: bool, c: nat)
      requires Sound(State()) && t in pos && pos[t].level > 1 && i < ENTRIES
      requires TableOk(mem, pos, t)
      modifies this
      ensures !ok ==> free == {}
      ensures ok ==> TableReady(old(State()), State(), t, i, c, flags)
    {
      hide Sound, NoNewEmpty, Grows, Mapped;
      if mem[t][i] == UNUSED {
        ghost var m := State();
        var frame := AllocFrame();
        if frame.None? {
          return false, 0;
        }
        c := frame.value;
        ChildMade(m, t, i, c, flags);
        ghost var m' := WithChild(m, t, i, c, flags);
        mem := mem[c := ZeroTable()][t := mem[t][i := Entry(c, flags)]];
        pos := m'.pos;
      } else {
        c := mem[t][i].frame;
        ChildExists(State(), t, i, flags);
      }
      ok := true;
    }

    /** One turn of the loop over the entries of a table above level 1. */
    method MapEntry(t: nat, i: nat, frames: Extent, pages: Extent, space: Space, flags: nat, level: nat)
      returns (ok: bool, n: nat, ghost ts: seq<nat>)
      requires Sound(State()) && t in pos && pos[t].level == level > 1 && i < ENTRIES
      requires Num(pages.start, level - 1) == ENTRIES * pos[t].num + i
      requires Lockstep(frames, pages) && pages.start <= pages.end && Legible(space, frames, pages, flags)
      modifies this
      decreases level, 0, 0
      ensures !ok ==> free == {}
      ensures ok ==> EntryDone(old(State()), State(), t, i, frames, pages, space, n, ts, flags)
    {
      hide Mapped, EntryDone, MapDone, Rooted, RootsThere, SameOutside;
      ghost var m := State();
      assert TableOk(mem, pos, t);
      var c;
      ok, c := NextTable(t, i, flags);
      if !ok {
        return false, 0, [];
      }
      ghost var m1 := State();
      ok, n, ts := MapInTable(c, frames, pages, space, flags, level - 1);
      if ok {
        EntryFromChild(m, m1, State(), t, i, c, frames, pages, space, n, ts, flags);
      }
    }

    /** Maps pages below table `t`.  The answer is how many; not `ok` is the allocator's panic. */
    method MapInTable(t: nat, frames: Extent, pages: Extent, space: Space, flags: nat, level: nat)
      returns (ok: bool, n: nat, ghost ts: seq<nat>)
      requires Sound(State()) && t in pos && pos[t].level == level && Owns(pos[t], pages.start)
      requires Lockstep(frames, pages) && pages.start <= pages.end && Legible(space, frames, pages, flags)
      modifies this
      decreases level, 1
      ensures !ok ==> free == {}
      ensures ok ==> MapDone(old(State()), State(), t, frames, pages, space, n, ts, flags)
    {
      hide Mapped, Grows, MapDone, EntryDone, Targets, Owns;
      assert TableOk(mem, pos, t);
      if level == 1 {
        ok, n, ts := MapLeaf(t, frames, pages, space, flags);
        return;
      }
      ok, n, ts := MapEntries(t, frames, pages, space, flags, level);
    }

    /** The loop over the entries of a table above level 1. */
    method MapEntries(t: nat, frames: Extent, pages: Extent, space: Space, flags: nat, level: nat)
      returns (ok: bool, n: nat, ghost ts: seq<nat>)
      requires Sound(State()) && t in pos && pos[t].level == level > 1 && Owns(pos[t], pages.start)
      requires Lockstep(frames, pages) && pages.start <= pages.end && Legible(space, frames, pages, flags)
      modifies this
      decreases level, 0, 1
      ensures !ok ==> free == {}
      ensures ok ==> MapDone(old(State()), State(), t, frames, pages, space, n, ts, flags)
    {
      hide Sound, Mapped, Grows, MapDone, EntryDone, Targets, Owns, LoopAt, Num, Index;
      ghost var m := State();
      ghost var num := pos[t].num;
      if pages.start < pages.end {
        LoopStart(m, t, frames, pages, space, flags);
      }
      FirstPlace(m.pos[t], pages.start);
      var i := Index(pages.start, level);
      var cur, fr := pages, frames;
      n, ts := 0, [];
      while i < ENTRIES
        invariant i <= ENTRIES && n == |ts| && cur == Extent(pages.start + n, pages.end)
                  && fr == AdvanceFrames(frames, n)
        invariant pages.start < pages.end ==> LoopAt(m, State(), t, i, frames, pages, space, ts, flags)
        invariant if pages.start < pages.end then n < pages.end - pages.start
                  else State() == m && ts == [] && i == Index(pages.start, level)
      {
        ghost var m1 := State();
        if pages.start < pages.end {
          LoopPlace(m, m1, t, i, frames, pages, space, ts, flags);
        }
        var k; ghost var us;
        ok, k, us := MapEntry(t, i, fr, cur, space, flags, level);
        if !ok {
          return;
        }
        if pages.start < pages.end {
          LoopNext(m, m1, State(), t, i, frames, pages, space, ts, k, us, flags);
        } else {
          NoneMapped(m, State(), t, i, frames, pages, space, k, us, flags);
          assert ts + us == us;
        }
        EntryCount(m1, State(), t, i, fr, cur, space, k, us, flags);
        cur := Extent(cur.start + k, cur.end);
        n := n + k;
        ts := ts + us;
        if fr.end > fr.start {
          fr := Extent(fr.start + k, fr.end);
        }
        if cur.start >= cur.end {
          return true, n, ts;
        }
        i := i + 1;
      }
      LoopExhausted(m, State(), t, frames, pages, space, ts, flags);
      ok := true;
    }
  
    // ------------------------------------------------------------- unmap

    /** Gives a frame back; not `ok` is the allocator's double-free panic. */
    method FreeFrame(f: nat) returns (ok: bool)
      modifies this`free
      ensures ok == (f !in old(free))
      ensures free == old(free) + {f}
    {
      ok := f !in free;
      free := free + {f};
    }

    method ClearEntries(t: nat, si: nat, n: nat, freePhysical: bool) returns (ok: bool)
      requires t in mem && |mem[t]| == ENTRIES && si + n <= ENTRIES
      modifies this`mem, this`free
      ensures t in mem && mem == old(mem)[t := mem[t]]
      ensures Clearing(mem[t], free, ok) == Clear(old(mem)[t], old(free), si, n, freePhysical)
    {
      ghost var table := mem[t];
      for count := 0 to n
        invariant t in mem && mem == old(mem)[t := mem[t]]
        invariant Clearing(mem[t], free, true) == Clear(table, old(free), si, count, freePhysical)
      {
        var e := mem[t][si + count];
        if e != UNUSED {
          if freePhysical {
            ok := FreeFrame(e.frame);
            if !ok {
              ClearStops(table, old(free), si, count + 1, n, freePhysical);
              return;
            }
          }
          mem := mem[t := mem[t][si + count := UNUSED]];
        }
      }
      ok := true;
    }

    method IsTableEmpty(t: nat) returns (empty: bool)
      requires t in mem
      ensures empty == Empty(mem[t])
    {
      for i := 0 to |mem[t]|
        invariant forall j | 0 <= j < i :: mem[t][j] == UNUSED
      {
        if mem[t][i] != UNUSED {
          return false;
        }
      }
      empty := true;
    }

    /** One turn of the loop over the entries of a table above level 1, for an entry in use. */
    method UnmapEntry(t: nat, i: nat, pages: Extent, level: nat, freePhysical: bool)
      returns (ok: bool, n: nat, ghost gone: set<nat>)
      requires t in mem && |mem[t]| == ENTRIES && i < ENTRIES && mem[t][i] != UNUSED && level > 1
               && pages.start <= pages.end
      modifies this`mem, this`free
      decreases level, 0, 0
      ensures var c := old(mem)[t][i].frame;
              Walk(mem, free, gone, n, ok)
              == Swept(WalkTable(old(mem), old(free), c, level - 1, pages, freePhysical), t, i, c)
    {
      hide WalkTable;
      var c := mem[t][i].frame;
      ok, n, gone := UnmapInTable(c, pages, level - 1, freePhysical);
      if !ok || c !in mem || t !in mem || |mem[t]| != ENTRIES {
        return false, n, gone;
      }
      var empty := IsTableEmpty(c);
      if empty {
        ok := FreeFrame(c);
        mem := mem[t := mem[t][i := UNUSED]];
        gone := gone + {c};
      }
    }

    /** Unmaps pages below table `t`.  A walk that leaves the tables, or frees a frame twice, answers
        not `ok`. */
    method UnmapInTable(t: nat, pages: Extent, level: nat, freePhysical: bool)
      returns (ok: bool, n: nat, ghost gone: set<nat>)
      requires level >= 1 && pages.start <= pages.end
      modifies this`mem, this`free
      decreases level, 1
      ensures Walk(mem, free, gone, n, ok) == WalkTable(old(mem), old(free), t, level, pages, freePhysical)
    {
      gone := {};
      if t !in mem || |mem[t]| != ENTRIES {
        return false, 0, {};
      }
      if level == 1 {
        var si := Index(pages.start, 1);
        n := Min(pages.end - pages.start, ENTRIES - si);
        ok := ClearEntries(t, si, n, freePhysical);
      } else {
        ok, n, gone := UnmapEntries(t, pages, level, freePhysical);
      }
    }

    method UnmapEntries(t: nat, pages: Extent, level: nat, freePhysical: bool)
      returns (ok: bool, n: nat, ghost gone: set<nat>)
      requires t in mem && |mem[t]| == ENTRIES && level > 1 && pages.start <= pages.end
      modifies this`mem, this`free
      decreases level, 0, 1
      ensures Walk(mem, free, gone, n, ok)
           == WalkEntries(Walk(old(mem), old(free), {}, 0, true), t, level, Index(pages.start, level), pages,
                          freePhysical)
    {
      hide WalkEntries, WalkTable, Swept;
      var cur := pages;
      n, gone, ok := 0, {}, true;
      var i := Index(pages.start, level);
      while i < ENTRIES
        invariant i <= ENTRIES && cur.start <= cur.end && ok
        invariant WalkEntries(Walk(mem, free, gone, n, true), t, level, i, cur, freePhysical)
               == WalkEntries(Walk(old(mem), old(free), {}, 0, true), t, level, Index(pages.start, level), pages,
                              freePhysical)
      {
        ghost var w := Walk(mem, free, gone, n, true);
        if t !in mem || |mem[t]| != ENTRIES {
          WalkEnds(w, t, level, i, cur, freePhysical);
          return false, n, gone;
        }
        if mem[t][i] == UNUSED {
          WalkSkips(w, t, level, i, cur, freePhysical);
          i := i + 1;
          continue;
        }
        WalkEnters(w, t, level, i, cur, freePhysical);
        var k; ghost var g;
        ok, k, g := UnmapEntry(t, i, cur, level, freePhysical);
        cur := Extent(cur.start + k, cur.end);
        n := n + k;
        gone := gone + g;
        if !ok || cur.start >= cur.end {
          return;
        }
        i := i + 1;
      }
      WalkEnds(Walk(mem, free, gone, n, true), t, level, i, cur, freePhysical);
    }

    /** Unmaps pages of the address space with root `root`: the planned ones, which are those of the range
        if all their tables are there. */
    method Unmap(root: nat, depth: nat, pages: Extent, freePhysical: bool) returns (ok: bool)
      requires depth >= 1 && pages.start <= pages.end
      modifies this
      ensures State() == After(old(State()), WalkTable(old(mem), old(free), root, depth, pages, freePhysical))
      ensures Walkable(old(State()), root, depth, pages, freePhysical) ==>
                ok && TakenOut(old(State()), State(), root, PlanTable(old(mem), root, depth, pages).hits, freePhysical)
      ensures Ready(old(State()), root, depth, pages, freePhysical) ==>
                exists n: nat :: ok && UnmapDone(old(State()), State(), root, pages, n, freePhysical)
    {
      hide UnmapDone, Ready, Walkable, TakenOut, WalkTable, PlanTable;
      ghost var m := State();
      var n; ghost var gone;
      ok, n, gone := UnmapInTable(root, pages, depth, freePhysical);
      pos := pos - gone;
      if Ready(m, root, depth, pages, freePhysical) {
        WalkUnmaps(m, root, depth, pages, freePhysical);
        assert UnmapDone(m, State(), root, pages, n, freePhysical);
      }
      if Walkable(m, root, depth, pages, freePhysical) {
        WalkDoes(m, root, depth, pages, freePhysical);
      }
    }

    // -------------------------------------------------------------- copy

    /** A new address space: a zeroed root table on a fresh frame. */
    method NewSpace(depth: nat) returns (ok: bool, root: nat)
      requires Sound(State()) && depth >= 1
      modifies this
      ensures ok && NoneEmpty(old(State()), 0) ==> NoneEmpty(State(), 0)
      ensures ok ==> Sound(State()) && root in old(free) && free == old(free) - {root}
      ensures ok ==> pos == old(pos)[root := Pos(root, depth, 0)] && mem == old(mem)[root := ZeroTable()]
      ensures ok ==> forall p :: Translate(mem, root, depth, p) == None
      ensures !ok ==> free == old(free) == {}
    {
      hide Sound, NoneEmpty;
      ghost var m := State();
      var frame := AllocFrame();
      if frame.None? {
        return false, 0;
      }
      root := frame.value;
      mem := mem[root := ZeroTable()];
      pos := pos[root := Pos(root, depth, 0)];
      NewRoot(m, root, depth);
      ok := true;
    }

    /** Copies the hierarchy at `s` to the table `t`, whatever `t` holds. */
    method CopyTable(s: nat, t: nat, level: nat, ghost q: Pos) returns (ok: bool, ghost sub: Layout)
      requires Sound(State()) && s in pos && pos[s].level == level == q.level && pos[s].num == q.num
      requires t in mem && |mem[t]| == ENTRIES && t !in pos && t !in free
      modifies this`mem, this`free
      decreases level, 1
      ensures !ok ==> free == {}
      ensures ok ==> CopyDone(old(State()), mem, free, s, t, q, sub)
    {
      hide CopyDone, Rooted, RootsThere;
      ghost var m := State();
      assert TableOk(mem, pos, s);
      if level > 1 {
        ok, sub := CopyEntries(s, t, level, q);
      } else {
        CopyLeaf(s, t);
        LeafCopied(m, s, t, q);
        sub := map[t := q];
        ok := true;
      }
    }

    method CopyLeaf(s: nat, t: nat)
      requires s in mem && t in mem && s != t && |mem[s]| == |mem[t]| == ENTRIES
      modifies this`mem
      ensures mem == old(mem)[t := old(mem)[s]]
    {
      for i := 0 to ENTRIES
        invariant t in mem && mem == old(mem)[t := mem[t]] && |mem[t]| == ENTRIES
        invariant forall j | 0 <= j < i :: mem[t][j] == mem[s][j]
      {
        mem := mem[t := mem[t][i := mem[s][i]]];
      }
      assert mem[t] == old(mem)[s];
    }

    method CopyEntries(s: nat, t: nat, level: nat, ghost q: Pos) returns (ok: bool, ghost sub: Layout)
      requires Sound(State()) && s in pos && pos[s].level == level == q.level > 1 && pos[s].num == q.num
      requires TableOk(mem, pos, s) && t in mem && |mem[t]| == ENTRIES && t !in pos && t !in free
      modifies this`mem, this`free
      decreases level, 0
      ensures !ok ==> free == {}
      ensures ok ==> CopyDone(old(State()), mem, free, s, t, q, sub)
    {
      hide CopyDone, Partial, Sound;
      ghost var m := State();
      sub := map[];
      PartialStart(m, s, t, q);
      for i := 0 to ENTRIES
        invariant Partial(m, mem, free, s, t, q, i, sub)
      {
        PartialFacts(m, mem, free, s, t, q, i, sub);
        ghost var mem', free' := mem, free;
        if mem[s][i] == UNUSED {
          SkipEntry(m, mem, free, s, t, q, i, sub);
          mem := mem[t := mem[t][i := UNUSED]];
        } else {
          var frame := AllocFrame();
          if frame.None? {
            return false, sub;
          }
          var c, flags, d := frame.value, mem[s][i].flags, mem[s][i].frame;
          var junk: seq<Entry> := *;
          if |junk| != ENTRIES {
            junk := ZeroTable();
          }
          mem := mem[c := junk];
          mem := mem[t := mem[t][i := Entry(c, flags)]];
          SourceKept(m, mem', free', s, t, q, i, sub, c, flags, junk);
          ghost var below;
          ok, below := CopyTable(d, c, level - 1, ChildPos(q, i));
          if !ok {
            return;
          }
          EntryJoined(m, mem', free', s, t, q, i, sub, c, flags, junk, mem, free, below);
          sub := sub + below;
        }
      }
      PartialDone(m, mem, free, s, t, q, sub);
      sub := sub[t := q];
      ok := true;
    }

    /** A second address space that translates like the first. */
    method FromOther(root: nat, depth: nat) returns (ok: bool, copy: nat)
      requires Sound(State()) && root in pos && pos[root] == Pos(root, depth, 0)
      modifies this
      ensures !ok ==> free == {}
      ensures ok ==> SpaceCopied(old(State()), State(), root, copy, depth)
    {
      hide CopyDone, Sound, NoneEmpty;
      ghost var before, was := pos, State();
      RootLevel(was, root);
      ok, copy := NewSpace(depth);
      if !ok {
        return;
      }
      pos := before;
      ghost var m := State();
      NewRootApart(was, m, copy);
      ghost var sub;
      ok, sub := CopyTable(root, copy, depth, Pos(copy, depth, 0));
      if ok {
        CopyJoined(m, mem, free, root, copy, depth, sub);
        pos := before + sub;
        SpaceJoined(was, m, State(), root, copy, depth, sub);
      }
    }
  }

  lemma EntryCount(
    m: Machine, m': Machine, t: nat, i: nat, frames: Extent, pages: Extent, space: Space, n: nat, ts: seq<nat>,
    flags: nat)
    requires EntryDone(m, m', t, i, frames, pages, space, n, ts, flags)
    ensures |ts| == n
  {
  }

  // ------------------------------------------------------------ new spaces

  /** The machine with a zeroed root table on the frame `root`. */
  ghost function WithRoot(m: Machine, root: nat, depth: nat): Machine
  {
    Machine(m.mem[root := ZeroTable()], m.pos[root := Pos(root, depth, 0)], m.free - {root})
  }

  lemma NewRoot(m: Machine, root: nat, depth: nat)
    requires Sound(m) && root in m.free && depth >= 1
    ensures Sound(WithRoot(m, root, depth)) && NoNewEmpty(m, WithRoot(m, root, depth), 0)
    ensures NoneEmpty(m, 0) ==> NoneEmpty(WithRoot(m, root, depth), 0)
  {
    hide NonEmpty, WellFormed, TableOk, HasParent, ZeroTable;
    var m' := WithRoot(m, root, depth);
    NewRootWellFormed(m, root, depth);
    NewRootPlaces(m.pos, root, depth);
    forall c | c in m'.pos && m'.pos[c].root != c
      ensures HasParent(m'.mem, m'.pos, c) && (NonEmpty(m'.mem, c) <==> NonEmpty(m.mem, c))
    {
      NewRootParent(m, root, depth, c);
    }
    hide RootsThere;
  }

  lemma NewRootPlaces(pos: Layout, root: nat, depth: nat)
    requires RootsThere(pos) && root !in pos
    requires forall f, g | f in pos && g in pos && pos[f] == pos[g] :: f == g
    ensures var pos' := pos[root := Pos(root, depth, 0)];
            && RootsThere(pos') && forall f, g | f in pos' && g in pos' && pos'[f] == pos'[g] :: f == g
  {
    forall f | f in pos ensures pos[f].root != root {
      assert pos[f].root in pos;
    }
  }

  lemma NewRootWellFormed(m: Machine, root: nat, depth: nat)
    requires WellFormed(m.mem, m.pos) && root !in m.pos && depth >= 1
    ensures WellFormed(WithRoot(m, root, depth).mem, WithRoot(m, root, depth).pos)
  {
    var m' := WithRoot(m, root, depth);
    forall f | f in m'.pos ensures TableOk(m'.mem, m'.pos, f) {
      if f != root {
        assert TableOk(m.mem, m.pos, f);
      }
    }
  }

  lemma NewRootParent(m: Machine, root: nat, depth: nat, c: nat)
    requires Rooted(m.mem, m.pos) && root !in m.pos && c in m.pos && m.pos[c].root != c
    ensures HasParent(WithRoot(m, root, depth).mem, WithRoot(m, root, depth).pos, c)
    ensures NonEmpty(WithRoot(m, root, depth).mem, c) <==> NonEmpty(m.mem, c)
  {
    var m' := WithRoot(m, root, depth);
    assert HasParent(m.mem, m.pos, c);
    var f :| ParentOf(m.mem, m.pos, f, c);
    assert ParentOf(m'.mem, m'.pos, f, c);
  }

  lemma RootLevel(m: Machine, root: nat)
    requires Sound(m) && root in m.pos
    ensures m.pos[root].level >= 1 && TableOk(m.mem, m.pos, root)
  {
    assert TableOk(m.mem, m.pos, root);
  }

  lemma NewRootApart(m: Machine, m': Machine, copy: nat)
    requires Sound(m) && copy in m.free
    requires m' == Machine(m.mem[copy := ZeroTable()], m.pos, m.free - {copy})
    ensures Sound(m') && (NoneEmpty(m, 0) ==> NoneEmpty(m', 0)) && copy !in m'.pos && copy != 0
    ensures forall f | f in m.pos :: SameAt(m.mem, m'.mem, f)
  {
    hide Rooted, RootsThere;
    forall f | f in m.pos ensures SameAt(m.mem, m'.mem, f) {
      assert TableOk(m.mem, m.pos, f);
    }
    SoundKept(m, m');
    if NoneEmpty(m, 0) {
      NonEmptyKept(m, m');
    }
  }

  lemma PartialFacts(m: Machine, mem': Memory, free': set<nat>, s: nat, t: nat, q: Pos, i: nat, sub: Layout)
    requires Sound(m) && Partial(m, mem', free', s, t, q, i, sub) && s in m.pos && t !in m.pos
    ensures t in mem' && |mem'[t]| == ENTRIES && s in mem' && mem'[s] == m.mem[s] && free' <= m.free && t !in free'
    ensures 0 !in m.free && m.free !! m.pos.Keys
  {
    hide Rooted, RootsThere, WellFormed, EntryCopied, Hangs, UnderSome;
    assert SameAt(m.mem, mem', s);
  }

  lemma SpaceJoined(was: Machine, m: Machine, m': Machine, root: nat, copy: nat, depth: nat, sub: Layout)
    requires copy in was.free && m == Machine(was.mem[copy := ZeroTable()], was.pos, was.free - {copy})
             && copy !in was.pos
    requires forall f | f in was.pos :: SameAt(was.mem, m.mem, f) && SameAt(m.mem, m'.mem, f)
    requires CopyDone(m, m'.mem, m'.free, root, copy, Pos(copy, depth, 0), sub) && m'.pos == m.pos + sub
    requires Sound(was) && root in was.pos && was.pos[root] == Pos(root, depth, 0)
    requires Sound(m') && (NoneEmpty(was, 0) ==> NoneEmpty(m', 0))
             && SameTranslation(m'.mem, root, m'.mem, copy, Pos(copy, depth, 0))
    ensures SpaceCopied(was, m', root, copy, depth)
  {
    hide NoneEmpty, Rooted, RootsThere, Subtree, Untouched, SameTranslation;
    CopyTakes(was, m, m', root, copy, Pos(copy, depth, 0), sub);
    SpacePlaces(was, m, m', root, copy, Pos(copy, depth, 0), sub);
    SpaceTranslates(was, m', root, copy, depth);
  }

  lemma SpaceTranslates(was: Machine, m': Machine, root: nat, copy: nat, depth: nat)
    requires Sound(was) && root in was.pos && was.pos[root] == Pos(root, depth, 0)
    requires forall f | f in was.pos :: SameAt(was.mem, m'.mem, f)
    requires SameTranslation(m'.mem, root, m'.mem, copy, Pos(copy, depth, 0))
    ensures SameTranslation(was.mem, root, m'.mem, copy, Pos(copy, depth, 0))
  {
    hide Rooted, RootsThere;
    forall p: nat, d: nat | Owns(Pos(copy, depth, 0), p)
      ensures View(m'.mem, copy, depth, p, d) == View(was.mem, root, depth, p, d)
    {
      TranslateKept(was.mem, m'.mem, was.pos, root, p, d);
    }
  }

  /** The copy has taken its own frames and no other. */
  lemma CopyTakes(was: Machine, m: Machine, m': Machine, root: nat, copy: nat, q: Pos, sub: Layout)
    requires Sound(was) && copy in was.free && m == Machine(was.mem[copy := ZeroTable()], was.pos, was.free - {copy})
    requires CopyDone(m, m'.mem, m'.free, root, copy, q, sub) && m'.pos == m.pos + sub
    ensures m'.free == was.free - (m'.pos.Keys - was.pos.Keys)
  {
    hide Rooted, RootsThere, WellFormed, Untouched, SameTranslation, HasParent, Inside, NonEmpty, NoneEmpty;
    assert m'.pos.Keys - was.pos.Keys == sub.Keys;
  }

  lemma SpacePlaces(was: Machine, m: Machine, m': Machine, root: nat, copy: nat, q: Pos, sub: Layout)
    requires Sound(was) && copy in was.free && m == Machine(was.mem[copy := ZeroTable()], was.pos, was.free - {copy})
    requires CopyDone(m, m'.mem, m'.free, root, copy, q, sub) && m'.pos == m.pos + sub && q.root == copy
    ensures Extends(was.pos, m'.pos) && copy in m'.pos && m'.pos[copy] == q
    ensures forall f | f in m'.pos && f !in was.pos :: f in was.free && m'.pos[f].root == copy
  {
    hide Rooted, RootsThere, WellFormed, Untouched, SameTranslation, HasParent, NonEmpty, NoneEmpty;
  }

  /** Mapping and unmapping below a root change that root's space only. */
  lemma MapChangesOnly(
    m: Machine, m': Machine, t: nat, frames: Extent, pages: Extent, space: Space, n: nat, ts: seq<nat>, flags: nat)
    requires MapDone(m, m', t, frames, pages, space, n, ts, flags)
    ensures ChangesOnly(m, m', t)
  {
  }

  lemma UnmapChangesOnly(m: Machine, m': Machine, t: nat, hits: iset<nat>, freePhysical: bool)
    requires TakenOut(m, m', t, hits, freePhysical)
    ensures ChangesOnly(m, m', t)
  {
  }
}
