/** Page numbers and their table indices in a 512-way hierarchy (Intel SDM Volume 3A, section 4.5).

    A table at level `l` covers `Size(l)` pages.  `Num(p, l)` numbers the level-`l` region page `p`
    lies in, so the tables a translation visits are the ones numbered `Num(p, 4)`, `Num(p, 3)`, ... */
module PageIndex {
  import opened Arithmetic

  const ENTRIES: nat := 512

  function Size(l: nat): (r: nat)
    ensures r >= 1
  {
    if l == 0 then 1 else ENTRIES * Size(l - 1)
  }

  function Num(p: nat, l: nat): nat
  {
    p / Size(l)
  }

  /** `page_table_index`: nine bits of the page number for each level. */
  function Index(p: nat, level: nat): (i: nat)
    requires level >= 1
    ensures i < ENTRIES
  {
    Num(p, level - 1) % ENTRIES
  }

  /** The first page of region `num` at level `l`. */
  function First(l: nat, num: nat): nat
  {
    num * Size(l)
  }

  lemma NumUp(p: nat, l: nat)
    requires l >= 1
    ensures Num(p, l) == Num(p, l - 1) / ENTRIES
  {
    DivDiv(p, Size(l - 1), ENTRIES);
  }

  /** The region at the level below is the index-th part of the region. */
  lemma NumDown(p: nat, level: nat)
    requires level >= 1
    ensures Num(p, level - 1) == ENTRIES * Num(p, level) + Index(p, level)
  {
    NumUp(p, level);
  }

  lemma NumRange(p: nat, l: nat, num: nat)
    ensures Num(p, l) == num <==> First(l, num) <= p < First(l, num + 1)
  {
    var s := Size(l);
    var q, r := p / s, p % s;
    assert p == s * q + r;
    assert First(l, num + 1) == s * num + s && First(l, num) == s * num;
    if First(l, num) <= p < First(l, num + 1) {
      ModUnique(p, s, num, p - s * num);
    }
  }

  lemma FirstDown(l: nat, num: nat)
    requires l >= 1
    ensures First(l, num) == First(l - 1, ENTRIES * num)
  {
    assert num * (ENTRIES * Size(l - 1)) == (ENTRIES * num) * Size(l - 1);
  }

  lemma FirstGrows(l: nat, a: nat, b: nat)
    requires a <= b
    ensures First(l, a) <= First(l, b)
  {
    MulMonotone(Size(l), a, b);
    assert Size(l) * a == First(l, a) && Size(l) * b == First(l, b);
  }

  /** A region's first page lies in the same larger region as any of its pages. */
  lemma {:induction false} FloorUp(p: nat, l: nat, m: nat)
    requires l <= m
    ensures Num(First(l, Num(p, l)), m) == Num(p, m)
    decreases m - l
  {
    if l == m {
      NumRange(First(l, Num(p, l)), l, Num(p, l));
    } else {
      FloorUp(p, l, m - 1);
      NumUp(First(l, Num(p, l)), m);
      NumUp(p, m);
    }
  }

  lemma FirstNum(l: nat, num: nat)
    ensures Num(First(l, num), l) == num
  {
    NumRange(First(l, num), l, num);
  }

  lemma LevelOne(p: nat)
    ensures Num(p, 0) == p && Index(p, 1) == p % ENTRIES && Num(p, 1) == p / ENTRIES
  {
    assert Size(1) == ENTRIES * Size(0);
  }
}
