/** Trees laid out in memory: which physical page holds which table. */
module PagePlaced {
  import opened Arith
  import opened PageArith
  import opened PageTree

  /** Physical page address to the 512 words stored there. */
  type Memory = map<nat, seq<nat>>

  datatype Placed = PLeaf(pte: nat) | PTable(page: nat, kids: seq<Placed>)

  /** Store one word. */
  function SetWord(h: Memory, p: nat, i: nat, v: nat): Memory
    requires p in h && i < |h[p]|
  {
    var words: seq<nat> := h[p][i := v];
    h[p := words]
  }

  /** Forget the pages. */
  ghost function Shape(t: Placed): Tree
  {
    match t
    case PLeaf(v) => Leaf(v)
    case PTable(_, kids) => Table(seq(|kids|, i requires 0 <= i < |kids| => Shape(kids[i])))
  }

  lemma ShapeLeaf(t: Placed)
    requires t.PLeaf?
    ensures Shape(t) == Leaf(t.pte)
  {
  }

  lemma ShapeTable(t: Placed)
    requires t.PTable?
    ensures Shape(t).Table?
  {
  }

  /** All pages that hold a table of `t`. */
  ghost function Pages(t: Placed): set<nat>
  {
    match t
    case PLeaf(_) => {}
    case PTable(p, kids) => {p} + set i, q | 0 <= i < |kids| && q in Pages(kids[i]) :: q
  }

  /** `e` is a pointer to the table in page `p`: valid, no R, W or X, no reserved bits. */
  predicate Points(e: nat, p: nat)
  {
    !IsLeaf(e) && !IsWrite(e) && e < PTE_LIMIT && Address(e) == p && p % PAGE == 0
  }

  /** The word `e` at level `l` encodes the tree `t`; a leaf may hold any word. */
  ghost predicate Slot(h: Memory, l: nat, e: nat, t: Placed)
    decreases l, 1
  {
    match t
    case PLeaf(v) => e == v && v < WORD
    case PTable(p, kids) =>
      && l > 0 && Points(e, p)
      && Stored(h, l, t)
  }

  /** The table `t` at level `l` is stored in `h`. */
  ghost predicate Stored(h: Memory, l: nat, t: Placed)
    requires t.PTable?
    decreases l, 0
  {
    && l > 0 && |t.kids| == ENTRY_COUNT && t.page in h && |h[t.page]| == ENTRY_COUNT
    && forall i :: 0 <= i < ENTRY_COUNT ==> Slot(h, l - 1, h[t.page][i], t.kids[i])
  }

  /** No page holds two tables. */
  ghost predicate NoSharing(t: Placed)
  {
    match t
    case PLeaf(_) => true
    case PTable(p, kids) =>
      && (forall i :: 0 <= i < |kids| ==> NoSharing(kids[i]) && p !in Pages(kids[i]))
      && (forall i, j :: 0 <= i < j < |kids| ==> Pages(kids[i]) !! Pages(kids[j]))
  }

  lemma KidPages(t: Placed, i: nat)
    requires t.PTable? && i < |t.kids|
    ensures Pages(t.kids[i]) <= Pages(t)
  {
  }

  ghost predicate SamePage(h: Memory, h': Memory, q: nat)
  {
    q in h && q in h' && h'[q] == h[q]
  }

  /** Storage only depends on the pages of the tree. */
  lemma {:induction false} SlotFrame(h: Memory, h': Memory, l: nat, e: nat, t: Placed)
    requires Slot(h, l, e, t)
    requires forall q :: q in Pages(t) ==> SamePage(h, h', q)
    ensures Slot(h', l, e, t)
    decreases l, t
  {
    hide IsLeaf, Points;
    if t.PTable? {
      assert t.page in Pages(t) && SamePage(h, h', t.page);
      forall i | 0 <= i < ENTRY_COUNT
        ensures Slot(h', l - 1, h'[t.page][i], t.kids[i])
      {
        KidPages(t, i);
        SlotFrame(h, h', l - 1, h[t.page][i], t.kids[i]);
      }
    }
  }

  lemma {:induction false} PagesStored(h: Memory, l: nat, e: nat, t: Placed)
    requires Slot(h, l, e, t)
    ensures forall q :: q in Pages(t) ==> q in h
    decreases l, t
  {
    hide IsLeaf, Points;
    if t.PTable? {
      forall i | 0 <= i < ENTRY_COUNT
        ensures forall q :: q in Pages(t.kids[i]) ==> q in h
      {
        PagesStored(h, l - 1, h[t.page][i], t.kids[i]);
      }
    }
  }

  lemma PagesOfKids(t: Placed, q: nat)
    requires t.PTable? && q in Pages(t) && q != t.page
    ensures exists i :: 0 <= i < |t.kids| && q in Pages(t.kids[i])
  {
  }

  lemma TablePages(h: Memory, l: nat, t: Placed)
    requires t.PTable? && Stored(h, l, t)
    ensures forall q :: q in Pages(t) ==> q in h
  {
    hide IsLeaf, Points;
    forall q | q in Pages(t)
      ensures q in h
    {
      if q != t.page {
        PagesOfKids(t, q);
        var i :| 0 <= i < |t.kids| && q in Pages(t.kids[i]);
        PagesStored(h, l - 1, h[t.page][i], t.kids[i]);
      }
    }
  }

  /** Only the table itself, the slot's old pages and `extra` may be used by a new subtree. */
  ghost predicate FitsSlot(t: Placed, i: nat, c: Placed, extra: set<nat>)
    requires t.PTable? && i < |t.kids|
  {
    Pages(c) <= Pages(t.kids[i]) + extra && extra !! Pages(t) && NoSharing(c)
  }

  /** Replacing one subtree in memory replaces it in the tree. */
  lemma PutKid(h: Memory, h': Memory, l: nat, t: Placed, i: nat, e: nat, c: Placed, extra: set<nat>)
    requires t.PTable? && Stored(h, l, t) && NoSharing(t) && i < ENTRY_COUNT
    requires FitsSlot(t, i, c, extra)
    requires t.page in h' && h'[t.page] == h[t.page][i := e]
    requires forall q :: q in Pages(t) && q != t.page && q !in Pages(t.kids[i]) ==> SamePage(h, h', q)
    requires Slot(h', l - 1, e, c)
    ensures var u := PTable(t.page, t.kids[i := c]);
            Stored(h', l, u) && NoSharing(u) && Pages(u) <= Pages(t) + extra
            && (Pages(t.kids[i]) <= Pages(c) ==> Pages(t) <= Pages(u))
  {
    var u := PTable(t.page, t.kids[i := c]);
    TablePages(h, l, t);
    forall j | 0 <= j < ENTRY_COUNT
      ensures Slot(h', l - 1, h'[t.page][j], u.kids[j])
    {
      if j != i {
        SiblingKept(h, h', l, t, i, j);
      }
    }
    PutNoSharing(t, i, c, extra);
    PutPages(t, i, c);
  }

  lemma SiblingKept(h: Memory, h': Memory, l: nat, t: Placed, i: nat, j: nat)
    requires t.PTable? && Stored(h, l, t) && NoSharing(t) && i < ENTRY_COUNT && j < ENTRY_COUNT && i != j
    requires forall q :: q in Pages(t) && q != t.page && q !in Pages(t.kids[i]) ==> SamePage(h, h', q)
    ensures Slot(h', l - 1, h[t.page][j], t.kids[j])
  {
    TablePages(h, l, t);
    KidPages(t, j);
    assert Pages(t.kids[i]) !! Pages(t.kids[j]);
    SlotFrame(h, h', l - 1, h[t.page][j], t.kids[j]);
  }

  lemma PutNoSharing(t: Placed, i: nat, c: Placed, extra: set<nat>)
    requires t.PTable? && NoSharing(t) && i < |t.kids| && FitsSlot(t, i, c, extra)
    ensures NoSharing(PTable(t.page, t.kids[i := c]))
  {
    var kids := t.kids[i := c];
    forall j | 0 <= j < |kids|
      ensures NoSharing(kids[j]) && t.page !in Pages(kids[j]) && (j != i ==> Pages(kids[j]) !! Pages(c))
    {
      KidPages(t, j);
      if j != i {
        assert Pages(t.kids[i]) !! Pages(t.kids[j]);
      }
    }
  }

  lemma PutPages(t: Placed, i: nat, c: Placed)
    requires t.PTable? && i < |t.kids|
    ensures var u := PTable(t.page, t.kids[i := c]);
            Pages(u) <= Pages(t) + Pages(c) && Pages(c) <= Pages(u)
            && (Pages(t.kids[i]) <= Pages(c) ==> Pages(t) <= Pages(u))
  {
    var u := PTable(t.page, t.kids[i := c]);
    forall q | q in Pages(u)
      ensures q in Pages(t) + Pages(c)
    {
      if q != u.page {
        PagesOfKids(u, q);
      }
    }
    assert u.kids[i] == c;
    KidPages(u, i);
    if Pages(t.kids[i]) <= Pages(c) {
      forall q | q in Pages(t)
        ensures q in Pages(u)
      {
        if q != t.page {
          PagesOfKids(t, q);
          var j :| 0 <= j < |t.kids| && q in Pages(t.kids[j]);
          assert j != i ==> u.kids[j] == t.kids[j];
          KidPages(u, j);
        }
      }
    }
  }

  lemma {:induction false} StoredShaped(h: Memory, l: nat, t: Placed)
    requires t.PTable? ==> Stored(h, l, t)
    ensures Shaped(l, Shape(t))
  {
    hide IsLeaf, Points;
    if t.PTable? {
      forall i | 0 <= i < ENTRY_COUNT
        ensures Shaped(l - 1, Shape(t).kids[i])
      {
        assert Slot(h, l - 1, h[t.page][i], t.kids[i]);
        StoredShaped(h, l - 1, t.kids[i]);
      }
    }
  }

  /** The allocator's pool: whole, non-zero physical pages. */
  ghost predicate Pool(h: Memory, free: set<nat>)
  {
    forall q :: q in free ==> q in h && |h[q]| == ENTRY_COUNT && q % PAGE == 0 && 0 < q < PHYS
  }

  /** Table `t` turned into `u` while memory went from `h` to `h'` and the pool from `free` to
      `free'`: new tables come from the pool and nothing else in memory changed. */
  ghost predicate Stepped(h: Memory, free: set<nat>, h': Memory, free': set<nat>, l: nat, t: Placed, u: Placed)
  {
    && t.PTable? && u.PTable? && u.page == t.page && Stored(h', l, u) && NoSharing(u)
    && free' <= free && Pages(t) <= Pages(u) && Pages(u) <= Pages(t) + (free - free')
    && h'.Keys == h.Keys && forall q :: q in h && q !in Pages(u) ==> h'[q] == h[q]
  }

  lemma StepTrans(h: Memory, f: set<nat>, h1: Memory, f1: set<nat>, h2: Memory, f2: set<nat>, l: nat,
                  t: Placed, t1: Placed, t2: Placed)
    requires Stepped(h, f, h1, f1, l, t, t1) && Stepped(h1, f1, h2, f2, l, t1, t2)
    ensures Stepped(h, f, h2, f2, l, t, t2)
  {
    hide Stored, NoSharing, Pages;
  }

  lemma StepPool(h: Memory, f: set<nat>, h': Memory, f': set<nat>, l: nat, t: Placed, u: Placed)
    requires Pool(h, f) && f !! Pages(t) && Stepped(h, f, h', f', l, t, u)
    ensures Pool(h', f') && f' !! Pages(u)
    ensures t.PTable? && u.PTable? && u.page == t.page && Stored(h', l, u) && NoSharing(u)
  {
    hide Stored, NoSharing, Pages;
  }

  /** Overwriting a leaf slot with a leaf. */
  lemma WriteLeaf(h: Memory, f: set<nat>, l: nat, t: Placed, i: nat, v: nat)
    requires t.PTable? && Stored(h, l, t) && NoSharing(t) && i < ENTRY_COUNT && t.kids[i].PLeaf?
    requires v < WORD
    ensures Stepped(h, f, SetWord(h, t.page, i, v), f, l, t, PTable(t.page, t.kids[i := PLeaf(v)]))
  {
    hide IsLeaf, Points;
    var h' := SetWord(h, t.page, i, v);
    TablePages(h, l, t);
    assert FitsSlot(t, i, PLeaf(v), {}) && Slot(h', l - 1, v, PLeaf(v)) && Pages(t.kids[i]) == {};
    assert t.page in Pages(t);
    hide Slot, Stored, NoSharing, Pages, FitsSlot;
    forall q | q in Pages(t) && q != t.page
      ensures SamePage(h, h', q)
    {
    }
    PutKid(h, h', l, t, i, v, PLeaf(v), {});
  }

  /** Installing a table of leaves from the pool in place of a leaf. */
  lemma WriteTable(h: Memory, f: set<nat>, l: nat, t: Placed, i: nat, q: nat, e: nat, words: seq<nat>, c: Placed)
    requires t.PTable? && Stored(h, l, t) && NoSharing(t) && i < ENTRY_COUNT && t.kids[i].PLeaf?
    requires q in f && q in h && f !! Pages(t) && l > 1 && Points(e, q)
    requires t.page != q && |words| == ENTRY_COUNT && c.PTable? && c.page == q && |c.kids| == ENTRY_COUNT
    requires forall j :: 0 <= j < ENTRY_COUNT ==>
               c.kids[j] == PLeaf(words[j]) && words[j] < WORD
    ensures Stepped(h, f, SetWord(h[q := words], t.page, i, e), f - {q}, l, t, PTable(t.page, t.kids[i := c]))
    ensures NoSharing(c) && Pages(c) == {q}
    ensures Stored(SetWord(h[q := words], t.page, i, e), l - 1, c)
  {
    hide IsLeaf, Points;
    var h' := SetWord(h[q := words], t.page, i, e);
    LeafTable(h', l - 1, q, words, c);
    TablePages(h, l, t);
    assert t.page in Pages(t) && Pages(t.kids[i]) == {} && Slot(h', l - 1, e, c);
    assert f - (f - {q}) == {q};
    hide Slot, Stored, NoSharing, Pages;
    forall x | x in Pages(t) && x != t.page
      ensures SamePage(h, h', x)
    {
    }
    PutKid(h, h', l, t, i, e, c, {q});
    PutPages(t, i, c);
  }

  /** A page full of leaves is a table with no tables below it. */
  lemma LeafTable(h: Memory, l: nat, q: nat, words: seq<nat>, c: Placed)
    requires q in h && h[q] == words && |words| == ENTRY_COUNT && l > 0
    requires c.PTable? && c.page == q && |c.kids| == ENTRY_COUNT
    requires forall j :: 0 <= j < ENTRY_COUNT ==>
               c.kids[j] == PLeaf(words[j]) && words[j] < WORD
    ensures Stored(h, l, c) && NoSharing(c) && Pages(c) == {q}
  {
    hide IsLeaf, Points;
  }

  /** A step inside one subtree is a step of the whole table. */
  lemma LiftStep(h: Memory, f: set<nat>, h': Memory, f': set<nat>, l: nat, t: Placed, i: nat, c: Placed)
    requires t.PTable? && Stored(h, l, t) && NoSharing(t) && i < ENTRY_COUNT && f !! Pages(t)
    requires l > 0 && t.kids[i].PTable? && Stepped(h, f, h', f', l - 1, t.kids[i], c)
    ensures Stepped(h, f, h', f', l, t, PTable(t.page, t.kids[i := c]))
  {
    hide IsLeaf, Points;
    TablePages(h, l, t);
    KidPages(t, i);
    var extra := f - f';
    assert t.page in Pages(t) && t.page !in Pages(t.kids[i]);
    assert t.page !in Pages(c);
    assert h'[t.page] == h[t.page][i := h[t.page][i]];
    forall q | q in Pages(t) && q != t.page && q !in Pages(t.kids[i])
      ensures SamePage(h, h', q)
    {
    }
    assert Slot(h, l - 1, h[t.page][i], t.kids[i]);
    PutKid(h, h', l, t, i, h[t.page][i], c, extra);
    PutPages(t, i, c);
  }
}
