/** On which ranges `map` installs exactly the requested mapping. */
module PageExact {
  import opened Arith
  import opened PageArith
  import opened PageTree
  import opened PageMap
  import opened PageMeaning

  /** Page numbers inside a table that starts at `cur`. */
  lemma WindowInside(l: nat, cur: nat, x: nat)
    requires l < MAX_LEVELS && cur % Size(l + 1) == 0 && cur <= x < cur + Size(l + 1)
    ensures Vpn(x, l) == (x - cur) / Size(l)
  {
    VpnIsDigit(x, l);
    DivUnique(x, Size(l + 1), cur / Size(l + 1), x - cur);
  }

  /** Two addresses in one slot of a table, and the slot's own range. */
  lemma SameSlot(l: nat, cur: nat, x: nat, i: nat)
    requires l < MAX_LEVELS && cur <= x
    requires (x - cur) / Size(l) == i
    ensures cur + i * Size(l) <= x < cur + i * Size(l) + Size(l)
  {
  }

  /** The slot of `x` is the only one whose range holds `x`. */
  lemma SlotOf(l: nat, cur: nat, x: nat, i: nat)
    requires l < MAX_LEVELS && cur + i * Size(l) <= x < cur + i * Size(l) + Size(l)
    ensures (x - cur) / Size(l) == i
  {
    DivUnique(x - cur, Size(l), i, x - cur - i * Size(l));
  }

  /** Aligned at both ends and inside one aligned slot means the whole slot. */
  lemma WholeSlot(l: nat, base: nat, va: nat, len: nat)
    requires l < MAX_LEVELS && base % Size(l) == 0 && len > 0
    requires va % Size(l) == 0 && (va + len) % Size(l) == 0
    requires base <= va && va + len <= base + Size(l)
    ensures va == base && len == Size(l)
  {
    RoundUp(va, va + len, Size(l));
  }

  /** The range is non-empty and lies inside the table that starts at `cur`. */
  predicate Covers(l: nat, cur: nat, r: Request)
    requires l < MAX_LEVELS
  {
    r.len > 0 && cur % Size(l + 1) == 0 && cur <= r.va && r.va + r.len <= cur + Size(l + 1)
  }

  // ---- ranges inside one megapage ----

  /** Inside one 2 MiB slot and shorter than it. */
  predicate Small(r: Request)
  {
    0 < r.len < MEGAPAGE && r.va % MEGAPAGE + r.len <= MEGAPAGE
  }

  /** The pages written at level 0: one page too many, unless the range ends on a megapage. */
  function SmallEnd(r: Request): nat
  {
    if (r.va + r.len) % MEGAPAGE == 0 then r.va + r.len else r.va + r.len + PAGE
  }

  lemma SmallSplits(l: nat, r: Request)
    requires 0 < l < MAX_LEVELS && Small(r) && r.va + r.len < WORD && Start(l, r) == End(l, r)
    ensures NeedsSplit(l, r, Start(l, r))
  {
    assert 0 < r.len < MEGAPAGE;
    if !NeedsSplit(l, r, Start(l, r)) {
      hide *;
      SplitEnds(l, r);
      MegapageFits(l);
      WholePieces(r.va, r.len, Size(l));
      assert false;
    }
  }

  lemma MegapageFits(l: nat)
    requires 0 < l < MAX_LEVELS
    ensures MEGAPAGE <= Size(l)
  {
  }

  /** A slot that needs no split and is the whole window is aligned at both ends. */
  lemma SplitEnds(l: nat, r: Request)
    requires l < MAX_LEVELS && 1 <= r.va + r.len < WORD && Start(l, r) == End(l, r) && !NeedsSplit(l, r, Start(l, r))
    ensures r.va % Size(l) == 0 && (r.va + r.len) % Size(l) == 0
  {
    hide Size, Vpn, Start, End, Offset;
    DivUnique(r.va + r.len, WORD, 0, r.va + r.len);
  }

  lemma WholePieces(x: nat, len: nat, s: nat)
    requires s > 0 && len > 0 && x % s == 0 && (x + len) % s == 0
    ensures len >= s
  {
    RoundUp(x, x + len, s);
  }

  lemma PageIndex(x: nat, cur: nat)
    requires cur % MEGAPAGE == 0 && cur <= x < cur + MEGAPAGE && x % PAGE == 0
    ensures Vpn(x, 0) * PAGE == x - cur
  {
    WindowInside(0, cur, x);
    ModMod(cur, PAGE, ENTRY_COUNT);
    DiffMultiple(x, cur, PAGE);
  }

  lemma BoundaryIndex(x: nat, l: nat)
    requires l < MAX_LEVELS && x % Size(l + 1) == 0
    ensures Vpn(x, l) == 0
  {
    VpnIsDigit(x, l);
  }

  /** The window at level 0, in bytes. */
  lemma SmallWindowLast(cur: nat, r: Request)
    requires Legal(MAX_LEVELS, r) && Small(r) && Covers(0, cur, r)
    ensures Start(0, r) * PAGE == r.va - cur
    ensures (End(0, r) + 1) * PAGE == SmallEnd(r) - cur
  {
    PageSizes();
    ModAdd(r.va, r.len, PAGE);
    hide Vpn, Size, MEGAPAGE, PAGE, WORD, Legal;
    var end := r.va + r.len;
    PageIndex(r.va, cur);
    Distribute(Vpn(end, 0), 1, PAGE);
    if end < cur + MEGAPAGE {
      PageIndex(end, cur);
      Distribute(Vpn(end, 0), Vpn(r.va, 0), PAGE);
      MulSign(Vpn(end, 0) - Vpn(r.va, 0), PAGE);
      DivUnique(end, MEGAPAGE, cur / MEGAPAGE, end - cur);
    } else {
      ModOfMultiple(1, MEGAPAGE);
      ModAdd(cur, MEGAPAGE, MEGAPAGE);
      BoundaryIndex(end, 0);
      MulSign(Vpn(r.va, 0), PAGE);
    }
  }

  lemma SmallHitLast(kids: seq<Tree>, cur: nat, r: Request, off: nat)
    requires 1 <= r.va + r.len && Legal(MAX_LEVELS, r) && Small(r) && Covers(0, cur, r)
    requires Shaped(1, Table(kids)) && off < Size(1)
    ensures Shaped(1, Table(MapTable(0, kids, cur, r)))
    ensures Hit(1, Table(MapTable(0, kids, cur, r)), off, r) <==> r.va <= cur + off < SmallEnd(r)
  {
    hide Size, Vpn, Start, End, Hit, MapTable, Digit, SmallEnd, Small, Legal, Covers, PAGE, MEGAPAGE, WORD, Shaped;
    MapShaped(0, kids, cur, r);
    SmallWindowLast(cur, r);
    PageSizes();
    HitLast(kids, cur, r, off);
    InsideWindow(1, off, Start(0, r), End(0, r));
  }

  /** At level 0 every slot of the window is written. */
  lemma HitLast(kids: seq<Tree>, cur: nat, r: Request, off: nat)
    requires 1 <= r.va + r.len && Shaped(1, Table(kids)) && off < Size(1)
    requires Shaped(1, Table(MapTable(0, kids, cur, r)))
    ensures Hit(1, Table(MapTable(0, kids, cur, r)), off, r) <==> Start(0, r) <= Digit(1, off) <= End(0, r)
  {
    hide Size, Vpn, Start, End, Pte, Digit;
  }

  /** Whether a slot lies between two slot boundaries. */
  lemma InsideWindow(l: nat, off: nat, lo: nat, hi: nat)
    requires 0 < l <= MAX_LEVELS && off < Size(l)
    ensures lo <= Digit(l, off) <= hi <==> lo * Size(l - 1) <= off < (hi + 1) * Size(l - 1)
  {
    DigitBound(off, l);
    var s, d := Size(l - 1), Digit(l, off);
    hide *;
    Distribute(d, lo, s);
    Distribute(hi + 1, d, s);
    MulSign(d - lo, s);
    MulSign(hi + 1 - d, s);
  }

  /** In a range inside one megapage, exactly the pages of the range are written, and
      perhaps the one after it. */
  lemma {:induction false} SmallHit(l: nat, kids: seq<Tree>, cur: nat, r: Request, off: nat)
    requires l < MAX_LEVELS && Legal(MAX_LEVELS, r) && Small(r) && Covers(l, cur, r)
    requires Shaped(l + 1, Table(kids)) && off < Size(l + 1)
    ensures Shaped(l + 1, Table(MapTable(l, kids, cur, r)))
    ensures Hit(l + 1, Table(MapTable(l, kids, cur, r)), off, r) <==> r.va <= cur + off < SmallEnd(r)
    decreases l
  {
    hide Size, Vpn, Start, End, Pte, SmallEnd, Small, NeedsSplit;
    MapShaped(l, kids, cur, r);
    if l == 0 {
      SmallHitLast(kids, cur, r, off);
    } else {
      var i := Start(l, r);
      SmallWindow(l, cur, r);
      SmallSplits(l, r);
      var d := Digit(l + 1, off);
      DigitBound(off, l + 1);
      assert Shaped(l, kids[i]);
      if d == i {
        var p := Prepared(l, kids[i], i, r);
        SmallHit(l - 1, p.kids, cur + i * Size(l), r, Rest(l + 1, off));
      } else {
        OtherSlot(l, cur, cur + off, i);
      }
    }
  }

  /** Addresses of another slot are outside the range of this one. */
  lemma OtherSlot(l: nat, cur: nat, x: nat, i: nat)
    requires l < MAX_LEVELS && cur <= x && (x - cur) / Size(l) != i
    ensures !(cur + i * Size(l) <= x < cur + i * Size(l) + Size(l))
  {
    if cur + i * Size(l) <= x < cur + i * Size(l) + Size(l) {
      SlotOf(l, cur, x, i);
    }
  }

  /** Above level 0 a small range has a window of one slot. */
  lemma SmallWindow(l: nat, cur: nat, r: Request)
    requires 0 < l < MAX_LEVELS && Legal(MAX_LEVELS, r) && Small(r) && Covers(l, cur, r)
    ensures End(l, r) == Start(l, r)
    ensures var a := cur + Start(l, r) * Size(l);
            a <= r.va && r.va + r.len <= a + Size(l) && SmallEnd(r) <= a + Size(l) && a % Size(l) == 0
  {
    hide Size, Vpn, Small, SmallEnd;
    var i := Start(l, r);
    WindowInside(l, cur, r.va);
    WindowInside(l, cur, r.va + r.len - 1);
    SlotBase(l, cur, i);
    SameSlot(l, cur, r.va, i);
    SmallInside(l, cur + i * Size(l), r);
    SlotOf(l, cur, r.va + r.len - 1, i);
  }

  lemma SmallInside(l: nat, a: nat, r: Request)
    requires 0 < l < MAX_LEVELS && Small(r) && a % Size(l) == 0 && a <= r.va < a + Size(l)
    requires r.va % PAGE == 0 && r.len % PAGE == 0
    ensures r.va + r.len <= a + Size(l) && SmallEnd(r) <= a + Size(l)
  {
    assert Size(l) == MEGAPAGE * (Size(l) / MEGAPAGE) && Size(l) / MEGAPAGE > 0 && Size(l) % MEGAPAGE == 0;
    PageSizes();
    hide Size, MEGAPAGE, PAGE, WORD;
    var m := r.va - r.va % MEGAPAGE;
    Floor(r.va, MEGAPAGE);
    ModMod(a, MEGAPAGE, Size(l) / MEGAPAGE);
    ModAdd(a, Size(l), MEGAPAGE);
    RoundUp(m, a + Size(l), MEGAPAGE);
    SmallRoom(r, m);
  }

  lemma SmallRoom(r: Request, m: nat)
    requires Small(r) && m == r.va - r.va % MEGAPAGE
    requires r.va % PAGE == 0 && r.len % PAGE == 0
    ensures SmallEnd(r) <= m + MEGAPAGE
  {
    PageSizes();
    hide Size, MEGAPAGE, PAGE, WORD;
    var end := r.va + r.len;
    Floor(r.va, MEGAPAGE);
    Trivial(MEGAPAGE);
    Trivial(PAGE);
    if end == m + MEGAPAGE {
      ModAdd(m, MEGAPAGE, MEGAPAGE);
    } else {
      ModAdd(m, MEGAPAGE, MEGAPAGE);
      ModMod(m + MEGAPAGE, PAGE, ENTRY_COUNT);
      ModAdd(r.va, r.len, PAGE);
      RoundUp(end, m + MEGAPAGE, PAGE);
    }
  }

  /** Exactness inside one megapage, on any tree: the range moves by the shift of the
      request, and nothing outside the range and the one page after it changes. */
  lemma SmallExact(levels: nat, t: Tree, r: Request, v: nat)
    requires 1 < levels <= MAX_LEVELS && Legal(levels, r) && GoodFlags(r.flags)
    requires Small(r) && r.va + r.len <= Size(levels)
    requires t.Table? && WF(levels, t) && v < Size(levels)
    ensures Sound(levels, r) && Shaped(levels, t) && Shaped(levels, MapRoot(levels, t, r))
    ensures WF(levels, MapRoot(levels, t, r))
    ensures Look(levels, MapRoot(levels, t, r), v)
              == if r.va <= v < SmallEnd(r) then Target(r, v) else Look(levels, t, v)
  {
    WFShaped(levels, t);
    SmallCongruent(levels - 1, levels, r);
    MapSound(levels, t, r, v);
    SmallHit(levels - 1, t.kids, 0, r, v);
  }

  lemma {:induction false} SmallCongruent(l: nat, levels: nat, r: Request)
    requires l < levels <= MAX_LEVELS && Legal(MAX_LEVELS, r) && Small(r) && r.va + r.len <= Size(levels)
    ensures CongruentTo(l, r)
  {
    hide Size, Vpn, Start, End, Small, Legal;
    if l > 0 {
      SmallCongruent(l - 1, levels, r);
      SmallBlock(l, levels, r);
      SmallWindow(l, r.va - r.va % Size(l + 1), r);
    }
  }

  /** The table over a small range, at any level. */
  lemma SmallBlock(l: nat, levels: nat, r: Request)
    requires 0 < l < levels <= MAX_LEVELS && Legal(MAX_LEVELS, r) && Small(r) && r.va + r.len <= Size(levels)
    ensures 0 <= r.va - r.va % Size(l + 1) && Covers(l, r.va - r.va % Size(l + 1), r)
  {
    Floor(r.va, Size(l + 1));
    assert r.va % Size(l + 1) <= r.va;
    if l + 1 < MAX_LEVELS {
      SmallInside(l + 1, r.va - r.va % Size(l + 1), r);
    }
  }
}
