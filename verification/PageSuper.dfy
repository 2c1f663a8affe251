/** Exactness of `map` on ranges made of whole superpages. */
module PageSuper {
  import opened Arith
  import opened PageArith
  import opened PageTree
  import opened PageMap
  import opened PageMeaning
  import opened PageExact

  /** Level of the leaf that covers `off`. */
  function LeafLevel(l: nat, t: Tree, off: nat): (k: nat)
    requires l <= MAX_LEVELS && off < Size(l) && Shaped(l, t)
    ensures k <= l && (t.Table? ==> k < l)
  {
    match t
    case Leaf(_) => l
    case Table(kids) => LeafLevel(l - 1, kids[Digit(l, off)], Rest(l, off))
  }

  /** A non-empty range of whole level-`k` pages inside one level-`k + 1` slot. */
  predicate Super(k: nat, r: Request)
    requires k < MAX_LEVELS
  {
    k > 0 && r.len > 0 && r.va % Size(k) == 0 && r.pa % Size(k) == 0 && r.len % Size(k) == 0
    && r.va % Size(k + 1) + r.len <= Size(k + 1)
  }

  /** No level-`k` slot in the range holds a table. */
  ghost predicate NoTables(k: nat, l: nat, t: Tree, cur: nat, r: Request)
    requires l <= MAX_LEVELS && Shaped(l, t)
  {
    forall off {:trigger LeafLevel(l, t, off)} ::
      0 <= off < Size(l) && r.va <= cur + off < r.va + r.len ==> LeafLevel(l, t, off) >= k
  }

  lemma SuperNoSplit(k: nat, r: Request, i: nat)
    requires k < MAX_LEVELS && Legal(MAX_LEVELS, r) && Super(k, r)
    ensures !NeedsSplit(k, r, i)
  {
    SuperEnds(k, r);
    hide Size, Vpn, Start, End, Offset;
    ShiftIsDifference(r);
    DivUnique(r.va + r.len, WORD, 0, r.va + r.len);
  }

  lemma SuperEnds(k: nat, r: Request)
    requires k < MAX_LEVELS && Super(k, r)
    ensures (r.va + r.len) % Size(k) == 0 && (r.pa - r.va) % Size(k) == 0
    ensures ((r.va + r.len + (r.pa - r.va) % WORD) % WORD) % Size(k) == 0
  {
    hide Size;
    var end, d := r.va + r.len, (r.pa - r.va) % WORD;
    ModAdd(r.va, r.len, Size(k));
    DiffMultiple(r.pa, r.va, Size(k));
    PageModulus(r.pa - r.va, k);
    ModAdd(end, d, Size(k));
    PageModulus(end + d, k);
  }

  lemma AlignedIndex(k: nat, cur: nat, x: nat)
    requires k < MAX_LEVELS && cur % Size(k + 1) == 0 && cur <= x < cur + Size(k + 1) && x % Size(k) == 0
    ensures Vpn(x, k) * Size(k) == x - cur
  {
    hide Size, Vpn;
    WindowInside(k, cur, x);
    SizeStep(k + 1);
    ModMod(cur, Size(k), ENTRY_COUNT);
    DiffMultiple(x, cur, Size(k));
  }

  /** The window at level `k`, in bytes. */
  lemma SuperWindowLast(k: nat, cur: nat, r: Request)
    requires k < MAX_LEVELS && Legal(MAX_LEVELS, r) && Super(k, r) && Covers(k, cur, r)
    ensures Start(k, r) * Size(k) == r.va - cur
    ensures (End(k, r) + 1) * Size(k) == r.va + r.len - cur
  {
    hide Size, Vpn;
    var s := Size(k);
    AlignedIndex(k, cur, r.va);
    RoundUp(0, r.len, s);
    var last := r.va + r.len - s;
    ModAdd(r.va, r.len, s);
    ModOfMultiple(1, s);
    DiffMultiple(r.va + r.len, s, s);
    AlignedIndex(k, cur, last);
    SameIndex(k, cur, last, r.va + r.len - 1);
    Distribute(Vpn(last, k), 1, s);
    MonotoneIndex(k, r.va, last, cur);
  }

  lemma SameIndex(k: nat, cur: nat, x: nat, y: nat)
    requires k < MAX_LEVELS && cur % Size(k + 1) == 0 && cur <= x <= y < x + Size(k)
    requires Vpn(x, k) * Size(k) == x - cur && y < cur + Size(k + 1)
    ensures Vpn(y, k) == Vpn(x, k)
  {
    hide Vpn;
    WindowInside(k, cur, y);
    SlotOf(k, cur, y, Vpn(x, k));
  }

  lemma MonotoneIndex(k: nat, x: nat, y: nat, cur: nat)
    requires k < MAX_LEVELS && x <= y
    requires Vpn(x, k) * Size(k) == x - cur && Vpn(y, k) * Size(k) == y - cur
    ensures Vpn(x, k) <= Vpn(y, k)
  {
    hide Size, Vpn;
    var d := Vpn(x, k) - Vpn(y, k);
    Distribute(Vpn(x, k), Vpn(y, k), Size(k));
    MulSign(d, Size(k));
  }

  lemma SuperHitLast(k: nat, kids: seq<Tree>, cur: nat, r: Request, off: nat)
    requires k < MAX_LEVELS && Legal(MAX_LEVELS, r) && Super(k, r) && Covers(k, cur, r)
    requires Shaped(k + 1, Table(kids)) && off < Size(k + 1) && NoTables(k, k + 1, Table(kids), cur, r)
    ensures Shaped(k + 1, Table(MapTable(k, kids, cur, r)))
    ensures Hit(k + 1, Table(MapTable(k, kids, cur, r)), off, r) <==> r.va <= cur + off < r.va + r.len
  {
    hide Size, Vpn, Start, End, Pte, NeedsSplit;
    MapShaped(k, kids, cur, r);
    SuperWindowLast(k, cur, r);
    InsideWindow(k + 1, off, Start(k, r), End(k, r));
    var d := Digit(k + 1, off);
    SuperNoSplit(k, r, d);
    assert LeafLevel(k + 1, Table(kids), off) == LeafLevel(k, kids[d], Rest(k + 1, off));
  }

  /** Above level `k` the window is one slot, which holds the whole range. */
  lemma SuperWindow(k: nat, l: nat, cur: nat, r: Request)
    requires k < l < MAX_LEVELS && Legal(MAX_LEVELS, r) && Super(k, r) && Covers(l, cur, r)
    ensures End(l, r) == Start(l, r)
    ensures Covers(l - 1, cur + Start(l, r) * Size(l), r)
  {
    hide Size, Vpn, Super;
    var i := Start(l, r);
    WindowInside(l, cur, r.va);
    WindowInside(l, cur, r.va + r.len - 1);
    SlotBase(l, cur, i);
    SameSlot(l, cur, r.va, i);
    SuperInside(k, l, cur + i * Size(l), r);
    SlotOf(l, cur, r.va + r.len - 1, i);
  }

  lemma SuperInside(k: nat, l: nat, a: nat, r: Request)
    requires k < l < MAX_LEVELS && Super(k, r) && a % Size(l) == 0 && a <= r.va < a + Size(l)
    ensures r.va + r.len <= a + Size(l)
  {
    assert r.va % Size(k + 1) + r.len <= Size(k + 1);
    hide *;
    Nested(k + 1, l);
    InBlock(a, Size(l), Size(k + 1), r.va, r.len);
  }

  /** What fits into a small aligned block fits into the larger block around it. */
  lemma InBlock(a: nat, b: nat, s: nat, x: nat, len: nat)
    requires s > 0 && b > 0 && b % s == 0 && a % b == 0 && a <= x < a + b && x % s + len <= s
    ensures x + len <= a + b
  {
    var m := x - x % s;
    Floor(x, s);
    MultipleOfMultiple(a, b, s);
    ModAdd(a, b, s);
    RoundUp(m, a + b, s);
  }

  /** Larger pages are whole numbers of smaller ones. */
  lemma {:induction false} Nested(k: nat, l: nat)
    requires k <= l <= MAX_LEVELS
    ensures Size(l) % Size(k) == 0
    decreases l
  {
    hide *;
    if k == l {
      DivUnique(Size(l), Size(k), 1, 0);
    } else {
      Nested(k, l - 1);
      SizeStep(l);
      MultipleOfMultiple(Size(l), Size(l - 1), Size(k));
    }
  }

  lemma SuperNoTablesBelow(k: nat, l: nat, kids: seq<Tree>, cur: nat, r: Request, i: nat)
    requires k < l < MAX_LEVELS && i < ENTRY_COUNT && Shaped(l + 1, Table(kids)) && 1 <= r.va + r.len
    requires NoTables(k, l + 1, Table(kids), cur, r) && Prepared(l, kids[i], i, r).Table?
    ensures Shaped(l, Prepared(l, kids[i], i, r))
    ensures NoTables(k, l, Prepared(l, kids[i], i, r), cur + i * Size(l), r)
  {
    hide NeedsSplit, Start, End, Vpn, Size;
    var p := Prepared(l, kids[i], i, r);
    forall off {:trigger LeafLevel(l, p, off)} | 0 <= off < Size(l) && r.va <= cur + i * Size(l) + off < r.va + r.len
      ensures LeafLevel(l, p, off) >= k
    {
      if kids[i].Leaf? {
        assert p.kids[Digit(l, off)].Leaf?;
      } else {
        InsideSlot(l, i, off);
        var o := i * Size(l) + off;
        assert LeafLevel(l + 1, Table(kids), o) == LeafLevel(l, kids[i], off);
      }
    }
  }

  lemma InsideSlot(l: nat, i: nat, off: nat)
    requires l < MAX_LEVELS && i < ENTRY_COUNT && off < Size(l)
    ensures i * Size(l) + off < Size(l + 1)
    ensures Digit(l + 1, i * Size(l) + off) == i && Rest(l + 1, i * Size(l) + off) == off
  {
    SizeStep(l + 1);
    Distribute(ENTRY_COUNT, i, Size(l));
    MulSign(ENTRY_COUNT - i, Size(l));
    DivUnique(i * Size(l) + off, Size(l), i, off);
  }

  /** In a range of whole superpages with no tables under it, exactly the range is written. */
  lemma {:induction false} SuperHit(k: nat, l: nat, kids: seq<Tree>, cur: nat, r: Request, off: nat)
    requires k <= l < MAX_LEVELS && Legal(MAX_LEVELS, r) && Super(k, r) && Covers(l, cur, r)
    requires Shaped(l + 1, Table(kids)) && off < Size(l + 1) && NoTables(k, l + 1, Table(kids), cur, r)
    ensures Shaped(l + 1, Table(MapTable(l, kids, cur, r)))
    ensures Hit(l + 1, Table(MapTable(l, kids, cur, r)), off, r) <==> r.va <= cur + off < r.va + r.len
    decreases l
  {
    hide *;
    LegalSum(MAX_LEVELS, r);
    MapShaped(l, kids, cur, r);
    if l == k {
      SuperHitLast(k, kids, cur, r, off);
    } else {
      var i := Start(l, r);
      var a := cur + i * Size(l);
      SuperWindow(k, l, cur, r);
      CoversIs(l - 1, a, r);
      HitStep(l, kids, cur, r, off);
      DigitParts(l + 1, off);
      if Digit(l + 1, off) != i {
        OtherSlot(l, cur, cur + off, i);
      } else {
        var p := Prepared(l, kids[i], i, r);
        if p.Table? {
          SuperNoTablesBelow(k, l, kids, cur, r, i);
          SuperHit(k, l - 1, p.kids, a, r, Rest(l + 1, off));
          MapSlotTable(l, kids[i], i, a, r);
        } else {
          MapSlotLeaf(l, kids[i], i, a, r);
          LeafLook(l, Pte(a, r), Rest(l + 1, off), r);
          SuperWhole(l, cur, r);
        }
      }
    }
  }

  lemma CoversIs(l: nat, a: nat, r: Request)
    requires l < MAX_LEVELS && Covers(l, a, r)
    ensures a <= r.va && r.va + r.len <= a + Size(l + 1)
  {
  }

  lemma DigitParts(l: nat, off: nat)
    requires 0 < l <= MAX_LEVELS && off < Size(l)
    ensures Digit(l, off) == off / Size(l - 1) && off == Digit(l, off) * Size(l - 1) + Rest(l, off)
  {
    DigitBound(off, l);
    hide Size;
  }

  /** One level of the way down to a written slot. */
  lemma HitStep(l: nat, kids: seq<Tree>, cur: nat, r: Request, off: nat)
    requires l < MAX_LEVELS && 1 <= r.va + r.len && Shaped(l + 1, Table(kids)) && off < Size(l + 1)
    requires Shaped(l + 1, Table(MapTable(l, kids, cur, r)))
    ensures var d := Digit(l + 1, off);
            && |kids| == ENTRY_COUNT && Shaped(l, kids[d])
            && (Start(l, r) <= d <= End(l, r) ==> Shaped(l, MapSlot(l, kids[d], d, cur + d * Size(l), r)))
            && (Hit(l + 1, Table(MapTable(l, kids, cur, r)), off, r) <==>
                  && Start(l, r) <= d <= End(l, r)
                  && Hit(l, MapSlot(l, kids[d], d, cur + d * Size(l), r), Rest(l + 1, off), r))
  {
    hide Size, Vpn, Start, End, MapSlot, Digit, Rest;
    assert Shaped(l, MapTable(l, kids, cur, r)[Digit(l + 1, off)]);
  }

  lemma MapSlotLeaf(l: nat, t: Tree, i: nat, a: nat, r: Request)
    requires 0 < l < MAX_LEVELS && 1 <= r.va + r.len && Shaped(l, t) && Prepared(l, t, i, r).Leaf?
    ensures MapSlot(l, t, i, a, r) == Leaf(Pte(a, r)) && !NeedsSplit(l, r, i)
  {
    hide NeedsSplit, MapTable, Pte, Size;
  }

  /** A slot above level `k` is only written when the range is that slot. */
  lemma SuperWhole(l: nat, cur: nat, r: Request)
    requires 0 < l < MAX_LEVELS && Legal(MAX_LEVELS, r) && Start(l, r) == End(l, r)
    requires Covers(l - 1, cur + Start(l, r) * Size(l), r) && !NeedsSplit(l, r, Start(l, r))
    ensures r.va == cur + Start(l, r) * Size(l) && r.len == Size(l)
  {
    SplitEnds(l, r);
    hide Size, Vpn, Start, End, NeedsSplit;
    WholeSlot(l, cur + Start(l, r) * Size(l), r.va, r.len);
  }

  lemma {:induction false} SuperCongruent(k: nat, l: nat, r: Request)
    requires k < MAX_LEVELS && l < MAX_LEVELS && Legal(MAX_LEVELS, r) && Super(k, r)
    ensures CongruentTo(l, r)
    decreases l
  {
    hide Vpn, Start, End, Size, Super, Legal;
    if l > 0 {
      SuperCongruent(k, l - 1, r);
      if l <= k {
        SuperBelow(k, l, r);
      } else {
        SuperAbove(k, l, r);
      }
    }
  }

  lemma SuperBelow(k: nat, l: nat, r: Request)
    requires 0 < l <= k < MAX_LEVELS && Legal(MAX_LEVELS, r) && Super(k, r)
    ensures Congruent(l, r)
  {
    hide *;
    LegalSum(MAX_LEVELS, r);
    SuperEnds(k, r);
    Nested(l, k);
    MultipleOfMultiple(r.pa - r.va, Size(k), Size(l));
    CongruentIf(l, r);
  }

  lemma CongruentIf(l: nat, r: Request)
    requires l < MAX_LEVELS && 1 <= r.va + r.len && (r.pa - r.va) % Size(l) == 0
    ensures Congruent(l, r)
  {
  }

  lemma SuperAbove(k: nat, l: nat, r: Request)
    requires k < l < MAX_LEVELS && Legal(MAX_LEVELS, r) && Super(k, r)
    ensures Congruent(l, r)
  {
    hide Vpn, Start, End, Size, Super;
    var s := Size(l + 1);
    var cur := r.va - r.va % s;
    Floor(r.va, s);
    if l + 1 < MAX_LEVELS {
      SuperInside(k, l + 1, cur, r);
    } else {
      SuperRoom(k, r);
    }
    assert r.len > 0 by {
      SuperNonEmpty(k, r);
    }
    SuperWindow(k, l, cur, r);
  }

  lemma SuperNonEmpty(k: nat, r: Request)
    requires k < MAX_LEVELS && Super(k, r)
    ensures r.len > 0
  {
  }

  lemma SuperRoom(k: nat, r: Request)
    requires k + 1 < MAX_LEVELS && Super(k, r) && r.va < Size(MAX_LEVELS)
    ensures r.va % Size(MAX_LEVELS) == r.va && r.va + r.len <= Size(MAX_LEVELS)
  {
    assert r.va % Size(k + 1) + r.len <= Size(k + 1);
    hide *;
    Nested(k + 1, MAX_LEVELS);
    DivUnique(r.va, Size(MAX_LEVELS), 0, r.va);
    DivUnique(0, Size(MAX_LEVELS), 0, 0);
    InBlock(0, Size(MAX_LEVELS), Size(k + 1), r.va, r.len);
  }

  lemma SuperFits(levels: nat, k: nat, r: Request)
    requires 0 < k < levels <= MAX_LEVELS && Super(k, r) && r.va < Size(levels)
    ensures Covers(levels - 1, 0, r)
  {
    if levels == k + 1 {
      assert r.va % Size(levels) == r.va;
    } else if levels < MAX_LEVELS {
      SuperInside(k, levels, 0, r);
    } else {
      SuperRoom(k, r);
    }
  }

  /** Exactness on superpages: when no table lies under the range, the range moves by the
      shift of the request and nothing else changes. */
  lemma SuperExact(levels: nat, k: nat, t: Tree, r: Request, v: nat)
    requires 0 < k < levels <= MAX_LEVELS && Legal(levels, r) && GoodFlags(r.flags) && Super(k, r)
    requires t.Table? && WF(levels, t) && Shaped(levels, t) && v < Size(levels) && NoTables(k, levels, t, 0, r)
    ensures Sound(levels, r) && Shaped(levels, MapRoot(levels, t, r)) && WF(levels, MapRoot(levels, t, r))
    ensures Look(levels, MapRoot(levels, t, r), v)
              == if r.va <= v < r.va + r.len then Target(r, v) else Look(levels, t, v)
  {
    assert Size(levels) <= Size(MAX_LEVELS);
    SuperFits(levels, k, r);
    hide Size, Vpn, Start, End, Hit, Look, MapTable, Super;
    SuperCongruent(k, levels - 1, r);
    MapSound(levels, t, r, v);
    SuperHit(k, levels - 1, t.kids, 0, r, v);
  }
}
