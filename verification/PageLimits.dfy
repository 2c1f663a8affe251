/** Where the guarantees of `map` stop: the exact conditions on a request under which they
    hold for every tree. */
module PageLimits {
  import opened Options
  import opened Arith
  import opened PageArith
  import opened PageTree
  import opened PageMap
  import opened PageMeaning
  import opened PageExact
  import opened PageSuper

  // ---- alignment of superpages ----

  /** The leaf over `off` is valid but not aligned to its level, so a lookup of `off` stops
      at the misaligned-superpage assertion. */
  predicate Trips(l: nat, t: Tree, off: nat)
    requires l <= MAX_LEVELS && off < Size(l) && Shaped(l, t)
  {
    match t
    case Leaf(v) => v < PTE_LIMIT && IsValid(v) && PermOk(v) && Phys(v) % Size(l) != 0
    case Table(kids) => Trips(l - 1, kids[Digit(l, off)], Rest(l, off))
  }

  lemma {:induction false} WFNeverTrips(l: nat, t: Tree, off: nat)
    requires l <= MAX_LEVELS && off < Size(l) && WF(l, t) && Shaped(l, t)
    ensures !Trips(l, t, off)
  {
    if t.Table? {
      WFNeverTrips(l - 1, t.kids[Digit(l, off)], Rest(l, off));
    }
  }

  lemma IncongruentAbove(k: nat, l: nat, d: int)
    requires k <= l < MAX_LEVELS && d % Size(k) != 0
    ensures d % Size(l) != 0
  {
    hide Size;
    Nested(k, l);
    if d % Size(l) == 0 {
      MultipleOfMultiple(d, Size(l), Size(k));
    }
  }

  lemma {:induction false} NotCongruent(l: nat, r: Request)
    requires l < MAX_LEVELS && 1 <= r.va + r.len && !CongruentTo(l, r)
    ensures (r.pa - r.va) % Size(l) != 0
  {
    hide Size, Vpn, Start, End;
    if Congruent(l, r) {
      NotCongruent(l - 1, r);
      IncongruentAbove(l - 1, l, r.pa - r.va);
    }
  }

  lemma BrokenSlot(l: nat, kids: seq<Tree>, cur: nat, r: Request) returns (off: nat)
    requires l < MAX_LEVELS && 1 <= r.va + r.len && Legal(MAX_LEVELS, r) && GoodFlags(r.flags) && !Congruent(l, r)
    requires cur % Size(l + 1) == 0 && cur + Size(l + 1) <= Size(MAX_LEVELS)
    requires Shaped(l + 1, Table(kids)) && forall i :: 0 <= i < ENTRY_COUNT ==> kids[i].Leaf?
    ensures Shaped(l + 1, Table(MapTable(l, kids, cur, r))) && off < Size(l + 1)
    ensures Trips(l + 1, Table(MapTable(l, kids, cur, r)), off)
  {
    hide *;
    WidestSize();
    MapShaped(l, kids, cur, r);
    var i := InteriorSlot(l, r);
    SlotBase(l, cur, i);
    InsideSlot(l, i, 0);
    off := i * Size(l);
    BrokenPte(l, cur + i * Size(l), r);
    InteriorLeaf(l, kids, cur, r, i);
    TripsAt(l, MapTable(l, kids, cur, r), i, Pte(cur + i * Size(l), r));
  }

  lemma WidestSize()
    ensures Size(MAX_LEVELS) < WORD
  {
  }

  lemma InteriorSlot(l: nat, r: Request) returns (i: nat)
    requires l < MAX_LEVELS && 1 <= r.va + r.len && !Congruent(l, r)
    ensures Start(l, r) < i < End(l, r) && l > 0 && i < ENTRY_COUNT && (r.pa - r.va) % Size(l) != 0
  {
    i := Start(l, r) + 1;
    hide Start, End, Size;
  }

  lemma InteriorLeaf(l: nat, kids: seq<Tree>, cur: nat, r: Request, i: nat)
    requires 0 < l < MAX_LEVELS && 1 <= r.va + r.len && Start(l, r) < i < End(l, r)
    requires Shaped(l + 1, Table(kids)) && kids[i].Leaf?
    ensures MapTable(l, kids, cur, r)[i] == Leaf(Pte(cur + i * Size(l), r))
  {
    InteriorNoSplit(l, r, i);
    hide Start, End, Size, Pte, NeedsSplit;
  }

  lemma TripsAt(l: nat, kids: seq<Tree>, i: nat, v: nat)
    requires l < MAX_LEVELS && Shaped(l + 1, Table(kids)) && i < ENTRY_COUNT && kids[i] == Leaf(v)
    requires v < PTE_LIMIT && IsValid(v) && PermOk(v) && Phys(v) % Size(l) != 0
    ensures i * Size(l) < Size(l + 1) && Trips(l + 1, Table(kids), i * Size(l))
  {
    hide IsValid, PermOk, Phys;
    InsideSlot(l, i, 0);
    hide Size, Digit, Rest;
  }

  lemma InteriorNoSplit(l: nat, r: Request, i: nat)
    requires l < MAX_LEVELS && 1 <= r.va + r.len && Start(l, r) < i < End(l, r)
    ensures !NeedsSplit(l, r, i)
  {
  }

  lemma BrokenPte(l: nat, a: nat, r: Request)
    requires l < MAX_LEVELS && Legal(MAX_LEVELS, r) && GoodFlags(r.flags)
    requires a < WORD && a % Size(l) == 0 && (r.pa - r.va) % Size(l) != 0
    ensures Pte(a, r) < PTE_LIMIT && IsValid(Pte(a, r)) && PermOk(Pte(a, r)) && Phys(Pte(a, r)) % Size(l) != 0
  {
    PageAligned(a, l);
    PteMeaning(a, r);
    PageModulus(a + r.pa - r.va, l);
    ModAdd(r.pa - r.va, a, Size(l));
  }

  /** If the congruence fails at some level, a table of leaves ends up with a misaligned superpage. */
  lemma {:induction false} Broken(l: nat, kids: seq<Tree>, cur: nat, r: Request) returns (off: nat)
    requires l < MAX_LEVELS && Legal(MAX_LEVELS, r) && GoodFlags(r.flags) && !CongruentTo(l, r)
    requires cur % Size(l + 1) == 0 && cur + Size(l + 1) <= Size(MAX_LEVELS)
    requires Shaped(l + 1, Table(kids)) && forall i :: 0 <= i < ENTRY_COUNT ==> kids[i].Leaf?
    ensures Shaped(l + 1, Table(MapTable(l, kids, cur, r))) && off < Size(l + 1)
    ensures Trips(l + 1, Table(MapTable(l, kids, cur, r)), off)
    decreases l
  {
    hide Vpn, Start, End, Size, Pte, NeedsSplit, Congruent;
    if !Congruent(l, r) {
      off := BrokenSlot(l, kids, cur, r);
    } else {
      MapShaped(l, kids, cur, r);
      var i := Start(l, r);
      if !NeedsSplit(l, r, i) {
        UnsplitAligned(l, i, r);
        NotCongruent(l, r);
        assert false;
      }
      SlotBase(l, cur, i);
      var p := SplitLeaf(kids[i].pte, l);
      var o := Broken(l - 1, p.kids, cur + i * Size(l), r);
      off := i * Size(l) + o;
      InsideSlot(l, i, o);
    }
  }

  function ZeroTable(): (t: Tree)
    ensures t.Table? && |t.kids| == ENTRY_COUNT
  {
    Table(seq(ENTRY_COUNT, i => Leaf(0)))
  }

  lemma ZeroWF(levels: nat)
    requires 0 < levels <= MAX_LEVELS
    ensures WF(levels, ZeroTable()) && Shaped(levels, ZeroTable())
  {
    var t := ZeroTable();
    assert 0 % Size(levels - 1) == 0;
    forall i | 0 <= i < ENTRY_COUNT
      ensures WF(levels - 1, t.kids[i])
    {
      assert t.kids[i] == Leaf(0);
    }
    WFShaped(levels, t);
  }

  /** `map` keeps every well-formed tree well formed exactly when, at each level whose window
      has a slot strictly inside, the two addresses agree modulo that level's page size. */
  lemma KeepsTreesIff(levels: nat, r: Request)
    requires 0 < levels <= MAX_LEVELS && Legal(levels, r) && GoodFlags(r.flags)
    ensures (forall t: Tree {:trigger WF(levels, t)} ::
               t.Table? && WF(levels, t) && Shaped(levels, t) ==> WF(levels, MapRoot(levels, t, r)))
            <==> CongruentTo(levels - 1, r)
  {
    hide Vpn, Start, End, MapTable;
    if CongruentTo(levels - 1, r) {
      forall t: Tree {:trigger WF(levels, t)} | t.Table? && WF(levels, t) && Shaped(levels, t)
        ensures WF(levels, MapRoot(levels, t, r))
      {
        MapWF(levels - 1, t.kids, 0, r);
      }
    } else {
      var z := ZeroTable();
      ZeroWF(levels);
      var v := FirstTrap(levels, r);
      var u := MapRoot(levels, z, r);
      assert !WF(levels, u) by {
        if WF(levels, u) {
          WFNeverTrips(levels, u, v);
        }
      }
      assert z.Table? && WF(levels, z) && Shaped(levels, z) && !WF(levels, MapRoot(levels, z, r));
    }
  }

  /** Otherwise an empty address space already traps: some lookup after the call fails the
      misaligned-superpage assertion. */
  lemma FirstTrap(levels: nat, r: Request) returns (v: nat)
    requires 0 < levels <= MAX_LEVELS && Legal(levels, r) && GoodFlags(r.flags)
    requires !CongruentTo(levels - 1, r)
    ensures Shaped(levels, ZeroTable()) && Shaped(levels, MapRoot(levels, ZeroTable(), r)) && v < Size(levels)
    ensures Trips(levels, MapRoot(levels, ZeroTable(), r), v)
  {
    ZeroWF(levels);
    v := Broken(levels - 1, ZeroTable().kids, 0, r);
  }

  /** Such requests exist: three megapages of one gigapage, with a target one page off. */
  lemma SkewedRequest() returns (r: Request, v: nat)
    ensures Legal(3, r) && GoodFlags(r.flags) && !CongruentTo(2, r) && r.va + r.len <= Size(3)
    ensures Shaped(3, ZeroTable()) && Shaped(3, MapRoot(3, ZeroTable(), r)) && v < Size(3)
    ensures Trips(3, MapRoot(3, ZeroTable(), r), v)
  {
    r := Request(0x1000, 0, 0x60_0000, 0xf);
    assert Start(1, r) == 0 && End(1, r) == 2;
    assert !Congruent(1, r);
    hide Size, Start, End, Congruent, Trips, MapRoot;
    v := FirstTrap(3, r);
  }

  // ---- exactness on every tree ----

  /** `v` ends up where an exact request would send it. */
  predicate ExactAt(levels: nat, t: Tree, r: Request, v: nat)
    requires 0 < levels <= MAX_LEVELS && t.Table? && Shaped(levels, t) && 1 <= r.va + r.len
    requires Shaped(levels, MapRoot(levels, t, r)) && v < Size(levels)
  {
    Look(levels, MapRoot(levels, t, r), v)
      == if r.va <= v < r.va + r.len then Target(r, v) else Look(levels, t, v)
  }

  /** Exactly the requested range is remapped. */
  ghost predicate Exact(levels: nat, t: Tree, r: Request)
    requires 0 < levels <= MAX_LEVELS && t.Table? && Shaped(levels, t) && 1 <= r.va + r.len
  {
    && Shaped(levels, MapRoot(levels, t, r))
    && forall v :: 0 <= v < Size(levels) ==> ExactAt(levels, t, r, v)
  }

  /** Starts inside a megapage, ends at its end. */
  predicate TailOfMegapage(r: Request)
  {
    r.va % MEGAPAGE != 0 && (r.va + r.len) % MEGAPAGE == 0 && r.len < MEGAPAGE
  }

  /** An address space with tables all the way down and nothing mapped. */
  function Full(l: nat): (t: Tree)
    ensures l > 0 ==> t.Table? && |t.kids| == ENTRY_COUNT
    ensures l > 0 ==> forall i :: 0 <= i < ENTRY_COUNT ==> t.kids[i] == Full(l - 1)
    ensures l == 0 ==> t == Leaf(0)
  {
    if l == 0 then Leaf(0) else Table(seq(ENTRY_COUNT, i => Full(l - 1)))
  }

  lemma {:induction false} FullWF(l: nat)
    requires l <= MAX_LEVELS
    ensures WF(l, Full(l)) && Shaped(l, Full(l))
  {
    if l > 0 {
      FullWF(l - 1);
    }
  }

  lemma {:induction false} FullEmpty(l: nat, off: nat)
    requires l <= MAX_LEVELS && off < Size(l) && Shaped(l, Full(l))
    ensures Look(l, Full(l), off) == None
  {
    if l > 0 {
      FullWF(l - 1);
      FullEmpty(l - 1, Rest(l, off));
    }
  }

  /** The page numbers of `x` below level `l` are all inside their windows. */
  predicate Inside(l: nat, x: nat, r: Request)
    requires l <= MAX_LEVELS && 1 <= r.va + r.len
  {
    l > 0 ==> Start(l - 1, r) <= Vpn(x, l - 1) <= End(l - 1, r) && Inside(l - 1, x, r)
  }

  lemma {:induction false} FullHit(l: nat, cur: nat, r: Request, off: nat)
    requires l < MAX_LEVELS && 1 <= r.va + r.len && cur % Size(l + 1) == 0 && off < Size(l + 1)
    requires Shaped(l + 1, Full(l + 1))
    ensures Shaped(l + 1, Table(MapTable(l, Full(l + 1).kids, cur, r)))
    ensures Hit(l + 1, Table(MapTable(l, Full(l + 1).kids, cur, r)), off, r) <==> Inside(l + 1, cur + off, r)
    decreases l
  {
    hide Vpn, Start, End, Size, Pte, NeedsSplit;
    var kids := Full(l + 1).kids;
    MapShaped(l, kids, cur, r);
    var d := Digit(l + 1, off);
    DigitBound(off, l + 1);
    WindowInside(l, cur, cur + off);
    if Start(l, r) <= d <= End(l, r) && l > 0 {
      SlotBase(l, cur, d);
      FullWF(l);
      FullHit(l - 1, cur + d * Size(l), r, Rest(l + 1, off));
    }
  }

  lemma {:induction false} StartInside(l: nat, r: Request)
    requires l <= MAX_LEVELS && 1 <= r.va + r.len
    ensures Inside(l, r.va, r)
  {
    if l > 0 {
      StartInside(l - 1, r);
    }
  }

  /** Addresses of one megapage share their page numbers above level 0. */
  lemma SameMegapage(x: nat, y: nat, l: nat)
    requires 0 < l < MAX_LEVELS && x - x % MEGAPAGE <= y < x - x % MEGAPAGE + MEGAPAGE
    ensures Vpn(x, l) == Vpn(y, l)
  {
    Nested(1, l);
    MegapageSize();
    SameBlock(x, y, MEGAPAGE, Size(l));
  }

  /** Numbers in one block of size `k` lie in one block of any multiple of `k`. */
  lemma SameBlock(x: nat, y: nat, k: nat, s: nat)
    requires k > 0 && s > 0 && s % k == 0 && x - x % k <= y < x - x % k + k
    ensures x / s == y / s
  {
    var m := x - x % k;
    var b := x - x % s;
    Floor(x, k);
    Floor(x, s);
    MultipleOfMultiple(b, s, k);
    BlockInside(m, b, k, s);
    DivUnique(y, s, x / s, y - b);
  }

  /** A block of size `k` that meets an aligned block of size `s` lies inside it. */
  lemma BlockInside(m: nat, b: nat, k: nat, s: nat)
    requires k > 0 && m % k == 0 && b % k == 0 && s % k == 0 && b < m + k && m < b + s
    ensures b <= m && m + k <= b + s
  {
    Trivial(k);
    ModAdd(b, s, k);
    ModAdd(m, k, k);
    RoundUp(b, m + k, k);
    RoundUp(m, b + s, k);
  }

  lemma MegapageSize()
    ensures Size(1) == MEGAPAGE && Size(0) == PAGE
  {
  }

  lemma {:induction false} InsideTransfer(l: nat, x: nat, y: nat, r: Request)
    requires l <= MAX_LEVELS && 1 <= r.va + r.len && Inside(l, x, r)
    requires x - x % MEGAPAGE <= y < x - x % MEGAPAGE + MEGAPAGE
    requires Start(0, r) <= Vpn(y, 0) <= End(0, r)
    ensures Inside(l, y, r)
  {
    hide Vpn, Start, End;
    if l > 0 {
      InsideTransfer(l - 1, x, y, r);
      if l > 1 {
        SameMegapage(x, y, l - 1);
      }
    }
  }

  /** Page numbers at level 0 relative to the megapage that starts at `m`. */
  lemma LastIndex(x: nat, m: nat)
    requires m % MEGAPAGE == 0 && m <= x < m + MEGAPAGE && x % PAGE == 0
    ensures Vpn(x, 0) * PAGE == x - m
    ensures x % MEGAPAGE == x - m
  {
    PageIndex(x, m);
    DivUnique(x, MEGAPAGE, m / MEGAPAGE, x - m);
  }

  lemma LegalPages(levels: nat, r: Request)
    requires levels <= MAX_LEVELS && Legal(levels, r)
    ensures r.va % PAGE == 0 && r.len % PAGE == 0 && (r.va + r.len) % PAGE == 0 && 1 <= r.va + r.len < WORD
  {
    ModAdd(r.va, r.len, PAGE);
  }

  /** A single address shows that a request is not exact on the full tree. */
  ghost predicate Shows(levels: nat, r: Request, v: nat)
    requires 0 < levels <= MAX_LEVELS && 1 <= r.va + r.len
  {
    v < Size(levels) && (Inside(levels, v, r) <==> !(r.va <= v < r.va + r.len))
  }

  /** A window that is too narrow at level 0 misses an address of the range. */
  lemma {:induction false} Missed(levels: nat, r: Request, v: nat)
    requires 0 < levels <= MAX_LEVELS && 1 <= r.va + r.len && !(Start(0, r) <= Vpn(v, 0) <= End(0, r))
    ensures !Inside(levels, v, r)
  {
    hide Vpn, Start, End;
    if levels > 1 {
      Missed(levels - 1, r, v);
    }
  }

  lemma BelowSize(levels: nat, x: nat)
    requires 1 < levels <= MAX_LEVELS && x <= Size(levels) && x % MEGAPAGE != 0
    ensures x < Size(levels)
  {
    assert Size(levels) % MEGAPAGE == 0;
  }

  lemma ShowsWhole(levels: nat, r: Request)
    requires 1 < levels <= MAX_LEVELS && Legal(levels, r) && r.va + r.len <= Size(levels)
    requires r.va % MEGAPAGE == 0 && r.len == MEGAPAGE
    ensures Shows(levels, r, r.va + PAGE)
  {
    LegalPages(levels, r);
    PageSizes();
    WindowStart(r);
    hide Vpn, Size, Legal, Inside, MEGAPAGE, PAGE, WORD, Start, End;
    ModOfMultiple(1, PAGE);
    ModOfMultiple(1, MEGAPAGE);
    ModAdd(r.va, PAGE, PAGE);
    LastIndex(r.va, r.va);
    LastIndex(r.va + PAGE, r.va);
    MulZero(Vpn(r.va, 0), PAGE);
    MulZero(Vpn(r.va + PAGE, 0), PAGE);
    ModAdd(r.va, MEGAPAGE, MEGAPAGE);
    BoundaryIndex(r.va + r.len, 0);
    Missed(levels, r, r.va + PAGE);
  }

  lemma ShowsPart(levels: nat, r: Request)
    requires 1 < levels <= MAX_LEVELS && Legal(levels, r) && r.va + r.len <= Size(levels)
    requires r.len > 0 && r.va % MEGAPAGE + r.len < MEGAPAGE
    ensures Shows(levels, r, r.va + r.len)
  {
    LegalPages(levels, r);
    PageSizes();
    WindowStart(r);
    hide Vpn, Size, Legal, Inside, MEGAPAGE, PAGE, WORD, Start, End;
    var m := r.va - r.va % MEGAPAGE;
    Floor(r.va, MEGAPAGE);
    LastIndex(r.va, m);
    LastIndex(r.va + r.len, m);
    LessMul(Vpn(r.va, 0), Vpn(r.va + r.len, 0), PAGE);
    BelowSize(levels, r.va + r.len);
    StartInside(levels, r);
    InsideTransfer(levels, r.va, r.va + r.len, r);
  }

  lemma LessMul(d: nat, e: nat, s: nat)
    requires s > 0
    ensures d * s < e * s <==> d < e
  {
    Distribute(e, d, s);
    MulSign(e - d, s);
  }

  lemma MulZero(d: nat, s: nat)
    requires s > 0
    ensures d * s == 0 <==> d == 0
  {
    MulSign(d, s);
  }

  lemma WindowStart(r: Request)
    requires 1 <= r.va + r.len
    ensures Start(0, r) == Vpn(r.va, 0)
    ensures var last := Vpn(r.va + r.len, 0);
            End(0, r) == if last < Start(0, r) then ENTRY_COUNT - 1 else last
  {
  }

  /** Pages of the next megapage come before the window of a request that starts inside one. */
  lemma ShowsNext(levels: nat, r: Request, m: nat)
    requires 1 < levels <= MAX_LEVELS && Legal(levels, r) && r.va + r.len <= Size(levels)
    requires m % MEGAPAGE == 0 && m < r.va < m + MEGAPAGE < r.va + r.len
    ensures Shows(levels, r, m + MEGAPAGE)
  {
    LegalPages(levels, r);
    PageSizes();
    WindowStart(r);
    hide Vpn, Size, Legal, Inside, MEGAPAGE, PAGE, WORD, Start, End;
    var b := m + MEGAPAGE;
    ModAdd(m, MEGAPAGE, MEGAPAGE) by { ModOfMultiple(1, MEGAPAGE); }
    ModMod(b, PAGE, ENTRY_COUNT);
    LastIndex(r.va, m);
    LastIndex(b, b);
    MulZero(Vpn(b, 0), PAGE);
    MulZero(Vpn(r.va, 0), PAGE);
    Missed(levels, r, b);
  }

  lemma LastPage(m: nat)
    requires m % MEGAPAGE == 0
    ensures Vpn(m + MEGAPAGE - PAGE, 0) == ENTRY_COUNT - 1 && (m + MEGAPAGE - PAGE) % PAGE == 0
  {
    ModMod(m, PAGE, ENTRY_COUNT);
    ModAdd(m, MEGAPAGE - PAGE, PAGE);
    LastIndex(m + MEGAPAGE - PAGE, m);
  }

  /** The last page of the first megapage comes after a window that ends before it. */
  lemma ShowsLast(levels: nat, r: Request)
    requires 1 < levels <= MAX_LEVELS && Legal(levels, r) && r.va + r.len <= Size(levels)
    requires r.va % MEGAPAGE == 0 && r.len >= MEGAPAGE && Vpn(r.va + r.len, 0) != ENTRY_COUNT - 1
    ensures Shows(levels, r, r.va + MEGAPAGE - PAGE)
  {
    LegalPages(levels, r);
    PageSizes();
    WindowStart(r);
    LastPage(r.va);
    hide Vpn, Size, Legal, Inside, MEGAPAGE, PAGE, WORD, Start, End;
    LastIndex(r.va, r.va);
    MulZero(Vpn(r.va, 0), PAGE);
    Missed(levels, r, r.va + MEGAPAGE - PAGE);
  }

  lemma ShowsCrossing(levels: nat, r: Request) returns (v: nat)
    requires 1 < levels <= MAX_LEVELS && Legal(levels, r) && r.va + r.len <= Size(levels)
    requires r.va % MEGAPAGE + r.len > MEGAPAGE
    ensures Shows(levels, r, v)
  {
    hide Vpn, Inside, Shows;
    var m := r.va - r.va % MEGAPAGE;
    Floor(r.va, MEGAPAGE);
    if r.va != m {
      v := m + MEGAPAGE;
      ShowsNext(levels, r, m);
    } else if Vpn(r.va + r.len, 0) != ENTRY_COUNT - 1 {
      v := r.va + MEGAPAGE - PAGE;
      ShowsLast(levels, r);
    } else {
      LastIndex(r.va, r.va);
      v := ShowsEnd(levels, r);
    }
  }

  lemma ShowsEnd(levels: nat, r: Request) returns (v: nat)
    requires 1 < levels <= MAX_LEVELS && Legal(levels, r) && r.va + r.len <= Size(levels) && r.len > 0
    requires Start(0, r) == 0 && Vpn(r.va + r.len, 0) == ENTRY_COUNT - 1
    ensures Shows(levels, r, v)
  {
    LegalPages(levels, r);
    PageSizes();
    WindowStart(r);
    hide Vpn, Inside, Size, Legal, MEGAPAGE, PAGE, WORD, Start, End;
    var end := r.va + r.len;
    var m := end - end % MEGAPAGE;
    Floor(end, MEGAPAGE);
    LastIndex(end, m);
    Distribute(ENTRY_COUNT, 1, PAGE);
    BelowSize(levels, end);
    var w := end - PAGE;
    ModOfMultiple(1, PAGE);
    DiffMultiple(end, PAGE, PAGE);
    RoundUp(0, r.len, PAGE);
    LastIndex(w, m);
    if Inside(levels, w, r) {
      InsideTransfer(levels, w, end, r);
      v := end;
    } else {
      v := w;
    }
  }

  /** Unless the request is the tail of a megapage, some address shows that it is not exact. */
  lemma ShowsSome(levels: nat, r: Request) returns (v: nat)
    requires 1 < levels <= MAX_LEVELS && Legal(levels, r) && r.va + r.len <= Size(levels)
    requires r.len > 0 && !TailOfMegapage(r)
    ensures Shows(levels, r, v)
  {
    hide Vpn, Inside;
    var o := r.va % MEGAPAGE;
    Floor(r.va, MEGAPAGE);
    if o + r.len > MEGAPAGE {
      v := ShowsCrossing(levels, r);
    } else if o + r.len < MEGAPAGE {
      v := r.va + r.len;
      ShowsPart(levels, r);
    } else {
      ModAdd(r.va - o, MEGAPAGE, MEGAPAGE);
      assert o == 0;
      v := r.va + PAGE;
      ShowsWhole(levels, r);
    }
  }

  lemma TailIsSmall(r: Request)
    requires r.len > 0 && TailOfMegapage(r)
    ensures Small(r) && SmallEnd(r) == r.va + r.len
  {
    var o := r.va % MEGAPAGE;
    Floor(r.va, MEGAPAGE);
    DiffMultiple(r.va + r.len, r.va - o, MEGAPAGE);
    assert o + r.len == MEGAPAGE;
  }

  lemma TailExact(levels: nat, t: Tree, r: Request)
    requires 1 < levels <= MAX_LEVELS && Sound(levels, r) && r.len > 0 && r.va + r.len <= Size(levels)
    requires TailOfMegapage(r) && t.Table? && WF(levels, t) && Shaped(levels, t)
    ensures Exact(levels, t, r)
  {
    hide Size, Vpn, Start, End, TailOfMegapage, ExactAt, Look;
    MapShaped(levels - 1, t.kids, 0, r);
    forall v | 0 <= v < Size(levels)
      ensures ExactAt(levels, t, r, v)
    {
      TailExactAt(levels, t, r, v);
    }
  }

  lemma TailExactAt(levels: nat, t: Tree, r: Request, v: nat)
    requires 1 < levels <= MAX_LEVELS && Sound(levels, r) && r.len > 0 && r.va + r.len <= Size(levels)
    requires TailOfMegapage(r) && t.Table? && WF(levels, t) && Shaped(levels, t) && v < Size(levels)
    requires Shaped(levels, MapRoot(levels, t, r))
    ensures ExactAt(levels, t, r, v)
  {
    TailIsSmall(r);
    hide Size, Vpn, Start, End, MapTable, Small, SmallEnd, TailOfMegapage;
    SmallExact(levels, t, r, v);
  }

  /** A sound request remaps exactly its range on every well-formed tree if and only if it
      starts inside a megapage and ends at that megapage's end. */
  lemma ExactOnEveryTreeIff(levels: nat, r: Request)
    requires 1 < levels <= MAX_LEVELS && Sound(levels, r) && r.len > 0 && r.va + r.len <= Size(levels)
    ensures (forall t: Tree {:trigger WF(levels, t)} ::
               t.Table? && WF(levels, t) && Shaped(levels, t) ==> Exact(levels, t, r))
            <==> TailOfMegapage(r)
  {
    hide Size, Vpn, Start, End, MapTable, Small, SmallEnd, TailOfMegapage;
    if TailOfMegapage(r) {
      forall t: Tree {:trigger WF(levels, t)} | t.Table? && WF(levels, t) && Shaped(levels, t)
        ensures Exact(levels, t, r)
      {
        TailExact(levels, t, r);
      }
    } else {
      var t := Full(levels);
      FullWF(levels);
      var v := ShowsSome(levels, r);
      NotExact(levels, r, v);
      assert t.Table? && WF(levels, t) && Shaped(levels, t) && !Exact(levels, t, r);
    }
  }

  lemma NotExact(levels: nat, r: Request, v: nat)
    requires 1 < levels <= MAX_LEVELS && Sound(levels, r) && Shows(levels, r, v)
    requires WF(levels, Full(levels)) && Shaped(levels, Full(levels))
    ensures !Exact(levels, Full(levels), r)
  {
    hide Size, Vpn, Start, End, MapTable, Look, Inside, Hit;
    var t := Full(levels);
    MapSound(levels, t, r, v);
    FullEmpty(levels, v);
    FullHit(levels - 1, 0, r, v);
    assert !ExactAt(levels, t, r, v);
  }
}
