/** The page tables in memory, with `split` and `map` writing them in place. */
module PageTables {
  import opened Arith
  import opened PageArith
  import opened PageTree
  import opened PageMap
  import opened PagePlaced
  import opened PageQuery
  import opened PageWalk

  // ---- which trees a call can rewrite ----

  /** A leaf that `split` can replace: the address counter does not overflow, and the parts of a
      valid leaf are leaves too unless they are pages. */
  predicate WordSplits(l: nat, v: nat)
    requires l <= MAX_LEVELS
  {
    v + Size(l) / 4 < WORD && (l > 1 && IsValid(v) ==> IsRead(v) || IsExecute(v))
  }

  /** What the call `r` meets in slot `i` of a level-`l` table, or below it, is recognised for what
      it is: a leaf above level 0 does not look like a pointer, and can be split if it must. */
  ghost predicate MapsKid(l: nat, i: nat, t: Tree, r: Request)
    requires l < MAX_LEVELS && Shaped(l, t) && 1 <= r.va + r.len
  {
    match t
    case Leaf(v) => l > 0 ==> IsLeaf(v) && (NeedsSplit(l, r, i) ==> WordSplits(l, v))
    case Table(kids) => forall j :: Start(l - 1, r) <= j <= End(l - 1, r) ==> MapsKid(l - 1, j, kids[j], r)
  }

  /** The same for the whole address space. */
  ghost predicate MapsOver(levels: nat, t: Tree, r: Request)
    requires 0 < levels <= MAX_LEVELS && Shaped(levels, t) && t.Table? && 1 <= r.va + r.len
  {
    forall j :: Start(levels - 1, r) <= j <= End(levels - 1, r) ==> MapsKid(levels - 1, j, t.kids[j], r)
  }

  lemma SplitMapsKid(v: nat, l: nat, i: nat, r: Request)
    requires 0 < l < MAX_LEVELS && WordSplits(l, v) && 1 <= r.va + r.len
    ensures MapsKid(l, i, SplitLeaf(v, l), r)
  {
    hide Start, End, NeedsSplit;
    var t := SplitLeaf(v, l);
    forall j | Start(l - 1, r) <= j <= End(l - 1, r)
      ensures MapsKid(l - 1, j, t.kids[j], r)
    {
      SplitStep(v, l, j);
      SplitEntryFlags(v, l, j);
    }
  }

  /** Every leaf above level 0 looks like one and can be split: then every call can be made. */
  ghost predicate Splittable(l: nat, t: Tree)
    requires l <= MAX_LEVELS && Shaped(l, t)
  {
    match t
    case Leaf(v) => WordSplits(l, v) && (l > 0 ==> IsLeaf(v))
    case Table(kids) => forall i :: 0 <= i < ENTRY_COUNT ==> Splittable(l - 1, kids[i])
  }

  lemma {:induction false} SplittableMapsKid(l: nat, i: nat, t: Tree, r: Request)
    requires l < MAX_LEVELS && Shaped(l, t) && 1 <= r.va + r.len && Splittable(l, t)
    ensures MapsKid(l, i, t, r)
  {
    hide Start, End, NeedsSplit, WordSplits, IsLeaf;
    if t.Table? {
      forall j | Start(l - 1, r) <= j <= End(l - 1, r)
        ensures MapsKid(l - 1, j, t.kids[j], r)
      {
        SplittableMapsKid(l - 1, j, t.kids[j], r);
      }
    }
  }

  lemma SplittableMapsOver(levels: nat, t: Tree, r: Request)
    requires 0 < levels <= MAX_LEVELS && Shaped(levels, t) && t.Table? && 1 <= r.va + r.len && Splittable(levels, t)
    ensures MapsOver(levels, t, r)
  {
    hide Start, End, MapsKid;
    forall j | Start(levels - 1, r) <= j <= End(levels - 1, r)
      ensures MapsKid(levels - 1, j, t.kids[j], r)
    {
      SplittableMapsKid(levels - 1, j, t.kids[j], r);
    }
  }

  /** Well-formed trees are splittable. */
  lemma {:induction false} WFSplittable(l: nat, t: Tree)
    requires l <= MAX_LEVELS && Shaped(l, t) && WF(l, t)
    ensures Splittable(l, t)
  {
    if t.Table? {
      forall i | 0 <= i < ENTRY_COUNT
        ensures Splittable(l - 1, t.kids[i])
      {
        WFSplittable(l - 1, t.kids[i]);
      }
    }
  }

  lemma SplitSplittable(v: nat, l: nat)
    requires 0 < l <= MAX_LEVELS && WordSplits(l, v)
    ensures Splittable(l, SplitLeaf(v, l))
  {
    var t := SplitLeaf(v, l);
    forall j | 0 <= j < ENTRY_COUNT
      ensures Splittable(l - 1, t.kids[j])
    {
      SplitStep(v, l, j);
      SplitEntryFlags(v, l, j);
    }
  }

  /** A call whose flags do not spell a table pointer leaves a splittable tree splittable. */
  lemma {:induction false} MapSplittable(l: nat, kids: seq<Tree>, cur: nat, r: Request)
    requires l < MAX_LEVELS && Legal(MAX_LEVELS, r) && LeafFlags(r.flags)
    requires cur % Size(l + 1) == 0 && cur + Size(l + 1) <= Size(MAX_LEVELS)
    requires Shaped(l + 1, Table(kids)) && Splittable(l + 1, Table(kids))
    ensures Shaped(l + 1, Table(MapTable(l, kids, cur, r)))
    ensures Splittable(l + 1, Table(MapTable(l, kids, cur, r)))
    decreases l, 1
  {
    hide Size, Vpn, Start, End, NeedsSplit, Pte, WordSplits, IsLeaf;
    MapShaped(l, kids, cur, r);
    forall i | 0 <= i < ENTRY_COUNT
      ensures Splittable(l, MapTable(l, kids, cur, r)[i])
    {
      if Start(l, r) <= i <= End(l, r) {
        MapSlotSplittable(l, kids[i], cur, i, r);
      }
    }
  }

  lemma {:induction false} MapSlotSplittable(l: nat, t: Tree, cur: nat, i: nat, r: Request)
    requires l < MAX_LEVELS && Legal(MAX_LEVELS, r) && LeafFlags(r.flags) && i < ENTRY_COUNT
    requires cur % Size(l + 1) == 0 && cur + Size(l + 1) <= Size(MAX_LEVELS)
    requires Shaped(l, t) && Splittable(l, t)
    ensures Shaped(l, MapSlot(l, t, i, cur + i * Size(l), r))
    ensures Splittable(l, MapSlot(l, t, i, cur + i * Size(l), r))
    decreases l, 0
  {
    PteSplits(l, cur, i, r);
    SlotBase(l, cur, i);
    hide Size, Vpn, Start, End, NeedsSplit, Pte, WordSplits, IsLeaf;
    if l > 0 {
      var p := Prepared(l, t, i, r);
      if t.Leaf? {
        SplitSplittable(t.pte, l);
      }
      if p.Table? {
        MapSplittable(l - 1, p.kids, cur + i * Size(l), r);
      }
    }
  }

  lemma PteSplits(l: nat, cur: nat, i: nat, r: Request)
    requires l < MAX_LEVELS && Legal(MAX_LEVELS, r) && LeafFlags(r.flags) && i < ENTRY_COUNT
    requires cur % Size(l + 1) == 0 && cur + Size(l + 1) <= Size(MAX_LEVELS)
    ensures WordSplits(l, Pte(cur + i * Size(l), r)) && IsLeaf(Pte(cur + i * Size(l), r))
  {
    SlotBase(l, cur, i);
    PageAligned(cur + i * Size(l), l);
    PteFlags(cur + i * Size(l), r);
    assert PTE_LIMIT + Size(l) / 4 < WORD;
    hide Pte, IsValid, IsRead, IsExecute, Size;
  }

  lemma SplitEntryFlags(v: nat, l: nat, j: nat)
    requires 0 < l <= MAX_LEVELS && j < ENTRY_COUNT
    ensures var w := SplitPte(v, l, j);
            (IsValid(w) <==> IsValid(v)) && (IsRead(w) <==> IsRead(v)) && (IsExecute(w) <==> IsExecute(v))
  {
    var inc := Size(l - 1) / 4;
    assert inc % 1024 == 0;
    ModMultipleOf(j, inc, 1024);
    var n := j * inc / 1024;
    assert j * inc == n * 1024;
    AddPages(v, n);
  }

  lemma SplitStep(v: nat, l: nat, j: nat)
    requires 0 < l <= MAX_LEVELS && j < ENTRY_COUNT
    ensures SplitPte(v, l, j) + Size(l - 1) / 4 <= v + Size(l) / 4
    ensures SplitPte(v, l, j + 1) == SplitPte(v, l, j) + Size(l - 1) / 4
  {
    var inc := Size(l - 1) / 4;
    assert Size(l) / 4 == ENTRY_COUNT * inc;
    Distribute(ENTRY_COUNT, j, inc);
    Distribute(j, 1, inc);
    MulSign(ENTRY_COUNT - j, inc);
  }

  /** The address part of a split entry; its flags are those of the leaf. */
  lemma SplitParts(v: nat, l: nat, j: nat)
    requires 0 < l <= MAX_LEVELS && j < ENTRY_COUNT
    ensures var cur := v / 256 * 256 + j * (Size(l - 1) / 4);
            cur % 256 == 0 && Or(cur, v % 256) == SplitPte(v, l, j)
  {
    var inc := Size(l - 1) / 4;
    assert inc % 256 == 0;
    ModMultipleOf(j, inc, 256);
    ModAdd(v / 256 * 256, j * inc, 256);
    OrFlags(v / 256 * 256 + j * inc, v % 256);
  }

  lemma ModMultipleOf(j: nat, x: nat, s: nat)
    requires s > 0 && x % s == 0
    ensures (j * x) % s == 0
  {
    var k := x / s;
    assert x == k * s;
    assert j * (k * s) == (j * k) * s;
    ModOfMultiple(j * k, s);
  }

  /** The pointer to a fresh table is a table entry for that page. */
  lemma PointerEntry(q: nat)
    requires q % PAGE == 0 && 0 < q < PHYS
    ensures var e := q / 4 + 1;
            Or(q / 4, 1) == e && Points(e, q)
  {
    var n := q / PAGE;
    assert q == n * 4096 && q / 4 == n * 1024;
    assert (n * 1024) % 256 == 0;
    hide Points;
    OrFlags(n * 1024, 1);
    PointerFields(n);
  }

  lemma PointerFields(n: nat)
    requires 0 < n < PTE_LIMIT / 1024
    ensures Points(1 + n * 1024, n * 4096)
  {
    var e := 1 + n * 1024;
    AddPages(1, n);
    OneIsPointer();
    PointerAddress(n);
    hide IsRead, IsExecute, IsValid, IsWrite, Address;
  }

  lemma PointerAddress(n: nat)
    requires 0 < n < PTE_LIMIT / 1024
    ensures var e := 1 + n * 1024; e / 256 == 4 * n && e < PTE_LIMIT && Address(e) == n * 4096 && (n * 4096) % PAGE == 0
  {
    DivUnique(1 + n * 1024, 256, 4 * n, 1);
    ModOfMultiple(n, PAGE);
    DivUnique(n * 4096, WORD, 0, n * 4096);
  }

  lemma OneIsPointer()
    ensures !IsRead(1) && !IsExecute(1) && IsValid(1) && !IsWrite(1)
  {
  }

  /** The words of the table that replaces a leaf. */
  ghost function SplitWords(v: nat, l: nat): (w: seq<nat>)
    requires 0 < l <= MAX_LEVELS
    ensures |w| == ENTRY_COUNT
  {
    seq(ENTRY_COUNT, j requires 0 <= j < ENTRY_COUNT => SplitPte(v, l, j))
  }

  /** The loop of `Entry::split` over a fresh table, whatever that table contained. */
  method FillSplit(uninit: seq<nat>, value: nat, l: nat) returns (entries: seq<nat>)
    requires |uninit| == ENTRY_COUNT && 0 < l <= MAX_LEVELS && value + Size(l) / 4 < WORD
    ensures entries == SplitWords(value, l)
  {
    FillStart(value, l);
    hide *;
    entries := uninit;
    var current := value / 256 * 256;
    var flags := value % 256;
    var increment := Size(l - 1) / 4;
    for j := 0 to ENTRY_COUNT
      invariant |entries| == ENTRY_COUNT
      invariant current == FillAt(value, l, j)
      invariant forall k :: 0 <= k < j ==> entries[k] == SplitPte(value, l, k)
    {
      FillStep(value, l, j);
      entries := entries[j := Or(current, flags)];
      assert current + increment < WORD;
      current := current + increment;
    }
    FillDone(value, l, entries);
  }

  /** The address counter of `split` at entry `j`. */
  function FillAt(v: nat, l: nat, j: nat): nat
    requires 0 < l <= MAX_LEVELS
  {
    v / 256 * 256 + j * (Size(l - 1) / 4)
  }

  lemma FillStart(v: nat, l: nat)
    requires 0 < l <= MAX_LEVELS
    ensures FillAt(v, l, 0) == v / 256 * 256
  {
  }

  lemma FillStep(v: nat, l: nat, j: nat)
    requires 0 < l <= MAX_LEVELS && j < ENTRY_COUNT && v + Size(l) / 4 < WORD
    ensures Or(FillAt(v, l, j), v % 256) == SplitPte(v, l, j)
    ensures FillAt(v, l, j + 1) == FillAt(v, l, j) + Size(l - 1) / 4 < WORD
  {
    SplitParts(v, l, j);
    SplitStep(v, l, j);
    Distribute(j, 1, Size(l - 1) / 4);
    hide Or, Size;
  }

  lemma FillDone(v: nat, l: nat, entries: seq<nat>)
    requires 0 < l <= MAX_LEVELS && |entries| == ENTRY_COUNT
    requires forall k :: 0 <= k < ENTRY_COUNT ==> entries[k] == SplitPte(v, l, k)
    ensures entries == SplitWords(v, l)
  {
    hide SplitPte;
  }

  /** Slot `i` is as the call expects it. */
  ghost predicate SlotReady(level: nat, i: nat, c: Placed, r: Request)
  {
    level < MAX_LEVELS && 1 <= r.va + r.len && Shaped(level, Shape(c)) && MapsKid(level, i, Shape(c), r)
  }

  /** The first slot of a window. */
  ghost function From(level: nat, r: Request): nat
  {
    if level < MAX_LEVELS && 1 <= r.va + r.len then Start(level, r) else 0
  }

  /** What `map_internal` finds in `table` before slot `from` of its window. */
  ghost predicate Ready(h: Memory, free: set<nat>, level: nat, table: nat, r: Request, cur: nat, t: Placed, from: nat)
  {
    && level < MAX_LEVELS && Legal(MAX_LEVELS, r)
    && cur % Size(level + 1) == 0 && cur + Size(level + 1) <= Size(MAX_LEVELS)
    && t.PTable? && t.page == table && Stored(h, level + 1, t) && NoSharing(t)
    && Pool(h, free) && free !! Pages(t)
    && Shaped(level + 1, Shape(t)) && Start(level, r) <= from
    && forall j :: from <= j <= End(level, r) ==> SlotReady(level, j, t.kids[j], r)
  }

  lemma WordBound(a: nat, r: Request)
    ensures Pte(a, r) < WORD
  {
    hide Or, Offset;
  }

  /** The table installed by a split, as a placed tree. */
  ghost function SplitPlaced(v: nat, l: nat, q: nat): (c: Placed)
    requires 0 < l <= MAX_LEVELS
    ensures c.PTable? && c.page == q && |c.kids| == ENTRY_COUNT
    ensures forall j :: 0 <= j < ENTRY_COUNT ==> c.kids[j] == PLeaf(SplitPte(v, l, j))
    ensures Shape(c) == SplitLeaf(v, l)
  {
    var c := PTable(q, seq(ENTRY_COUNT, j requires 0 <= j < ENTRY_COUNT => PLeaf(SplitPte(v, l, j))));
    assert Shape(c).kids == SplitLeaf(v, l).kids;
    c
  }

  /** Memory and tree right after a split of slot `i`. */
  lemma AfterSplit(h: Memory, free: set<nat>, l: nat, t: Placed, i: nat, q: nat)
    requires t.PTable? && 0 < l < MAX_LEVELS && Stored(h, l + 1, t) && NoSharing(t) && i < ENTRY_COUNT
    requires Pool(h, free) && free !! Pages(t) && q in free && q != t.page
    requires t.kids[i].PLeaf? && WordSplits(l, t.kids[i].pte)
    ensures var c := SplitPlaced(t.kids[i].pte, l, q);
            var h' := SetWord(h[q := SplitWords(t.kids[i].pte, l)], t.page, i, q / 4 + 1);
            Stepped(h, free, h', free - {q}, l + 1, t, PTable(t.page, t.kids[i := c]))
  {
    var v := t.kids[i].pte;
    var c := SplitPlaced(v, l, q);
    PointerEntry(q);
    SplitWordsOk(v, l);
    hide IsLeaf, Address, Size;
    WriteTable(h, free, l + 1, t, i, q, q / 4 + 1, SplitWords(v, l), c);
  }

  lemma SplitWordsOk(v: nat, l: nat)
    requires 0 < l <= MAX_LEVELS && WordSplits(l, v)
    ensures forall j :: 0 <= j < ENTRY_COUNT ==> SplitWords(v, l)[j] < WORD
  {
    forall j | 0 <= j < ENTRY_COUNT
      ensures SplitWords(v, l)[j] < WORD
    {
      SplitStep(v, l, j);
    }
  }

  /** The subtree in slot `i` can be entered. */
  lemma EnterSlot(h: Memory, free: set<nat>, level: nat, table: nat, r: Request, cur: nat, t: Placed, i: nat)
    requires Ready(h, free, level, table, r, cur, t, i) && level > 0 && i <= End(level, r) && t.kids[i].PTable?
    ensures Slot(h, level, h[table][i], t.kids[i])
    ensures Ready(h, free, level - 1, Address(h[table][i]), r, cur + i * Size(level), t.kids[i], From(level - 1, r))
  {
    SlotBase(level, cur, i);
    KidPages(t, i);
    assert Slot(h, level, h[table][i], t.kids[i]);
    KidsReady(level, i, t.kids[i], r);
    hide Size, IsLeaf, Address, Legal, Start, End, MapsKid, SlotReady;
  }

  lemma KidsReady(level: nat, i: nat, c: Placed, r: Request)
    requires SlotReady(level, i, c, r) && c.PTable? && level > 0 && |c.kids| == ENTRY_COUNT
    ensures forall j :: Start(level - 1, r) <= j <= End(level - 1, r) ==> SlotReady(level - 1, j, c.kids[j], r)
  {
    hide Start, End, NeedsSplit, IsLeaf, WordSplits;
    forall j | Start(level - 1, r) <= j <= End(level - 1, r)
      ensures SlotReady(level - 1, j, c.kids[j], r)
    {
      assert Shape(c).kids[j] == Shape(c.kids[j]);
    }
  }

  /** After a step that leaves the slots from `from` on as they were, or ready, the loop can go on. */
  lemma StillReady(h: Memory, free: set<nat>, h': Memory, free': set<nat>,
                   level: nat, table: nat, r: Request, cur: nat, t: Placed, from: nat, u: Placed, from': nat)
    requires Ready(h, free, level, table, r, cur, t, from) && Stepped(h, free, h', free', level + 1, t, u)
    requires from <= from' && u.PTable? && |u.kids| == ENTRY_COUNT
    requires forall j :: from' <= j <= End(level, r) ==> u.kids[j] == t.kids[j] || SlotReady(level, j, u.kids[j], r)
    ensures Ready(h', free', level, table, r, cur, u, from')
  {
    hide *;
    ReadyCore(h, free, level, table, r, cur, t, from);
    StepPool(h, free, h', free', level + 1, t, u);
    StoredShaped(h', level + 1, u);
    forall j | from' <= j <= End(level, r)
      ensures SlotReady(level, j, u.kids[j], r)
    {
      ReadySlot(h, free, level, table, r, cur, t, from, j);
    }
    ReadyIs(h', free', level, table, r, cur, u, from');
  }

  lemma ReadyCore(h: Memory, free: set<nat>, level: nat, table: nat, r: Request, cur: nat, t: Placed, from: nat)
    requires Ready(h, free, level, table, r, cur, t, from)
    ensures level < MAX_LEVELS && Legal(MAX_LEVELS, r) && 1 <= r.va + r.len && Start(level, r) <= from
    ensures cur % Size(level + 1) == 0 && cur + Size(level + 1) <= Size(MAX_LEVELS)
    ensures t.PTable? && t.page == table && |t.kids| == ENTRY_COUNT && Pool(h, free) && free !! Pages(t)
    ensures Stored(h, level + 1, t) && NoSharing(t) && (from <= End(level, r) ==> from < ENTRY_COUNT)
  {
    hide NoSharing, Pages, SlotReady, Start, End, Size, Shaped, Shape, Pool;
  }

  lemma ReadySlot(h: Memory, free: set<nat>, level: nat, table: nat, r: Request, cur: nat, t: Placed, from: nat, j: nat)
    requires Ready(h, free, level, table, r, cur, t, from) && from <= j <= End(level, r)
    ensures t.PTable? && j < |t.kids| && SlotReady(level, j, t.kids[j], r)
  {
    hide NoSharing, Pages, SlotReady, Start, End, Size, Shaped, Shape, Pool;
  }

  lemma ReadyIs(h: Memory, free: set<nat>, level: nat, table: nat, r: Request, cur: nat, t: Placed, from: nat)
    requires level < MAX_LEVELS && Legal(MAX_LEVELS, r) && 1 <= r.va + r.len && Start(level, r) <= from
    requires cur % Size(level + 1) == 0 && cur + Size(level + 1) <= Size(MAX_LEVELS)
    requires t.PTable? && t.page == table && |t.kids| == ENTRY_COUNT && Pool(h, free) && free !! Pages(t)
    requires Stored(h, level + 1, t) && NoSharing(t) && Shaped(level + 1, Shape(t))
    requires forall j :: from <= j <= End(level, r) ==> SlotReady(level, j, t.kids[j], r)
    ensures Ready(h, free, level, table, r, cur, t, from)
  {
    hide NoSharing, Pages, SlotReady, Start, End, Size, Shaped, Shape, Pool, Stored, Legal;
  }

  /** Slot `i` of `t` became what `want` says; the other slots are untouched. */
  ghost predicate OnlySlot(t: Placed, u: Placed, i: nat, want: Tree)
  {
    && t.PTable? && u.PTable? && u.page == t.page && |t.kids| == ENTRY_COUNT == |u.kids| && i < ENTRY_COUNT
    && (forall j :: 0 <= j < ENTRY_COUNT && j != i ==> u.kids[j] == t.kids[j])
    && Shape(u.kids[i]) == want
  }

  /** What the writing half of an iteration leaves in a slot that holds `p`. */
  ghost function Written(level: nat, p: Tree, a: nat, r: Request): Tree
  {
    if 0 < level < MAX_LEVELS && 1 <= r.va + r.len && p.Table? && Shaped(level, p) then
      Table(MapTable(level - 1, p.kids, a, r))
    else
      Leaf(Pte(a, r))
  }

  lemma SlotShape(level: nat, t: Placed, i: nat)
    requires t.PTable? && |t.kids| == ENTRY_COUNT && i < ENTRY_COUNT && Shaped(level + 1, Shape(t))
    ensures Shaped(level, Shape(t.kids[i])) && Shape(t).kids[i] == Shape(t.kids[i])
  {
  }

  /** What one iteration leaves in its slot. */
  ghost function SlotResult(level: nat, t: Placed, vpn: nat, cur: nat, r: Request): Tree
  {
    if level < MAX_LEVELS && 1 <= r.va + r.len && t.PTable? && vpn < |t.kids| && Shaped(level, Shape(t.kids[vpn])) then
      MapSlot(level, Shape(t.kids[vpn]), vpn, cur + vpn * Size(level), r)
    else
      Leaf(0)
  }

  lemma TableShape(level: nat, t: Placed)
    requires t.PTable? && |t.kids| == ENTRY_COUNT && Shaped(level + 1, Shape(t))
    ensures forall i :: 0 <= i < ENTRY_COUNT ==>
              Shaped(level, Shape(t.kids[i])) && Shape(t).kids[i] == Shape(t.kids[i])
  {
    forall i | 0 <= i < ENTRY_COUNT
      ensures Shaped(level, Shape(t.kids[i])) && Shape(t).kids[i] == Shape(t.kids[i])
    {
      SlotShape(level, t, i);
    }
  }

  /** What the words of a table say about the tree. */
  lemma ReadyWords(h: Memory, free: set<nat>, level: nat, table: nat, r: Request, cur: nat, t: Placed, i: nat)
    requires Ready(h, free, level, table, r, cur, t, i) && i <= End(level, r)
    ensures level < MAX_LEVELS && 1 <= r.va + r.len && i < ENTRY_COUNT && t.PTable? && |t.kids| == ENTRY_COUNT
    ensures table in h && |h[table]| == ENTRY_COUNT && Shaped(level, Shape(t.kids[i]))
    ensures level > 0 ==> (IsLeaf(h[table][i]) <==> t.kids[i].PLeaf?)
  {
    SlotShape(level, t, i);
    assert Slot(h, level, h[table][i], t.kids[i]);
    if t.kids[i].PLeaf? {
      SlotWord(level, i, t.kids[i], r);
    }
    hide IsLeaf, Address, Size, NoSharing, Pages, MapsKid, Start, End;
  }

  lemma SlotWord(level: nat, i: nat, c: Placed, r: Request)
    requires SlotReady(level, i, c, r) && c.PLeaf?
    ensures level > 0 ==> IsLeaf(c.pte) && (NeedsSplit(level, r, i) ==> WordSplits(level, c.pte))
  {
    hide IsLeaf, NeedsSplit, WordSplits;
  }

  /** The step from `t` to `u` that writes slot `i`. */
  ghost predicate WroteSlot(h: Memory, free: set<nat>, h': Memory, free': set<nat>,
                            level: nat, r: Request, cur: nat, t: Placed, i: nat, u: Placed)
  {
    && level < MAX_LEVELS && t.PTable? && i < |t.kids| && Stepped(h, free, h', free', level + 1, t, u)
    && OnlySlot(t, u, i, Written(level, Shape(t.kids[i]), cur + i * Size(level), r))
  }

  lemma WrittenIs(level: nat, p: Tree, a: nat, r: Request)
    requires p.Table? ==> 0 < level < MAX_LEVELS && 1 <= r.va + r.len && Shaped(level, p)
    ensures Written(level, p, a, r) == if p.Table? then Table(MapTable(level - 1, p.kids, a, r)) else Leaf(Pte(a, r))
  {
  }

  lemma WroteIs(h: Memory, free: set<nat>, h': Memory, free': set<nat>,
                level: nat, r: Request, cur: nat, t: Placed, i: nat, c: Placed)
    requires level < MAX_LEVELS && t.PTable? && |t.kids| == ENTRY_COUNT && i < ENTRY_COUNT
    requires Stepped(h, free, h', free', level + 1, t, PTable(t.page, t.kids[i := c]))
    requires Shape(c) == Written(level, Shape(t.kids[i]), cur + i * Size(level), r)
    ensures WroteSlot(h, free, h', free', level, r, cur, t, i, PTable(t.page, t.kids[i := c]))
  {
    hide Shape, Stepped, Size, Written;
  }

  lemma FinishTable(h: Memory, free: set<nat>, h': Memory, free': set<nat>,
                    level: nat, table: nat, r: Request, cur: nat, t: Placed, i: nat, c: Placed) returns (u: Placed)
    requires Ready(h, free, level, table, r, cur, t, i) && i <= End(level, r) && level > 0 && t.kids[i].PTable?
    requires Stepped(h, free, h', free', level, t.kids[i], c) && Shaped(level, Shape(t.kids[i]))
    requires Shape(c) == Table(MapTable(level - 1, Shape(t.kids[i]).kids, cur + i * Size(level), r))
    ensures WroteSlot(h, free, h', free', level, r, cur, t, i, u)
  {
    hide *;
    ReadyCore(h, free, level, table, r, cur, t, i);
    ShapeTable(t.kids[i]);
    WrittenIs(level, Shape(t.kids[i]), cur + i * Size(level), r);
    u := PTable(table, t.kids[i := c]);
    LiftStep(h, free, h', free', level + 1, t, i, c);
    WroteIs(h, free, h', free', level, r, cur, t, i, c);
  }

  lemma FinishLeaf(h: Memory, free: set<nat>, level: nat, table: nat, r: Request, cur: nat, t: Placed, i: nat)
      returns (u: Placed)
    requires Ready(h, free, level, table, r, cur, t, i) && i <= End(level, r) && t.kids[i].PLeaf?
    requires table in h && |h[table]| == ENTRY_COUNT
    ensures WroteSlot(h, free, SetWord(h, table, i, Pte(cur + i * Size(level), r)), free, level, r, cur, t, i, u)
  {
    hide *;
    ReadyCore(h, free, level, table, r, cur, t, i);
    WordBound(cur + i * Size(level), r);
    var v := Pte(cur + i * Size(level), r);
    ShapeLeaf(t.kids[i]);
    ShapeLeaf(PLeaf(v));
    WrittenIs(level, Shape(t.kids[i]), cur + i * Size(level), r);
    u := PTable(table, t.kids[i := PLeaf(v)]);
    WriteLeaf(h, free, level + 1, t, i, v);
    WroteIs(h, free, SetWord(h, table, i, v), free, level, r, cur, t, i, PLeaf(v));
  }

  /** At level 0 every word is a leaf of the tree. */
  lemma BottomIsLeaf(h: Memory, free: set<nat>, table: nat, r: Request, cur: nat, t: Placed, i: nat)
    requires Ready(h, free, 0, table, r, cur, t, i) && i <= End(0, r)
    ensures t.kids[i].PLeaf?
  {
    hide IsLeaf, Address, Size, NoSharing, Pages, SlotReady;
    assert Slot(h, 0, h[table][i], t.kids[i]);
  }

  /** The step from `t` to `u` that prepares slot `i`; at level 0 there is nothing to prepare. */
  ghost predicate PreparedSlot(h: Memory, free: set<nat>, h': Memory, free': set<nat>,
                               level: nat, table: nat, r: Request, cur: nat, t: Placed, i: nat, u: Placed)
  {
    && Ready(h', free', level, table, r, cur, u, i) && Stepped(h, free, h', free', level + 1, t, u)
    && t.PTable? && i < |t.kids| && (level == 0 ==> u == t)
    && (level > 0 ==> Shaped(level, Shape(t.kids[i])) && OnlySlot(t, u, i, Prepared(level, Shape(t.kids[i]), i, r)))
  }

  lemma NothingToPrepare(h: Memory, free: set<nat>, level: nat, table: nat, r: Request, cur: nat, t: Placed, i: nat)
    requires Ready(h, free, level, table, r, cur, t, i) && i <= End(level, r) && Shaped(level, Shape(t.kids[i]))
    requires level > 0 ==> Prepared(level, Shape(t.kids[i]), i, r) == Shape(t.kids[i])
    ensures PreparedSlot(h, free, h, free, level, table, r, cur, t, i, t)
  {
    StepRefl(h, free, level + 1, t);
    hide SlotReady, NoSharing, Pages, Shape, Stored, Size, NeedsSplit, Legal, Start, End;
  }

  /** A leaf that must be split can be. */
  lemma ReadyToSplit(h: Memory, free: set<nat>, level: nat, table: nat, r: Request, cur: nat, t: Placed, i: nat)
    requires Ready(h, free, level, table, r, cur, t, i) && level > 0 && i <= End(level, r)
    requires t.PTable? && |t.kids| == ENTRY_COUNT && table in h && |h[table]| == ENTRY_COUNT && t.kids[i].PLeaf?
    requires NeedsSplit(level, r, i)
    ensures Pool(h, free) && table !in free && h[table][i] == t.kids[i].pte
    ensures level <= MAX_LEVELS && WordSplits(level, h[table][i]) && h[table][i] + Size(level) / 4 < WORD
  {
    assert Slot(h, level, h[table][i], t.kids[i]);
    SlotWord(level, i, t.kids[i], r);
    assert table in Pages(t);
    hide Size, IsLeaf, Legal, MapsKid, NeedsSplit, Start, End;
  }

  lemma KeptAsIs(level: nat, r: Request, t: Placed, i: nat)
    requires level < MAX_LEVELS && t.PTable? && i < |t.kids| && Shaped(level, Shape(t.kids[i])) && 1 <= r.va + r.len
    requires level > 0 ==> t.kids[i].PTable? || !NeedsSplit(level, r, i)
    ensures level > 0 ==> Prepared(level, Shape(t.kids[i]), i, r) == Shape(t.kids[i])
  {
    hide NeedsSplit;
  }

  /** A split prepares its slot. */
  lemma SplitPrepares(h: Memory, free: set<nat>, level: nat, table: nat, r: Request, cur: nat,
                      t: Placed, i: nat, q: nat)
    returns (u: Placed)
    requires Ready(h, free, level, table, r, cur, t, i) && 0 < level && i <= End(level, r) && t.kids[i].PLeaf?
    requires table in h && i < |h[table]| && h[table][i] == t.kids[i].pte && WordSplits(level, t.kids[i].pte)
    requires Shaped(level, Shape(t.kids[i])) && NeedsSplit(level, r, i) && q in free && q != table
    ensures PreparedSlot(h, free, SetWord(h[q := SplitWords(h[table][i], level)], table, i, q / 4 + 1), free - {q},
                         level, table, r, cur, t, i, u)
    ensures Ready(SetWord(h[q := SplitWords(h[table][i], level)], table, i, q / 4 + 1), free - {q},
                  level, table, r, cur, u, i)
  {
    hide *;
    ReadyCore(h, free, level, table, r, cur, t, i);
    var v := t.kids[i].pte;
    var c := SplitPlaced(v, level, q);
    u := PTable(table, t.kids[i := c]);
    AfterSplit(h, free, level, t, i, q);
    SplitReady(v, level, q, i, r);
    var h' := SetWord(h[q := SplitWords(v, level)], table, i, q / 4 + 1);
    StillReady(h, free, h', free - {q}, level, table, r, cur, t, i, u, i);
    PreparedBySplit(h, free, h', free - {q}, level, table, r, cur, t, i, c);
  }

  lemma SplitReady(v: nat, level: nat, q: nat, i: nat, r: Request)
    requires 0 < level < MAX_LEVELS && WordSplits(level, v) && 1 <= r.va + r.len
    ensures SlotReady(level, i, SplitPlaced(v, level, q), r)
  {
    SplitMapsKid(v, level, i, r);
    hide MapsKid, SplitPlaced, WordSplits, SplitLeaf;
  }

  lemma PreparedBySplit(h: Memory, free: set<nat>, h': Memory, free': set<nat>,
                        level: nat, table: nat, r: Request, cur: nat, t: Placed, i: nat, c: Placed)
    requires 0 < level < MAX_LEVELS && t.PTable? && |t.kids| == ENTRY_COUNT && i < ENTRY_COUNT && t.page == table
    requires 1 <= r.va + r.len && Shaped(level, Shape(t.kids[i])) && t.kids[i].PLeaf? && NeedsSplit(level, r, i)
    requires Ready(h', free', level, table, r, cur, PTable(table, t.kids[i := c]), i)
    requires Stepped(h, free, h', free', level + 1, t, PTable(table, t.kids[i := c]))
    requires Shape(c) == SplitLeaf(t.kids[i].pte, level)
    ensures PreparedSlot(h, free, h', free', level, table, r, cur, t, i, PTable(table, t.kids[i := c]))
  {
    hide Ready, Stepped, NeedsSplit, SplitLeaf;
  }

  /** The step of one whole iteration. */
  ghost predicate DidSlot(h: Memory, free: set<nat>, h': Memory, free': set<nat>,
                          level: nat, r: Request, cur: nat, t: Placed, i: nat, u: Placed)
  {
    Stepped(h, free, h', free', level + 1, t, u) && OnlySlot(t, u, i, SlotResult(level, t, i, cur, r))
  }

  /** Preparing and then writing a slot is one iteration. */
  lemma ComposeSlot(h: Memory, free: set<nat>, h1: Memory, free1: set<nat>, h2: Memory, free2: set<nat>,
                    level: nat, table: nat, r: Request, cur: nat, t: Placed, t1: Placed, u: Placed, i: nat)
    requires Ready(h, free, level, table, r, cur, t, i) && i <= End(level, r)
    requires PreparedSlot(h, free, h1, free1, level, table, r, cur, t, i, t1)
    requires WroteSlot(h1, free1, h2, free2, level, r, cur, t1, i, u)
    ensures DidSlot(h, free, h2, free2, level, r, cur, t, i, u)
  {
    ReadyWords(h, free, level, table, r, cur, t, i);
    assert WroteSlot(h1, free1, h2, free2, level, r, cur, t1, i, u);
    hide Size, Pte, NeedsSplit, Shape, Stepped, Ready, OnlySlot, Written, SlotResult, Shaped;
    StepTrans(h, free, h1, free1, h2, free2, level + 1, t, t1, u);
    ComposeOnly(level, r, cur, t, t1, u, i);
  }

  lemma ComposeOnly(level: nat, r: Request, cur: nat, t: Placed, t1: Placed, u: Placed, i: nat)
    requires level < MAX_LEVELS && 1 <= r.va + r.len && t.PTable? && |t.kids| == ENTRY_COUNT && i < ENTRY_COUNT
    requires Shaped(level, Shape(t.kids[i]))
    requires if level == 0 then t1 == t else OnlySlot(t, t1, i, Prepared(level, Shape(t.kids[i]), i, r))
    requires t1.PTable? && i < |t1.kids|
    requires OnlySlot(t1, u, i, Written(level, Shape(t1.kids[i]), cur + i * Size(level), r))
    ensures OnlySlot(t, u, i, SlotResult(level, t, i, cur, r))
  {
    hide Size, Pte, NeedsSplit, Shape;
  }

  /** After one iteration the loop can go on with the next slot. */
  lemma NextReady(h: Memory, free: set<nat>, h': Memory, free': set<nat>,
                  level: nat, table: nat, r: Request, cur: nat, t: Placed, u: Placed, vpn: nat)
    requires Ready(h, free, level, table, r, cur, t, vpn) && Stepped(h, free, h', free', level + 1, t, u)
    requires vpn <= End(level, r) && OnlySlot(t, u, vpn, SlotResult(level, t, vpn, cur, r))
    ensures Ready(h', free', level, table, r, cur, u, vpn + 1)
  {
    assert |u.kids| == ENTRY_COUNT && u.PTable? && level < MAX_LEVELS && 1 <= r.va + r.len;
    assert forall j :: vpn + 1 <= j <= End(level, r) ==> u.kids[j] == t.kids[j];
    hide Ready, Stepped, SlotReady;
    StillReady(h, free, h', free', level, table, r, cur, t, vpn, u, vpn + 1);
  }

  lemma StepRefl(h: Memory, free: set<nat>, l: nat, t: Placed)
    requires t.PTable? && Stored(h, l, t) && NoSharing(t)
    ensures Stepped(h, free, h, free, l, t, t)
  {
  }

  /** The slots of the window before `vpn` are done, the others are untouched. */
  ghost predicate Progress(t: Placed, u: Placed, out: seq<Tree>, start: nat, vpn: nat)
  {
    && t.PTable? && u.PTable? && |t.kids| == ENTRY_COUNT == |u.kids| && |out| == ENTRY_COUNT
    && start <= vpn <= ENTRY_COUNT
    && (forall j :: 0 <= j < ENTRY_COUNT && !(start <= j < vpn) ==> u.kids[j] == t.kids[j])
    && (forall j :: start <= j < vpn ==> Shape(u.kids[j]) == out[j])
  }

  lemma ProgressStep(level: nat, r: Request, cur: nat, t: Placed, u: Placed, u1: Placed, vpn: nat)
    requires level < MAX_LEVELS && 1 <= r.va + r.len && t.PTable? && Shaped(level + 1, Shape(t))
    requires Start(level, r) <= vpn <= End(level, r)
    requires Progress(t, u, MapTable(level, Shape(t).kids, cur, r), Start(level, r), vpn)
    requires OnlySlot(u, u1, vpn, SlotResult(level, u, vpn, cur, r))
    ensures Progress(t, u1, MapTable(level, Shape(t).kids, cur, r), Start(level, r), vpn + 1)
  {
    hide *;
    WindowIs(level, r);
    ShapeTable(t);
    ProgressAt(level, r, cur, t, u, vpn);
    SlotIsOut(level, r, cur, t, u, vpn);
    ProgressMore(t, u, u1, MapTable(level, Shape(t).kids, cur, r), Start(level, r), vpn);
  }

  lemma ProgressAt(level: nat, r: Request, cur: nat, t: Placed, u: Placed, vpn: nat)
    requires level < MAX_LEVELS && 1 <= r.va + r.len && t.PTable? && Shaped(level + 1, Shape(t)) && vpn <= End(level, r)
    requires Progress(t, u, MapTable(level, Shape(t).kids, cur, r), Start(level, r), vpn)
    ensures vpn < ENTRY_COUNT && |t.kids| == ENTRY_COUNT == |u.kids| && u.PTable? && u.kids[vpn] == t.kids[vpn]
  {
    hide Start, End, MapTable, Shape, Shaped;
  }

  lemma SlotIsOut(level: nat, r: Request, cur: nat, t: Placed, u: Placed, vpn: nat)
    requires level < MAX_LEVELS && 1 <= r.va + r.len && t.PTable? && Shaped(level + 1, Shape(t))
    requires u.PTable? && |t.kids| == ENTRY_COUNT == |u.kids| && vpn < ENTRY_COUNT && u.kids[vpn] == t.kids[vpn]
    requires Start(level, r) <= vpn <= End(level, r)
    ensures SlotResult(level, u, vpn, cur, r) == MapTable(level, Shape(t).kids, cur, r)[vpn]
  {
    SlotShape(level, t, vpn);
    hide Vpn, Start, End, Size, NeedsSplit, Pte, MapSlot, Shape, Shaped;
  }

  lemma ProgressMore(t: Placed, u: Placed, u1: Placed, out: seq<Tree>, start: nat, vpn: nat)
    requires Progress(t, u, out, start, vpn) && vpn < |out| && OnlySlot(u, u1, vpn, out[vpn])
    ensures Progress(t, u1, out, start, vpn + 1)
  {
    hide Shape;
  }

  lemma ProgressDone(level: nat, r: Request, cur: nat, t: Placed, u: Placed)
    requires level < MAX_LEVELS && 1 <= r.va + r.len && t.PTable? && Shaped(level + 1, Shape(t))
    requires Progress(t, u, MapTable(level, Shape(t).kids, cur, r), Start(level, r), End(level, r) + 1)
    ensures Shape(u) == Table(MapTable(level, Shape(t).kids, cur, r))
  {
    TableShape(level, t);
    hide Vpn, Start, End, Size, NeedsSplit, Pte;
    assert Shape(u).kids == MapTable(level, Shape(t).kids, cur, r);
  }

  /** The loop of `map_internal` before slot `vpn`: all slots of the window below it are done. */
  ghost predicate Mapping(h: Memory, free: set<nat>, h': Memory, free': set<nat>,
                          level: nat, table: nat, r: Request, cur: nat, t: Placed, u: Placed, vpn: nat)
  {
    && Ready(h', free', level, table, r, cur, u, vpn) && Stepped(h, free, h', free', level + 1, t, u)
    && t.PTable? && Shaped(level + 1, Shape(t)) && Shape(t).Table?
    && Progress(t, u, MapTable(level, Shape(t).kids, cur, r), Start(level, r), vpn)
  }

  lemma MappingStart(h: Memory, free: set<nat>, level: nat, table: nat, r: Request, cur: nat, t: Placed)
    requires Ready(h, free, level, table, r, cur, t, From(level, r))
    ensures level < MAX_LEVELS && 1 <= r.va + r.len
    ensures Mapping(h, free, h, free, level, table, r, cur, t, t, Start(level, r))
    ensures Ready(h, free, level, table, r, cur, t, Start(level, r))
  {
    hide Start, Size, MapTable, SlotReady;
    StepRefl(h, free, level + 1, t);
  }

  lemma MappingStep(h: Memory, free: set<nat>, h1: Memory, free1: set<nat>, h2: Memory, free2: set<nat>,
                    level: nat, table: nat, r: Request, cur: nat, t: Placed, u: Placed, u1: Placed, vpn: nat)
    requires level < MAX_LEVELS && 1 <= r.va + r.len && Start(level, r) <= vpn <= End(level, r)
    requires Mapping(h, free, h1, free1, level, table, r, cur, t, u, vpn)
    requires DidSlot(h1, free1, h2, free2, level, r, cur, u, vpn, u1)
    ensures Mapping(h, free, h2, free2, level, table, r, cur, t, u1, vpn + 1)
    ensures Ready(h2, free2, level, table, r, cur, u1, vpn + 1)
  {
    hide Vpn, Start, End, Size, NeedsSplit, Pte, Stepped, Ready, Progress, OnlySlot, MapTable, Shaped, Shape;
    StepTrans(h, free, h1, free1, h2, free2, level + 1, t, u, u1);
    NextReady(h1, free1, h2, free2, level, table, r, cur, u, u1, vpn);
    ProgressStep(level, r, cur, t, u, u1, vpn);
  }

  lemma MappingDone(h: Memory, free: set<nat>, h': Memory, free': set<nat>,
                    level: nat, table: nat, r: Request, cur: nat, t: Placed, u: Placed)
    requires level < MAX_LEVELS && 1 <= r.va + r.len
    requires Mapping(h, free, h', free', level, table, r, cur, t, u, End(level, r) + 1)
    ensures Stepped(h, free, h', free', level + 1, t, u) && Shape(t).Table? && Shaped(level + 1, Shape(t))
    ensures Shape(u) == Table(MapTable(level, Shape(t).kids, cur, r))
  {
    hide Vpn, Start, End, Size, NeedsSplit, Pte, Stepped, Ready, Progress, MapTable;
    ProgressDone(level, r, cur, t, u);
  }

  lemma WindowIs(level: nat, r: Request)
    requires level < MAX_LEVELS && 1 <= r.va + r.len
    ensures Start(level, r) == Vpn(r.va, level)
    ensures var last := Vpn(r.va + r.len - (if level == 0 then 0 else 1), level);
            End(level, r) == if last < Start(level, r) then ENTRY_COUNT - 1 else last
  {
  }

  /** Memory holds the tree `t` at `root`, apart from the allocator's pool. */
  ghost predicate Holds(h: Memory, free: set<nat>, root: nat, levels: nat, t: Placed)
  {
    && 0 < levels <= MAX_LEVELS && t.PTable? && t.page == root && Stored(h, levels, t) && NoSharing(t)
    && Pool(h, free) && free !! Pages(t) && Shaped(levels, Shape(t)) && Shape(t).Table?
  }

  lemma HoldsReady(h: Memory, free: set<nat>, root: nat, levels: nat, t: Placed, r: Request)
    requires Holds(h, free, root, levels, t) && Legal(levels, r) && MapsOver(levels, Shape(t), r)
    ensures Ready(h, free, levels - 1, root, r, 0, t, From(levels - 1, r))
  {
    assert Size(levels) <= Size(MAX_LEVELS) && 0 % Size(levels) == 0;
    hide Size, Start, End, MapsKid;
    forall j | Start(levels - 1, r) <= j <= End(levels - 1, r)
      ensures SlotReady(levels - 1, j, t.kids[j], r)
    {
      SlotShape(levels - 1, t, j);
    }
  }

  /** A finished call leaves memory holding the mapped tree. */
  lemma MapDone(h: Memory, free: set<nat>, h': Memory, free': set<nat>, root: nat, levels: nat,
                t: Placed, u: Placed, r: Request)
    requires Holds(h, free, root, levels, t) && 1 <= r.va + r.len
    requires Stepped(h, free, h', free', levels, t, u)
    requires Shape(u) == Table(MapTable(levels - 1, Shape(t).kids, 0, r))
    ensures Holds(h', free', root, levels, u) && Shape(u) == MapRoot(levels, Shape(t), r)
  {
    HoldsFacts(h, free, root, levels, t);
    MapRootIs(levels, Shape(t), r);
    StepPool(h, free, h', free', levels, t, u);
    StoredShaped(h', levels, u);
    hide Size, MapTable, MapRoot, Shape, Shaped, Pages, NoSharing, Pool;
  }

  lemma HoldsFacts(h: Memory, free: set<nat>, root: nat, levels: nat, t: Placed)
    requires Holds(h, free, root, levels, t)
    ensures 0 < levels <= MAX_LEVELS && t.PTable? && t.page == root && Stored(h, levels, t)
    ensures Shaped(levels, Shape(t)) && Shape(t).Table?
  {
  }

  /** On memory that holds a tree, the lookup loop answers by the tree. */
  lemma HeldQuery(h: Memory, free: set<nat>, root: nat, levels: nat, t: Placed, va: nat)
    requires Holds(h, free, root, levels, t) && Readable(levels, Shape(t))
    ensures QueryMemory(h, root, levels - 1, levels, va) == QueryTree(levels, levels, Shape(t), va)
  {
    HoldsFacts(h, free, root, levels, t);
    hide *;
    MemoryIsTree(h, levels, levels, t, va);
  }

  lemma LeafAnswerIs(v: nat, va: nat, i: nat, levels: nat)
    requires i < levels <= MAX_LEVELS
    ensures LeafAnswer(v, va, i, levels)
              == if !IsValid(v) then Err(Invalid)
                 else if !IsRead(v) && (v / 4) % 2 * 4 == 1 then Err(WriteOnly)
                 else if (v / BIT60) % 2 == 1 then Err(ReservedBitSet)
                 else if !IsLeaf(v) then Err(PageFault)
                 else if !Aligned(v, i) then Panic
                 else Ok(AbsNat(Assembled(v, va, i, levels)))
    ensures forall n: nat :: AbsNat(n) == n
  {
  }

  lemma MapRootIs(levels: nat, t: Tree, r: Request)
    requires 0 < levels <= MAX_LEVELS && 1 <= r.va + r.len && t.Table? && Shaped(levels, t)
    ensures MapRoot(levels, t, r) == Table(MapTable(levels - 1, t.kids, 0, r))
  {
  }

  class Paging {
    var mem: Memory
    var free: set<nat>
    const root: nat
    const levels: nat
    /** The tree stored at `root`. */
    ghost var tree: Placed

    constructor (memory: Memory, pool: set<nat>, rootPage: nat, lv: nat, ghost stored: Placed)
      requires Holds(memory, pool, rootPage, lv, stored)
      ensures Holds(mem, free, root, levels, tree)
      ensures mem == memory && free == pool && root == rootPage && levels == lv && tree == stored
    {
      mem, free, root, levels, tree := memory, pool, rootPage, lv, stored;
    }

    /** `Entry::split` on entry `i` of `table`, whatever the fresh table contained.  It can only
        fail when the allocator has no page left. */
    method Split(table: nat, i: nat, l: nat) returns (ok: bool, ghost q: nat)
      requires Pool(mem, free) && table in mem && table !in free && i < ENTRY_COUNT && |mem[table]| == ENTRY_COUNT
      requires 0 < l <= MAX_LEVELS && mem[table][i] + Size(l) / 4 < WORD
      modifies `mem, `free
      ensures !ok ==> free == {} && mem == old(mem)
      ensures ok ==>
                && q in old(free) && free == old(free) - {q}
                && q != table
                && mem == SetWord(old(mem)[q := SplitWords(old(mem[table][i]), l)], table, i, q / 4 + 1)
    {
      q := 0;
      if free == {} {
        return false, 0;
      }
      var page :| page in free;
      q := page;
      var entries := FillSplit(mem[page], mem[table][i], l);
      PointerEntry(page);
      free := free - {page};
      mem := SetWord(mem[page := entries], table, i, Or(page / 4, 1));
      ok := true;
    }

    /** The splitting half of one iteration of the loop of `map_internal`. */
    method PrepareSlot(level: nat, table: nat, vpn: nat, r: Request, cur: nat, ghost t: Placed)
      returns (ok: bool, ghost u: Placed)
      requires Ready(mem, free, level, table, r, cur, t, vpn) && vpn <= End(level, r)
      modifies `mem, `free
      ensures !ok ==> free == {}
      ensures ok ==> PreparedSlot(old(mem), old(free), mem, free, level, table, r, cur, t, vpn, u)
      ensures ok ==> Ready(mem, free, level, table, r, cur, u, vpn)
    {
      hide *;
      ReadyWords(mem, free, level, table, r, cur, t, vpn);
      u := t;
      ok := true;
      if level != 0 && IsLeaf(mem[table][vpn]) && NeedsSplit(level, r, vpn) {
        ReadyToSplit(mem, free, level, table, r, cur, t, vpn);
        ghost var q;
        ok, q := Split(table, vpn, level);
        if ok {
          u := SplitPrepares(old(mem), old(free), level, table, r, cur, t, vpn, q);
        }
      } else {
        KeptAsIs(level, r, t, vpn);
        NothingToPrepare(mem, free, level, table, r, cur, t, vpn);
      }
    }

    /** The writing half: descend into a table, or overwrite a leaf. */
    method WriteSlot(level: nat, table: nat, vpn: nat, r: Request, cur: nat, ghost t: Placed)
      returns (ok: bool, ghost u: Placed)
      requires Ready(mem, free, level, table, r, cur, t, vpn) && vpn <= End(level, r)
      modifies `mem, `free
      ensures !ok ==> free == {}
      ensures ok ==> WroteSlot(old(mem), old(free), mem, free, level, r, cur, t, vpn, u)
      decreases level, 0
    {
      hide *;
      ReadyWords(mem, free, level, table, r, cur, t, vpn);
      u := t;
      if level != 0 && !IsLeaf(mem[table][vpn]) {
        EnterSlot(mem, free, level, table, r, cur, t, vpn);
        ghost var c;
        ok, c := MapInternal(level - 1, Address(mem[table][vpn]), r, cur + vpn * Size(level), t.kids[vpn]);
        if ok {
          u := FinishTable(old(mem), old(free), mem, free, level, table, r, cur, t, vpn, c);
        }
      } else {
        if level == 0 {
          BottomIsLeaf(mem, free, table, r, cur, t, vpn);
        }
        u := FinishLeaf(mem, free, level, table, r, cur, t, vpn);
        mem := SetWord(mem, table, vpn, Pte(cur + vpn * Size(level), r));
        ok := true;
      }
    }

    /** One iteration of the loop of `map_internal`: slot `vpn` becomes the result of the tree
        function, its siblings and all memory outside the table stay. */
    method MapOneSlot(level: nat, table: nat, vpn: nat, r: Request, cur: nat, ghost t: Placed)
      returns (ok: bool, ghost u: Placed)
      requires Ready(mem, free, level, table, r, cur, t, vpn) && vpn <= End(level, r)
      modifies `mem, `free
      ensures !ok ==> free == {}
      ensures ok ==> DidSlot(old(mem), old(free), mem, free, level, r, cur, t, vpn, u)
      decreases level, 1
    {
      hide *;
      ReadyWords(mem, free, level, table, r, cur, t, vpn);
      ghost var t1;
      ok, t1 := PrepareSlot(level, table, vpn, r, cur, t);
      u := t1;
      if ok {
        ghost var h1, f1 := mem, free;
        ok, u := WriteSlot(level, table, vpn, r, cur, t1);
        if ok {
          ComposeSlot(old(mem), old(free), h1, f1, mem, free, level, table, r, cur, t, t1, u, vpn);
        }
      }
    }

    /** `map_internal`: exactly the tree function `MapTable`, written in place. */
    method MapInternal(level: nat, table: nat, r: Request, cur: nat, ghost t: Placed)
      returns (ok: bool, ghost u: Placed)
      requires Ready(mem, free, level, table, r, cur, t, From(level, r))
      modifies `mem, `free
      ensures !ok ==> free == {}
      ensures ok ==> Stepped(old(mem), old(free), mem, free, level + 1, t, u)
      ensures ok ==> Shape(u) == Table(MapTable(level, Shape(t).kids, cur, r))
      decreases level, 2
    {
      hide *;
      MappingStart(mem, free, level, table, r, cur, t);
      WindowIs(level, r);
      var start := Vpn(r.va, level);
      var end := Vpn(r.va + r.len - (if level == 0 then 0 else 1), level);
      if end < start {
        end := ENTRY_COUNT - 1;
      }
      var vpn := start;
      u := t;
      ok := true;
      while vpn <= end
        invariant start <= vpn <= end + 1
        invariant Mapping(old(mem), old(free), mem, free, level, table, r, cur, t, u, vpn)
        invariant Ready(mem, free, level, table, r, cur, u, vpn)
      {
        ghost var u1;
        ghost var h1, f1 := mem, free;
        ok, u1 := MapOneSlot(level, table, vpn, r, cur, u);
        if !ok {
          return;
        }
        MappingStep(old(mem), old(free), h1, f1, mem, free, level, table, r, cur, t, u, u1, vpn);
        u := u1;
        vpn := vpn + 1;
      }
      MappingDone(old(mem), old(free), mem, free, level, table, r, cur, t, u);
    }

    /** `map`, with any flags: the stored tree changes as `MapRoot` says, new tables come from the
        pool, and no other page of memory is written.  It can only stop early when the pool is
        empty. */
    method Map(pa: nat, va: nat, len: nat, flags: nat) returns (ok: bool)
      requires Holds(mem, free, root, levels, tree) && Legal(levels, Request(pa, va % Size(levels), len, flags))
      requires MapsOver(levels, Shape(tree), Request(pa, va % Size(levels), len, flags))
      modifies this
      ensures !ok ==> free == {}
      ensures ok ==> Holds(mem, free, root, levels, tree)
      ensures ok ==> Stepped(old(mem), old(free), mem, free, levels, old(tree), tree)
      ensures ok ==> Shape(tree) == MapRoot(levels, old(Shape(tree)), Request(pa, va % Size(levels), len, flags))
    {
      hide *;
      HoldsFacts(mem, free, root, levels, tree);
      ghost var r := Request(pa, va % Size(levels), len, flags);
      LegalSum(levels, r);
      HoldsReady(mem, free, root, levels, tree, r);
      ghost var u;
      ok, u := MapInternal(levels - 1, root, Request(pa, va % Size(levels), len, flags), 0, tree);
      if ok {
        MapDone(old(mem), old(free), mem, free, root, levels, tree, u, r);
        tree := u;
      }
    }

    /** `query`: the word-by-word walk, on any memory. */
    method Query(va: nat) returns (res: QueryResult)
      requires 0 < levels <= MAX_LEVELS
      ensures res == QueryMemory(mem, root, levels - 1, levels, va)
    {
      var table := root;
      var i := levels - 1;
      while true
        invariant 0 <= i < levels
        invariant QueryMemory(mem, root, levels - 1, levels, va) == QueryMemory(mem, table, i, levels, va)
        decreases i
      {
        QueryMemoryIs(mem, table, i, levels, va);
        hide *;
        if table !in mem || |mem[table]| != ENTRY_COUNT {
          return Outside;
        }
        var pte := mem[table][Vpn(va, i)];
        LeafAnswerIs(pte, va, i, levels);
        QueryNextIs(pte);
        if !IsValid(pte) {
          return Err(Invalid);
        } else if !IsRead(pte) && (pte / 4) % 2 * 4 == 1 {
          return Err(WriteOnly);
        } else if (pte / BIT60) % 2 == 1 {
          return Err(ReservedBitSet);
        }
        if !IsLeaf(pte) {
          if i == 0 {
            return Err(PageFault);
          }
          i := i - 1;
          table := Address(pte);
        } else {
          var fine := CheckAligned(pte, i);
          if !fine {
            return Panic;
          }
          var pa := Assemble(pte, va, i, levels);
          return Ok(pa);
        }
      }
    }
  }
}
