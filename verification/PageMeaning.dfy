/** What one `map` call does to every address of the address space. */
module PageMeaning {
  import opened Options
  import opened Arith
  import opened PageArith
  import opened PageTree
  import opened PageMap

  /** `off` lies in a slot that the call wrote: on the way down to its leaf in the new tree,
      every page number is inside the window of its level. */
  predicate Hit(l: nat, t: Tree, off: nat, r: Request)
    requires l <= MAX_LEVELS && off < Size(l) && Shaped(l, t) && 1 <= r.va + r.len
  {
    match t
    case Leaf(_) => true
    case Table(kids) =>
      var d := Digit(l, off);
      Start(l - 1, r) <= d <= End(l - 1, r) && Hit(l - 1, kids[d], Rest(l, off), r)
  }

  /** Where the request sends virtual address `v`. */
  function Target(r: Request, v: nat): Option<Xlat>
  {
    Some(Xlat((v + r.pa - r.va) % PHYS, r.flags))
  }

  lemma AddInside(x: int, l: nat, rest: nat)
    requires l < MAX_LEVELS && x % Size(l) == 0 && rest < Size(l)
    ensures x % PHYS + rest == (x + rest) % PHYS
  {
    PageModulus(x, l);
    assert PHYS % Size(l) == 0;
    RoundUp(x % PHYS, PHYS, Size(l));
    DivUnique(x + rest, PHYS, x / PHYS, x % PHYS + rest);
  }

  lemma WrittenLeaf(l: nat, a: nat, r: Request, rest: nat)
    requires l < MAX_LEVELS && Legal(MAX_LEVELS, r) && GoodFlags(r.flags)
    requires a < WORD && a % Size(l) == 0 && (r.pa - r.va) % Size(l) == 0 && rest < Size(l)
    ensures LeafMeaning(Pte(a, r), rest) == Target(r, a + rest)
  {
    PageAligned(a, l);
    PteMeaning(a, r);
    ModAdd(r.pa - r.va, a, Size(l));
    AddInside(a + r.pa - r.va, l, rest);
  }

  /** Addresses in written slots translate by the constant shift of the request; all others
      translate as before. */
  lemma {:induction false} TableMeaning(l: nat, kids: seq<Tree>, cur: nat, r: Request, off: nat)
    requires l < MAX_LEVELS && Legal(MAX_LEVELS, r) && GoodFlags(r.flags)
    requires CongruentTo(l, r)
    requires cur % Size(l + 1) == 0 && cur + Size(l + 1) <= Size(MAX_LEVELS)
    requires Shaped(l + 1, Table(kids)) && off < Size(l + 1)
    ensures Shaped(l + 1, Table(MapTable(l, kids, cur, r)))
    ensures var u := Table(MapTable(l, kids, cur, r));
            Look(l + 1, u, off)
              == if Hit(l + 1, u, off, r) then Target(r, cur + off) else Look(l + 1, Table(kids), off)
    decreases l, 1
  {
    hide Size, Vpn, Start, End, Congruent, NeedsSplit, Pte;
    MapShaped(l, kids, cur, r);
    var d := Digit(l + 1, off);
    DigitBound(off, l + 1);
    assert Shaped(l, kids[d]);
    if Start(l, r) <= d <= End(l, r) {
      SlotMeaning(l, kids[d], cur, d, r, Rest(l + 1, off));
    }
  }

  lemma {:induction false} SlotMeaning(l: nat, t: Tree, cur: nat, i: nat, r: Request, rest: nat)
    requires l < MAX_LEVELS && Legal(MAX_LEVELS, r) && GoodFlags(r.flags)
    requires CongruentTo(l, r)
    requires cur % Size(l + 1) == 0 && cur + Size(l + 1) <= Size(MAX_LEVELS)
    requires Start(l, r) <= i <= End(l, r) && Shaped(l, t) && rest < Size(l)
    ensures Shaped(l, MapSlot(l, t, i, cur + i * Size(l), r))
    ensures var u := MapSlot(l, t, i, cur + i * Size(l), r);
            Look(l, u, rest)
              == if Hit(l, u, rest, r) then Target(r, cur + i * Size(l) + rest) else Look(l, t, rest)
    decreases l, 0
  {
    hide *;
    CongruentParts(l, r);
    if l == 0 || Prepared(l, t, i, r).Leaf? {
      SlotLeaf(l, t, cur, i, r, rest);
      LeafLook(l, Pte(cur + i * Size(l), r), rest, r);
    } else {
      var p := Prepared(l, t, i, r);
      SlotBase(l, cur, i);
      MapSlotTable(l, t, i, cur + i * Size(l), r);
      PreparedMeaning(l, t, i, r, rest);
      TableMeaning(l - 1, p.kids, cur + i * Size(l), r, rest);
    }
  }

  lemma CongruentParts(l: nat, r: Request)
    requires l < MAX_LEVELS && Legal(MAX_LEVELS, r) && CongruentTo(l, r)
    ensures 1 <= r.va + r.len && Congruent(l, r) && (l > 0 ==> CongruentTo(l - 1, r))
  {
    hide Congruent, Size;
  }

  lemma LeafLook(l: nat, v: nat, rest: nat, r: Request)
    requires l <= MAX_LEVELS && rest < Size(l) && 1 <= r.va + r.len
    ensures Shaped(l, Leaf(v)) && Hit(l, Leaf(v), rest, r) && Look(l, Leaf(v), rest) == LeafMeaning(v, rest)
  {
    hide LeafMeaning, Size;
  }

  lemma MapSlotTable(l: nat, t: Tree, i: nat, a: nat, r: Request)
    requires 0 < l < MAX_LEVELS && 1 <= r.va + r.len && Shaped(l, t) && Prepared(l, t, i, r).Table?
    ensures MapSlot(l, t, i, a, r) == Table(MapTable(l - 1, Prepared(l, t, i, r).kids, a, r))
  {
    hide Prepared, MapTable, Pte, Size;
  }

  /** Preparing a slot does not change what it means. */
  lemma PreparedMeaning(l: nat, t: Tree, i: nat, r: Request, rest: nat)
    requires 0 < l < MAX_LEVELS && 1 <= r.va + r.len && Shaped(l, t) && rest < Size(l)
    ensures Look(l, Prepared(l, t, i, r), rest) == Look(l, t, rest)
  {
    hide NeedsSplit, SplitLeaf, Size, Digit, Rest;
    if t.Leaf? {
      SplitMeaning(t.pte, l, rest);
    }
  }

  lemma SlotLeaf(l: nat, t: Tree, cur: nat, i: nat, r: Request, rest: nat)
    requires l < MAX_LEVELS && Legal(MAX_LEVELS, r) && GoodFlags(r.flags) && Congruent(l, r)
    requires cur % Size(l + 1) == 0 && cur + Size(l + 1) <= Size(MAX_LEVELS)
    requires Start(l, r) <= i <= End(l, r) && Shaped(l, t) && rest < Size(l)
    requires l == 0 || Prepared(l, t, i, r).Leaf?
    ensures MapSlot(l, t, i, cur + i * Size(l), r) == Leaf(Pte(cur + i * Size(l), r))
    ensures LeafMeaning(Pte(cur + i * Size(l), r), rest) == Target(r, cur + i * Size(l) + rest)
  {
    SlotBase(l, cur, i);
    if l == 0 {
      PageMultiple(r);
    } else {
      UnsplitAligned(l, i, r);
    }
    WrittenLeaf(l, cur + i * Size(l), r, rest);
  }

  /** Map soundness, for the whole address space: every address either keeps its
      translation or moves by the constant shift of the request, and which of the two is
      decided by the windows alone. */
  lemma MapSound(levels: nat, t: Tree, r: Request, v: nat)
    requires 0 < levels <= MAX_LEVELS && Sound(levels, r)
    requires t.Table? && WF(levels, t) && v < Size(levels)
    ensures Shaped(levels, t) && WF(levels, MapRoot(levels, t, r)) && Shaped(levels, MapRoot(levels, t, r))
    ensures Look(levels, MapRoot(levels, t, r), v)
              == if Hit(levels, MapRoot(levels, t, r), v, r) then Target(r, v) else Look(levels, t, v)
  {
    hide Vpn, Start, End, Congruent, NeedsSplit, Pte;
    WFShaped(levels, t);
    TableMeaning(levels - 1, t.kids, 0, r, v);
    MapWF(levels - 1, t.kids, 0, r);
  }
}
