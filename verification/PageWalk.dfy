/** The translation algorithm of the RISC-V privileged architecture, and where `query` agrees
    with it. */
module PageWalk {
  import opened Options
  import opened Arith
  import opened PageArith
  import opened PageTree
  import opened PagePlaced
  import opened PageQuery

  /** Section 4.3.2 of the RISC-V Privileged Architecture, steps 2 to 4, 6 and 8: `a` is the
      address of a table, `i` its level.  Accesses outside memory fault. */
  function HardwareWalk(h: Memory, a: nat, i: nat, va: nat): Option<nat>
    requires i < MAX_LEVELS
    decreases i, 1
  {
    if a !in h || |h[a]| != ENTRY_COUNT then None else WalkEntry(h, h[a][Vpn(va, i)], i, va)
  }

  /** The same from the entry read at level `i` on. */
  function WalkEntry(h: Memory, pte: nat, i: nat, va: nat): Option<nat>
    requires i < MAX_LEVELS
    decreases i, 0
  {
    if !IsValid(pte) || Reserved(pte) then None
    else if IsRead(pte) || IsExecute(pte) then
      if Phys(pte) % Size(i) != 0 then None else Some(Phys(pte) + va % Size(i))
    else if i == 0 then None
    else HardwareWalk(h, Phys(pte), i - 1, va)
  }

  /** Encodings that the walk refuses: writable but not readable, or bits 54 and up set. */
  predicate Reserved(pte: nat)
  {
    (!IsRead(pte) && IsWrite(pte)) || pte >= PTE_LIMIT
  }

  /** A pointer names its page with the physical page number alone. */
  lemma PointerPhys(e: nat, p: nat)
    requires Points(e, p)
    ensures Phys(e) == p
  {
    AddressParts(e);
  }

  /** The hardware walk over memory computes the meaning of the stored tree. */
  lemma WalkMeaning(h: Memory, l: nat, t: Placed, va: nat)
    requires 0 < l <= MAX_LEVELS && t.PTable? && Stored(h, l, t) && Shaped(l, Shape(t)) && WF(l, Shape(t))
    ensures HardwareWalk(h, t.page, l - 1, va) == match Look(l, Shape(t), va % Size(l))
                                                  case None => None
                                                  case Some(x) => Some(x.pa)
  {
    WalkAtLeaf(h, l, t, va);
    LookAtLeaf(l, Shape(t), va);
    var (v, k) := LeafOver(l, Shape(t), va);
    WalkLeaf(h, v, k, va);
    hide HardwareWalk, WalkEntry, Stored, Shaped, Shape, WF, Look, LeafOver, GoodLeaf, Size;
  }

  lemma WalkPointer(h: Memory, a: nat, i: nat, va: nat, p: nat)
    requires 0 < i < MAX_LEVELS && a in h && |h[a]| == ENTRY_COUNT && Points(h[a][Vpn(va, i)], p)
    ensures HardwareWalk(h, a, i, va) == HardwareWalk(h, p, i - 1, va)
  {
    PointerPhys(h[a][Vpn(va, i)], p);
    hide Size, Vpn, Phys;
  }

  lemma WalkLeaf(h: Memory, v: nat, i: nat, va: nat)
    requires i < MAX_LEVELS && GoodLeaf(i, v)
    ensures WalkEntry(h, v, i, va) == match LeafMeaning(v, va % Size(i))
                                      case None => None
                                      case Some(x) => Some(x.pa)
  {
    hide Size, Vpn, Phys;
  }

  /** `query` agrees with the hardware exactly when the translation fits the address width
      that `query` reassembles. */
  lemma QueryRefinesWalk(h: Memory, levels: nat, t: Placed, va: nat)
    requires 0 < levels <= MAX_LEVELS && t.PTable? && Stored(h, levels, t)
    requires Shaped(levels, Shape(t)) && WF(levels, Shape(t))
    ensures var walk := HardwareWalk(h, t.page, levels - 1, va);
            var answer := QueryTree(levels, levels, Shape(t), va);
            && (walk.None? <==> answer == Err(Invalid))
            && (walk.Some? ==> answer == Ok(walk.value % Size(levels)))
            && (walk.Some? ==> (answer == Ok(walk.value) <==> walk.value < Size(levels)))
  {
    hide *;
    ShapeTable(t);
    WalkMeaning(h, levels, t, va);
    QueryMeaning(levels, levels, Shape(t), va);
    var walk := HardwareWalk(h, t.page, levels - 1, va);
    if walk.Some? {
      ModFixed(walk.value, Size(levels));
    }
  }

  lemma ModFixed(x: nat, m: nat)
    requires m > 0
    ensures x % m == x <==> x < m
  {
    if x < m {
      DivUnique(x, m, 0, x);
    }
  }

  // ---- entries of any kind ----

  /** `query` takes the word for a leaf and answers with an address. */
  predicate Passes(v: nat, i: nat)
    requires i <= MAX_LEVELS
  {
    IsValid(v) && (v / BIT60) % 2 == 0 && IsLeaf(v) && Aligned(v, i)
  }

  /** A pointer to physical page 0, which `query` takes for a leaf. */
  predicate NullPointer(v: nat)
  {
    IsValid(v) && !IsRead(v) && !IsWrite(v) && !IsExecute(v) && v / 256 == 0
  }

  /** The two tests on reserved encodings: the first never succeeds, the second sees bit 60. */
  lemma ReservedTests(v: nat, va: nat, i: nat, levels: nat)
    requires i < levels <= MAX_LEVELS
    ensures LeafAnswer(v, va, i, levels) != Err(WriteOnly)
    ensures LeafAnswer(v, va, i, levels) == Err(ReservedBitSet) <==> IsValid(v) && (v / BIT60) % 2 == 1
    ensures LeafAnswer(v, va, i, levels).Ok? <==> Passes(v, i)
  {
    hide Aligned, Assembled;
  }

  /** One word: the answers of `query` and of the walk, for every word and level. */
  lemma WordVersusWalk(h: Memory, v: nat, va: nat, i: nat, levels: nat)
    requires i < levels <= MAX_LEVELS && (i > 0 ==> IsLeaf(v))
    ensures var answer, walk := LeafAnswer(v, va, i, levels), WalkEntry(h, v, i, va);
            && (answer.Ok? && walk.None? <==>
                  Passes(v, i) && (Reserved(v) || (NullPointer(v) && (i == 0 || HardwareWalk(h, 0, i - 1, va).None?))))
            && (!answer.Ok? ==> walk.None?)
            && (walk.Some? && !NullPointer(v) ==> answer == Ok(walk.value % Size(levels)))
  {
    ReservedTests(v, va, i, levels);
    if IsValid(v) && !Reserved(v) {
      BelowBit60(v);
      AlignedIff(v, i);
      if IsRead(v) || IsExecute(v) {
        GoodWord(v, va, i, levels);
      } else if v / 256 == 0 {
        NullAligned(v, i);
      }
    }
    hide LeafAnswer, HardwareWalk, Aligned, Size, Vpn, Phys, IsRead, IsWrite, IsExecute, IsValid;
  }

  lemma BelowBit60(v: nat)
    requires v < PTE_LIMIT
    ensures v / BIT60 == 0
  {
  }

  lemma GoodWord(v: nat, va: nat, i: nat, levels: nat)
    requires i < levels <= MAX_LEVELS && IsValid(v) && !Reserved(v) && (IsRead(v) || IsExecute(v))
    ensures Phys(v) % Size(i) == 0 ==> LeafAnswer(v, va, i, levels) == Ok((Phys(v) + va % Size(i)) % Size(levels))
  {
    hide LeafAnswer, Size, Phys;
    if Phys(v) % Size(i) == 0 {
      GoodLeafAnswer(v, va, i, levels);
    }
  }

  /** The address of a null pointer passes every alignment test. */
  lemma NullAligned(v: nat, i: nat)
    requires i <= MAX_LEVELS && v / 256 == 0
    ensures Aligned(v, i) && Phys(v) == 0
  {
    assert Address(v) == 0;
    forall j | 0 <= j < i
      ensures Vpn(Address(v), j) == 0
    {
      DivUnique(0, Size(j), 0, 0);
    }
  }

  /** The walk over memory also answers by the leaf word over the address alone. */
  lemma {:induction false} WalkAtLeaf(h: Memory, l: nat, t: Placed, va: nat)
    requires 0 < l <= MAX_LEVELS && t.PTable? && Stored(h, l, t) && Shaped(l, Shape(t))
    ensures var (v, k) := LeafOver(l, Shape(t), va);
            k < l && HardwareWalk(h, t.page, l - 1, va) == WalkEntry(h, v, k, va) && v < WORD
    decreases l
  {
    var d := Vpn(va, l - 1);
    var kid := t.kids[d];
    WalkSlot(h, l, t, d);
    hide *;
    LeafOverKid(l, t, va);
    if kid.PTable? {
      WalkPointer(h, t.page, l - 1, va, kid.page);
      WalkAtLeaf(h, l - 1, kid, va);
    } else {
      WalkHere(h, t.page, l - 1, va);
    }
  }

  lemma WalkSlot(h: Memory, l: nat, t: Placed, d: nat)
    requires 0 < l <= MAX_LEVELS && t.PTable? && Stored(h, l, t) && Shaped(l, Shape(t)) && d < ENTRY_COUNT
    ensures |t.kids| == ENTRY_COUNT && t.page in h && |h[t.page]| == ENTRY_COUNT && Shaped(l - 1, Shape(t.kids[d]))
    ensures match t.kids[d]
            case PLeaf(v) => v == h[t.page][d] && v < WORD
            case PTable(p, _) => l > 1 && Points(h[t.page][d], p) && Stored(h, l - 1, t.kids[d])
  {
    assert Slot(h, l - 1, h[t.page][d], t.kids[d]);
    assert Shape(t).kids[d] == Shape(t.kids[d]);
    hide IsLeaf, Points;
  }

  lemma LeafOverKid(l: nat, t: Placed, va: nat)
    requires 0 < l <= MAX_LEVELS && t.PTable? && |t.kids| == ENTRY_COUNT && Shaped(l, Shape(t))
    requires Shaped(l - 1, Shape(t.kids[Vpn(va, l - 1)]))
    ensures LeafOver(l, Shape(t), va) == LeafOver(l - 1, Shape(t.kids[Vpn(va, l - 1)]), va)
    ensures t.kids[Vpn(va, l - 1)].PLeaf? ==> LeafOver(l, Shape(t), va) == (t.kids[Vpn(va, l - 1)].pte, l - 1)
  {
    hide Vpn;
    assert Shape(t).kids[Vpn(va, l - 1)] == Shape(t.kids[Vpn(va, l - 1)]);
  }

  lemma WalkHere(h: Memory, a: nat, i: nat, va: nat)
    requires i < MAX_LEVELS && a in h && |h[a]| == ENTRY_COUNT
    ensures HardwareWalk(h, a, i, va) == WalkEntry(h, h[a][Vpn(va, i)], i, va)
  {
    hide WalkEntry, Vpn;
  }

  /** Where `query` goes on from a word that is not a leaf. */
  function QueryNext(v: nat): Option<nat>
  {
    if IsValid(v) && (v / BIT60) % 2 == 0 && !IsLeaf(v) then Some(Address(v)) else None
  }

  /** Where the walk goes on from a pointer. */
  function WalkNext(v: nat): Option<nat>
  {
    if IsValid(v) && !Reserved(v) && !IsRead(v) && !IsExecute(v) then Some(Phys(v)) else None
  }

  /** Both go on to the same table exactly from the words that stored trees use as pointers. */
  lemma PointerAgreeIff(v: nat)
    ensures QueryNext(v).Some? && QueryNext(v) == WalkNext(v) <==> Points(v, Address(v))
  {
    if v < PTE_LIMIT {
      BelowBit60(v);
      AddressParts(v);
    }
    hide Address, Phys;
  }

  // ---- any memory ----

  /** The loop of `query` from the table at `a`, a table of level `i`, on. */
  function QueryMemory(h: Memory, a: nat, i: nat, levels: nat, va: nat): QueryResult
    requires i < levels <= MAX_LEVELS
    decreases i
  {
    if a !in h || |h[a]| != ENTRY_COUNT then Outside
    else
      var v := h[a][Vpn(va, i)];
      if QueryNext(v).Some? && i > 0 then QueryMemory(h, QueryNext(v).value, i - 1, levels, va)
      else LeafAnswer(v, va, i, levels)
  }

  lemma QueryMemoryIs(h: Memory, a: nat, i: nat, levels: nat, va: nat)
    requires i < levels <= MAX_LEVELS
    ensures a !in h || |h[a]| != ENTRY_COUNT ==> QueryMemory(h, a, i, levels, va) == Outside
    ensures a in h && |h[a]| == ENTRY_COUNT ==>
              var v := h[a][Vpn(va, i)];
              QueryMemory(h, a, i, levels, va)
                == if QueryNext(v).Some? && i > 0 then QueryMemory(h, QueryNext(v).value, i - 1, levels, va)
                   else LeafAnswer(v, va, i, levels)
  {
    hide LeafAnswer, QueryNext, Vpn;
  }

  lemma QueryNextIs(v: nat)
    ensures QueryNext(v) == if IsValid(v) && (v / BIT60) % 2 != 1 && !IsLeaf(v) then Some(Address(v)) else None
  {
  }

  /** On a stored tree the loop answers by the tree. */
  lemma {:induction false} MemoryIsTree(h: Memory, l: nat, levels: nat, t: Placed, va: nat)
    requires 0 < l <= levels <= MAX_LEVELS && t.PTable? && Stored(h, l, t) && Shaped(l, Shape(t)) &&
            Readable(l, Shape(t))
    ensures QueryMemory(h, t.page, l - 1, levels, va) == QueryTree(l, levels, Shape(t), va)
    decreases l
  {
    var d := Vpn(va, l - 1);
    WalkSlot(h, l, t, d);
    TreeKid(l, levels, t, va);
    hide *;
    QueryMemoryIs(h, t.page, l - 1, levels, va);
    var kid := t.kids[d];
    if kid.PTable? {
      PointerAgreeIff(h[t.page][d]);
      PointsAt(h[t.page][d], kid.page);
      MemoryIsTree(h, l - 1, levels, kid, va);
    } else {
      QueryNextIs(h[t.page][d]);
      TreeLeaf(l - 1, levels, kid, va);
    }
  }

  lemma PointsAt(e: nat, p: nat)
    requires Points(e, p)
    ensures Address(e) == p && Points(e, Address(e))
  {
  }

  lemma TreeKid(l: nat, levels: nat, t: Placed, va: nat)
    requires 0 < l <= levels <= MAX_LEVELS && t.PTable? && |t.kids| == ENTRY_COUNT
    requires Shaped(l, Shape(t)) && Readable(l, Shape(t))
    ensures var kid := t.kids[Vpn(va, l - 1)];
            && Shaped(l - 1, Shape(kid)) && Readable(l - 1, Shape(kid)) && (Shape(kid).Leaf? <==> kid.PLeaf?)
            && QueryTree(l, levels, Shape(t), va) == QueryTree(l - 1, levels, Shape(kid), va)
  {
    assert Shape(t).kids[Vpn(va, l - 1)] == Shape(t.kids[Vpn(va, l - 1)]);
    hide LeafAnswer, Vpn;
  }

  lemma TreeLeaf(l: nat, levels: nat, t: Placed, va: nat)
    requires l < levels <= MAX_LEVELS && t.PLeaf? && Shaped(l, Shape(t)) && Readable(l, Shape(t))
    ensures QueryTree(l, levels, Shape(t), va) == LeafAnswer(t.pte, va, l, levels) && (l > 0 ==> IsLeaf(t.pte))
  {
    hide LeafAnswer, IsLeaf;
  }

  /** `query` gives an address where the walk faults: at a pointer word, because the word is reserved,
      because the two go on alike and differ below, or because they part and only `query`
      arrives; at the last word, because it passes the tests and is reserved or a null pointer. */
  predicate Differs(h: Memory, a: nat, i: nat, levels: nat, va: nat)
    requires i < levels <= MAX_LEVELS
    decreases i
  {
    && a in h && |h[a]| == ENTRY_COUNT
    && var v := h[a][Vpn(va, i)];
    if QueryNext(v).Some? && i > 0 then
      var p := QueryNext(v).value;
      if Reserved(v) then QueryMemory(h, p, i - 1, levels, va).Ok?
      else if p == Phys(v) then Differs(h, p, i - 1, levels, va)
      else QueryMemory(h, p, i - 1, levels, va).Ok? && HardwareWalk(h, Phys(v), i - 1, va).None?
    else Misjudged(h, v, i, va)
  }

  /** The same of the last word alone. */
  predicate Misjudged(h: Memory, v: nat, i: nat, va: nat)
    requires i < MAX_LEVELS
  {
    Passes(v, i) && (Reserved(v) || (NullPointer(v) && (i == 0 || HardwareWalk(h, 0, i - 1, va).None?)))
  }

  /** The walk arrives where `query` does not: only when they part at a pointer word. */
  predicate Misses(h: Memory, a: nat, i: nat, levels: nat, va: nat)
    requires i < levels <= MAX_LEVELS
    decreases i
  {
    && a in h && |h[a]| == ENTRY_COUNT
    && var v := h[a][Vpn(va, i)];
    && QueryNext(v).Some? && i > 0 && !Reserved(v)
    && var p := QueryNext(v).value;
    if p == Phys(v) then Misses(h, p, i - 1, levels, va)
    else !QueryMemory(h, p, i - 1, levels, va).Ok? && HardwareWalk(h, Phys(v), i - 1, va).Some?
  }

  /** All pointers on the way are followed alike, and the last word is no null pointer. */
  predicate Straight(h: Memory, a: nat, i: nat, levels: nat, va: nat)
    requires i < levels <= MAX_LEVELS
    decreases i
  {
    && a in h && |h[a]| == ENTRY_COUNT
    && var v := h[a][Vpn(va, i)];
    if QueryNext(v).Some? && i > 0 then
      QueryNext(v).value == Phys(v) && Straight(h, Phys(v), i - 1, levels, va)
    else !NullPointer(v)
  }

  /** One step of both at a word that `query` takes for a pointer. */
  lemma PointerStep(h: Memory, v: nat, i: nat, va: nat)
    requires 0 < i < MAX_LEVELS && QueryNext(v).Some?
    ensures WalkEntry(h, v, i, va) == if Reserved(v) then None else HardwareWalk(h, Phys(v), i - 1, va)
  {
    hide Vpn, Phys;
  }

  /** A word at which `query` stops above level 0 is a leaf, or both fault. */
  lemma LastWord(h: Memory, v: nat, i: nat, levels: nat, va: nat)
    requires i < levels <= MAX_LEVELS && (QueryNext(v).None? || i == 0)
    ensures var answer, walk := LeafAnswer(v, va, i, levels), WalkEntry(h, v, i, va);
            && (answer.Ok? && walk.None? <==> Misjudged(h, v, i, va))
            && (!answer.Ok? ==> walk.None?)
            && (walk.Some? && !NullPointer(v) ==> answer == Ok(walk.value % Size(levels)))
  {
    if i == 0 || IsLeaf(v) {
      WordVersusWalk(h, v, va, i, levels);
      hide LeafAnswer, WalkEntry, Passes, Reserved, NullPointer, Size, QueryNext;
    } else {
      ReservedTests(v, va, i, levels);
      Bit60IsReserved(v);
      hide LeafAnswer, Size, Vpn, Phys, Aligned;
    }
  }

  lemma Bit60IsReserved(v: nat)
    requires (v / BIT60) % 2 != 0
    ensures v >= PTE_LIMIT
  {
    if v < PTE_LIMIT {
      BelowBit60(v);
    }
  }

  /** `query` against the walk on any memory: exactly when it answers where the walk faults, exactly
      when it fails where the walk arrives, and that both answers agree up to truncation when
      all pointers are followed alike. */
  lemma {:induction false} MemoryVersusWalk(h: Memory, a: nat, i: nat, levels: nat, va: nat)
    requires i < levels <= MAX_LEVELS
    ensures var answer, walk := QueryMemory(h, a, i, levels, va), HardwareWalk(h, a, i, va);
            && (answer.Ok? && walk.None? <==> Differs(h, a, i, levels, va))
            && (!answer.Ok? && walk.Some? <==> Misses(h, a, i, levels, va))
            && (walk.Some? && Straight(h, a, i, levels, va) ==> answer == Ok(walk.value % Size(levels)))
    decreases i
  {
    QueryMemoryIs(h, a, i, levels, va);
    if a in h && |h[a]| == ENTRY_COUNT {
      var v := h[a][Vpn(va, i)];
      WalkHere(h, a, i, va);
      if QueryNext(v).Some? && i > 0 {
        PointerStep(h, v, i, va);
        MemoryVersusWalk(h, QueryNext(v).value, i - 1, levels, va);
      } else {
        LastWord(h, v, i, levels, va);
      }
    }
    hide QueryMemory, LeafAnswer, WalkEntry, QueryNext, Reserved, Misjudged, NullPointer, Phys, Vpn, Size;
  }

  lemma LeafReadable(l: nat, t: Tree, va: nat)
    requires l <= MAX_LEVELS && Shaped(l, t) && Readable(l, t)
    ensures LeafOver(l, t, va).1 > 0 ==> IsLeaf(LeafOver(l, t, va).0)
  {
    hide IsLeaf, Vpn;
    if t.Table? {
      LeafReadable(l - 1, t.kids[Vpn(va, l - 1)], va);
    }
  }

  /** `query` against the walk on every stored tree, well formed or not: it gives an address
      where the walk faults if and only if the leaf word over the address passes its tests and
      is write-only, has a bit from 54 on set other than bit 60, or is a null pointer that
      the walk does not resolve; it never faults where the walk succeeds; and elsewhere the two
      agree up to truncation. */
  lemma QueryVersusWalk(h: Memory, levels: nat, t: Placed, va: nat)
    requires 0 < levels <= MAX_LEVELS && t.PTable? && Stored(h, levels, t) && Shaped(levels, Shape(t))
    requires Readable(levels, Shape(t))
    ensures Shape(t).Table?
    ensures var (v, k) := LeafOver(levels, Shape(t), va);
            var answer, walk := QueryTree(levels, levels, Shape(t), va), HardwareWalk(h, t.page, levels - 1, va);
            && (answer.Ok? && walk.None? <==>
                  Passes(v, k) && (Reserved(v) || (NullPointer(v) && (k == 0 || HardwareWalk(h, 0, k - 1, va).None?))))
            && (!answer.Ok? ==> walk.None?)
            && (walk.Some? && !NullPointer(v) ==> answer == Ok(walk.value % Size(levels)))
  {
    hide *;
    ShapeTable(t);
    QueryAtLeaf(levels, levels, Shape(t), va);
    WalkAtLeaf(h, levels, t, va);
    LeafReadable(levels, Shape(t), va);
    var leaf := LeafOver(levels, Shape(t), va);
    WordVersusWalk(h, leaf.0, va, leaf.1, levels);
  }

  // ---- witnesses ----

  /** A root table with one entry in its first slot. */
  ghost function OneLeaf(v: nat): (t: Placed)
    ensures t.PTable? && t.page == PAGE && |t.kids| == ENTRY_COUNT && t.kids[0] == PLeaf(v)
    ensures forall i :: 0 < i < ENTRY_COUNT ==> t.kids[i] == PLeaf(0)
  {
    PTable(PAGE, [PLeaf(v)] + seq(ENTRY_COUNT - 1, i => PLeaf(0)))
  }

  ghost function OneLeafMemory(v: nat): (h: Memory)
    ensures PAGE in h && |h[PAGE]| == ENTRY_COUNT && h[PAGE][0] == v && 0 !in h
    ensures forall i :: 0 < i < ENTRY_COUNT ==> h[PAGE][i] == 0
  {
    var words: seq<nat> := [v] + seq(ENTRY_COUNT - 1, i => 0);
    map[PAGE := words]
  }

  lemma OneLeafStored(v: nat)
    requires v < WORD && IsLeaf(v)
    ensures var h, t := OneLeafMemory(v), OneLeaf(v);
            && Stored(h, 3, t) && Shaped(3, Shape(t)) && Shape(t).Table? && LeafOver(3, Shape(t), 0) == (v, 2)
            && Readable(3, Shape(t))
            && QueryTree(3, 3, Shape(t), 0) == LeafAnswer(v, 0, 2, 3)
            && HardwareWalk(h, PAGE, 2, 0) == WalkEntry(h, v, 2, 0)
  {
    var h, t := OneLeafMemory(v), OneLeaf(v);
    assert IsLeaf(0);
    assert Vpn(0, 2) == 0;
    hide IsLeaf, OneLeaf, OneLeafMemory, WalkEntry, LeafAnswer, Vpn;
    forall i | 0 <= i < ENTRY_COUNT
      ensures Slot(h, 2, h[PAGE][i], t.kids[i]) && Shaped(2, Shape(t).kids[i]) && Readable(2, Shape(t).kids[i])
    {
      assert t.kids[i].PLeaf? && Shape(t).kids[i] == Shape(t.kids[i]);
    }
    assert Shape(t).kids[0] == Leaf(v);
  }

  /** Three entries that `query` accepts and the walk refuses: V, W and X without R; a bit above
      the 54th; and a null pointer. */
  lemma AcceptedButRefused(v: nat)
    requires v in {0xd, PTE_LIMIT + 3, 1}
    ensures var h, t := OneLeafMemory(v), OneLeaf(v);
            && Stored(h, 3, t) && Shaped(3, Shape(t)) && Shape(t).Table?
            && QueryTree(3, 3, Shape(t), 0).Ok? && HardwareWalk(h, PAGE, 2, 0).None?
  {
    OneLeafStored(v);
    AcceptedWord(v);
    var h := OneLeafMemory(v);
    ReservedTests(v, 0, 2, 3);
    hide LeafAnswer, Stored, Shaped, Shape, Passes;
    if v == 1 {
      assert Phys(1) == 0 && HardwareWalk(h, 0, 1, 0) == None;
    }
  }

  lemma AcceptedWord(v: nat)
    requires v in {0xd, PTE_LIMIT + 3, 1}
    ensures Passes(v, 2) && IsLeaf(v) && v < WORD && (v != 1 ==> Reserved(v))
  {
    if v == 0xd || v == 1 {
      NullAligned(v, 2);
    } else {
      assert Address(v) == PTE_LIMIT * 4;
      assert Vpn(PTE_LIMIT * 4, 0) == 0 && Vpn(PTE_LIMIT * 4, 1) == 0;
    }
  }

  /** A write-only superpage, which `query` follows as a pointer. */
  const WRITE_ONLY: nat := 0x2000 / 4 + 5

  function Zeros(n: nat): (s: seq<nat>)
    ensures |s| == n && forall i :: 0 <= i < n ==> s[i] == 0
  {
    seq(n, i => 0)
  }

  /** Its memory: the root with that word first, and at 0x2000 a table that maps page 0. */
  function WriteOnlyMemory(): (h: Memory)
    ensures PAGE in h && |h[PAGE]| == ENTRY_COUNT && h[PAGE][0] == WRITE_ONLY
    ensures 0x2000 in h && |h[0x2000]| == ENTRY_COUNT && h[0x2000][0] == 0xf
  {
    map[PAGE := [WRITE_ONLY] + Zeros(ENTRY_COUNT - 1), 0x2000 := [0xf] + Zeros(ENTRY_COUNT - 1)]
  }

  lemma WriteOnlyWords()
    ensures 3 <= MAX_LEVELS && 0 < ENTRY_COUNT && Vpn(0, 2) == 0 && Vpn(0, 1) == 0
    ensures QueryNext(WRITE_ONLY) == Some(0x2000) && Reserved(WRITE_ONLY)
    ensures QueryNext(0xf).None? && GoodLeaf(1, 0xf) && IsValid(0xf) && (Phys(0xf) + 0 % Size(1)) % Size(3) == 0
  {
  }

  /** Address 0 lies under a write-only root entry: the walk faults, `query` answers. */
  lemma WriteOnlyFollowed()
    ensures QueryMemory(WriteOnlyMemory(), PAGE, 2, 3, 0) == Ok(0) && HardwareWalk(WriteOnlyMemory(), PAGE, 2, 0).None?
    ensures Differs(WriteOnlyMemory(), PAGE, 2, 3, 0)
  {
    hide *;
    WriteOnlyWords();
    var h := WriteOnlyMemory();
    QueryMemoryIs(h, PAGE, 2, 3, 0);
    QueryMemoryIs(h, 0x2000, 1, 3, 0);
    GoodLeafAnswer(0xf, 0, 1, 3);
    WalkHere(h, PAGE, 2, 0);
    PointerStep(h, WRITE_ONLY, 2, 0);
    MemoryVersusWalk(h, PAGE, 2, 3, 0);
  }

  /** Truncation is real: a well-formed table that maps address 0 to 2^39, where `query` says 0. */
  lemma TruncatedAnswer()
    ensures var h, t := OneLeafMemory(BEYOND), OneLeaf(BEYOND);
            && Stored(h, 3, t) && Shaped(3, Shape(t)) && WF(3, Shape(t)) && Shape(t).Table?
            && HardwareWalk(h, PAGE, 2, 0) == Some(Size(3)) && QueryTree(3, 3, Shape(t), 0) == Ok(0)
  {
    BeyondWord();
    OneLeafStored(BEYOND);
    OneLeafWF(BEYOND);
    hide *;
    GoodLeafAnswer(BEYOND, 0, 2, 3);
    WalkLeaf(OneLeafMemory(BEYOND), BEYOND, 2, 0);
  }

  /** A gigapage entry for 2^39. */
  const BEYOND: nat := 0x20_0000_000f

  lemma BeyondWord()
    ensures 3 <= MAX_LEVELS && GoodLeaf(2, BEYOND) && IsLeaf(BEYOND) && IsValid(BEYOND) && BEYOND < WORD
    ensures (Phys(BEYOND) + 0 % Size(2)) % Size(3) == 0 && LeafMeaning(BEYOND, 0 % Size(2)) == Some(Xlat(Size(3), 0xf))
  {
  }

  lemma OneLeafWF(v: nat)
    requires GoodLeaf(2, v)
    ensures WF(3, Shape(OneLeaf(v)))
  {
    var t := OneLeaf(v);
    assert GoodLeaf(2, 0);
    hide GoodLeaf, OneLeaf;
    forall i | 0 <= i < ENTRY_COUNT
      ensures WF(2, Shape(t).kids[i])
    {
      assert Shape(t).kids[i] == Shape(t.kids[i]);
    }
  }
}
