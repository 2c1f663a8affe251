/** Whole sequences of `map` calls, and the address space the bootloader builds. */
module PageRuns {
  import opened Options
  import opened Arith
  import opened PageArith
  import opened PageTree
  import opened PageMap
  import opened PageMeaning
  import opened PageExact
  import opened PageSuper
  import opened PageLimits
  import opened PageQuery

  /** The tree after the requests `rs`, in order. */
  function Run(levels: nat, t: Tree, rs: seq<Request>): (u: Tree)
    requires 0 < levels <= MAX_LEVELS && t.Table? && Shaped(levels, t)
    requires forall i :: 0 <= i < |rs| ==> 1 <= rs[i].va + rs[i].len
    ensures u.Table? && Shaped(levels, u)
  {
    if rs == [] then t
    else
      var n := |rs| - 1;
      var p := Run(levels, t, rs[..n]);
      MapShaped(levels - 1, p.kids, 0, rs[n]);
      MapRoot(levels, p, rs[n])
  }

  /** The last request of the run that wrote the slot of `v`. */
  function LastHit(levels: nat, t: Tree, rs: seq<Request>, v: nat): (k: Option<nat>)
    requires 0 < levels <= MAX_LEVELS && t.Table? && Shaped(levels, t) && v < Size(levels)
    requires forall i :: 0 <= i < |rs| ==> 1 <= rs[i].va + rs[i].len
    ensures k.Some? ==> k.value < |rs|
  {
    if rs == [] then None
    else
      var n := |rs| - 1;
      if Hit(levels, Run(levels, t, rs), v, rs[n]) then Some(n) else LastHit(levels, t, rs[..n], v)
  }

  /** Over any run of sound requests the tree stays well formed, and every address translates
      by the last request that wrote its slot, or as at the start. */
  lemma {:induction false} RunMeaning(levels: nat, t: Tree, rs: seq<Request>, v: nat)
    requires 0 < levels <= MAX_LEVELS && t.Table? && WF(levels, t) && Shaped(levels, t) && v < Size(levels)
    requires forall i :: 0 <= i < |rs| ==> 1 <= rs[i].va + rs[i].len && Sound(levels, rs[i])
    ensures WF(levels, Run(levels, t, rs))
    ensures Look(levels, Run(levels, t, rs), v) == match LastHit(levels, t, rs, v)
                                                   case None => Look(levels, t, v)
                                                   case Some(k) => Target(rs[k], v)
    decreases |rs|
  {
    hide *;
    RunParts(levels, t, rs, v);
    if rs != [] {
      var n := |rs| - 1;
      RunMeaning(levels, t, rs[..n], v);
      MapSound(levels, Run(levels, t, rs[..n]), rs[n], v);
    }
  }

  /** A run, from its last request back. */
  lemma RunParts(levels: nat, t: Tree, rs: seq<Request>, v: nat)
    requires 0 < levels <= MAX_LEVELS && t.Table? && Shaped(levels, t) && v < Size(levels)
    requires forall i :: 0 <= i < |rs| ==> 1 <= rs[i].va + rs[i].len
    ensures rs == [] ==> Run(levels, t, rs) == t && LastHit(levels, t, rs, v) == None
    ensures rs != [] ==>
              var n := |rs| - 1;
              Run(levels, t, rs) == MapRoot(levels, Run(levels, t, rs[..n]), rs[n])
              && LastHit(levels, t, rs, v)
                  == if Hit(levels, Run(levels, t, rs), v, rs[n]) then Some(n) else LastHit(levels, t, rs[..n], v)
  {
    hide Size, MapRoot, Hit, Shaped;
  }

  /** After any run of sound requests `query` never reaches its assertion: it answers with the
      translation, truncated to the virtual address width, or with an invalid entry. */
  lemma RunQuery(levels: nat, t: Tree, rs: seq<Request>, va: nat)
    requires 0 < levels <= MAX_LEVELS && t.Table? && WF(levels, t) && Shaped(levels, t)
    requires forall i :: 0 <= i < |rs| ==> 1 <= rs[i].va + rs[i].len && Sound(levels, rs[i])
    ensures QueryTree(levels, levels, Run(levels, t, rs), va)
              == match LastHit(levels, t, rs, va % Size(levels))
                 case Some(k) => Ok(((va % Size(levels) + rs[k].pa - rs[k].va) % PHYS) % Size(levels))
                 case None => QueryTree(levels, levels, t, va)
  {
    hide *;
    var v := va % Size(levels);
    RunMeaning(levels, t, rs, v);
    QueryMeaning(levels, levels, Run(levels, t, rs), va);
    QueryMeaning(levels, levels, t, va);
    if LastHit(levels, t, rs, v).Some? {
      TargetIs(rs[LastHit(levels, t, rs, v).value], v);
    }
  }

  lemma TargetIs(r: Request, v: nat)
    ensures Target(r, v) == Some(Xlat((v + r.pa - r.va) % PHYS, r.flags))
  {
  }

  // ---- which requests `query` can show ----

  /** Where the request sends `v` fits the address width that `query` reassembles. */
  predicate Fits(levels: nat, r: Request, v: nat)
    requires levels <= MAX_LEVELS
  {
    (v + r.pa - r.va) % PHYS < Size(levels)
  }

  /** The whole target range fits; with five levels everything does. */
  predicate Showable(levels: nat, r: Request)
    requires levels <= MAX_LEVELS
  {
    levels == MAX_LEVELS || r.pa % PHYS + r.len <= Size(levels)
  }

  lemma FitsIff(levels: nat, r: Request)
    requires levels <= MAX_LEVELS && r.len > 0
    ensures (forall v :: r.va <= v < r.va + r.len ==> Fits(levels, r, v)) <==> Showable(levels, r)
  {
    var p := r.pa % PHYS;
    Widths(levels);
    if Showable(levels, r) {
      forall v | r.va <= v < r.va + r.len
        ensures Fits(levels, r, v)
      {
        if levels < MAX_LEVELS {
          ShiftedTo(r.pa, v - r.va);
        }
      }
    } else if p >= Size(levels) {
      ShiftedTo(r.pa, 0);
      assert !Fits(levels, r, r.va);
    } else {
      ShiftedTo(r.pa, Size(levels) - p);
      assert !Fits(levels, r, r.va + (Size(levels) - p));
    }
    hide Size, PHYS;
  }

  lemma Widths(levels: nat)
    requires levels <= MAX_LEVELS
    ensures levels < MAX_LEVELS ==> Size(levels) < PHYS
    ensures levels == MAX_LEVELS ==> PHYS <= Size(levels)
  {
  }

  lemma ShiftedTo(pa: nat, d: nat)
    requires pa % PHYS + d < PHYS
    ensures (d + pa) % PHYS == pa % PHYS + d
  {
    DivUnique(d + pa, PHYS, pa / PHYS, pa % PHYS + d);
  }

  /** `query` gives the translation of `v` that the request asked for. */
  ghost predicate Answers(levels: nat, u: Tree, r: Request, v: nat)
    requires 0 < levels <= MAX_LEVELS && u.Table? && Shaped(levels, u)
  {
    QueryTree(levels, levels, u, v) == Ok((v + r.pa - r.va) % PHYS)
  }

  lemma AnswersIff(levels: nat, u: Tree, r: Request, v: nat)
    requires 0 < levels <= MAX_LEVELS && u.Table? && Shaped(levels, u) && WF(levels, u) && v < Size(levels)
    requires Look(levels, u, v) == Target(r, v)
    ensures Answers(levels, u, r, v) <==> Fits(levels, r, v)
  {
    hide *;
    DivUnique(v, Size(levels), 0, v);
    QueryMeaning(levels, levels, u, v);
    TargetIs(r, v);
    FitsIs(levels, u, r, v);
  }

  lemma FitsIs(levels: nat, u: Tree, r: Request, v: nat)
    requires 0 < levels <= MAX_LEVELS && u.Table? && Shaped(levels, u)
    requires QueryTree(levels, levels, u, v) == Ok(((v + r.pa - r.va) % PHYS) % Size(levels))
    ensures Answers(levels, u, r, v) <==> Fits(levels, r, v)
  {
    var x := (v + r.pa - r.va) % PHYS;
    hide QueryTree, Size, PHYS;
    if x < Size(levels) {
      DivUnique(x, Size(levels), 0, x);
    }
  }

  /** After a request that is exact on its range, `query` answers the whole range with the
      requested addresses if and only if the physical range, which the caller names, ends
      below the virtual address width. */
  lemma RangeAnswersIff(levels: nat, u: Tree, r: Request)
    requires 0 < levels <= MAX_LEVELS && u.Table? && Shaped(levels, u) && WF(levels, u)
    requires r.len > 0 && r.va + r.len <= Size(levels)
    requires forall v :: r.va <= v < r.va + r.len ==> Look(levels, u, v) == Target(r, v)
    ensures (forall v :: r.va <= v < r.va + r.len ==> Answers(levels, u, r, v)) <==> Showable(levels, r)
  {
    hide *;
    FitsIff(levels, r);
    forall v | r.va <= v < r.va + r.len
      ensures Answers(levels, u, r, v) <==> Fits(levels, r, v)
    {
      AnswersIff(levels, u, r, v);
    }
  }

  /** So it is after any request inside one 2 MiB slot, on any tree. */
  lemma SmallAnswersIff(levels: nat, t: Tree, r: Request)
    requires 1 < levels <= MAX_LEVELS && Legal(levels, r) && GoodFlags(r.flags) && 1 <= r.va + r.len
    requires 0 < r.len && Small(r) && r.va + r.len <= Size(levels) && t.Table? && WF(levels, t) && Shaped(levels, t)
    ensures Shaped(levels, MapRoot(levels, t, r)) && MapRoot(levels, t, r).Table?
    ensures (forall v :: r.va <= v < r.va + r.len ==> Answers(levels, MapRoot(levels, t, r), r, v)) <==>
            Showable(levels, r)
  {
    SmallReach(r);
    MapRootTable(levels, t, r);
    hide *;
    SmallExact(levels, t, r, r.va);
    forall v | r.va <= v < r.va + r.len
      ensures Look(levels, MapRoot(levels, t, r), v) == Target(r, v)
    {
      SmallExact(levels, t, r, v);
    }
    RangeAnswersIff(levels, MapRoot(levels, t, r), r);
  }

  lemma SmallReach(r: Request)
    ensures r.va + r.len <= SmallEnd(r)
  {
  }

  lemma MapRootTable(levels: nat, t: Tree, r: Request)
    requires 0 < levels <= MAX_LEVELS && 1 <= r.va + r.len && t.Table? && Shaped(levels, t)
    ensures MapRoot(levels, t, r).Table?
  {
  }

  /** And after any request for whole superpages with no table under them. */
  lemma SuperAnswersIff(levels: nat, k: nat, t: Tree, r: Request)
    requires 0 < k < levels <= MAX_LEVELS && Legal(levels, r) && GoodFlags(r.flags) && Super(k, r) && 1 <= r.va + r.len
    requires 0 < r.len && r.va + r.len <= Size(levels)
    requires t.Table? && WF(levels, t) && Shaped(levels, t) && NoTables(k, levels, t, 0, r)
    ensures Shaped(levels, MapRoot(levels, t, r)) && MapRoot(levels, t, r).Table?
    ensures (forall v :: r.va <= v < r.va + r.len ==> Answers(levels, MapRoot(levels, t, r), r, v)) <==>
            Showable(levels, r)
  {
    MapRootTable(levels, t, r);
    hide *;
    SuperExact(levels, k, t, r, r.va);
    forall v | r.va <= v < r.va + r.len
      ensures Look(levels, MapRoot(levels, t, r), v) == Target(r, v)
    {
      SuperExact(levels, k, t, r, v);
    }
    RangeAnswersIff(levels, MapRoot(levels, t, r), r);
  }

  // ---- the bootloader's address space ----

  const HALF: nat := 0x40_0000_0000
  const KERNEL_BASE: nat := 0x7f_8000_0000
  const KERNEL_START_VIRTUAL: nat := WORD - 0x8000_0000
  const GAP: nat := WORD - HALF

  function LowHalf(): Request { Request(0, 0, HALF, 0xf) }

  function HighHalf(): Request { Request(0, HALF, HALF, 0xf) }

  /** The payload length rounded up by the bootloader. */
  function Padded(n: nat): (p: nat)
    ensures n < p <= n + 4096 && p % PAGE == 0
  {
    (n / 4096 + 1) * 4096
  }

  function Kernel(payload: nat, n: nat): Request { Request(payload, KERNEL_BASE, Padded(n), 0xf) }

  /** `TABLE` after the three calls in `pre_main`. */
  function BootTree(payload: nat, n: nat): (t: Tree)
    ensures t.Table? && Shaped(3, t)
  {
    ZeroWF(3);
    Run(3, ZeroTable(), [LowHalf(), HighHalf(), Kernel(payload, n)])
  }

  lemma BootLow()
    ensures Legal(3, LowHalf()) && Super(2, LowHalf()) && GoodFlags(0xf)
    ensures Start(2, LowHalf()) == 0 && End(2, LowHalf()) == 255
    ensures Legal(3, HighHalf()) && Super(2, HighHalf())
  {
  }

  lemma BootKernel(payload: nat, n: nat)
    requires payload % PAGE == 0 && payload < WORD && Padded(n) < MEGAPAGE
    ensures Legal(3, Kernel(payload, n)) && Small(Kernel(payload, n))
    ensures SmallEnd(Kernel(payload, n)) == KERNEL_BASE + Padded(n) + PAGE <= Size(3)
  {
    assert KERNEL_BASE % MEGAPAGE == 0;
    DivUnique(KERNEL_BASE + Padded(n), MEGAPAGE, KERNEL_BASE / MEGAPAGE, Padded(n));
  }

  /** The root of the first two calls still holds leaves in its upper half. */
  lemma {:induction false} UpperHalfLeaves(v: nat)
    requires HALF <= v < Size(3) && Shaped(3, ZeroTable()) && Shaped(3, MapRoot(3, ZeroTable(), LowHalf()))
    ensures LeafLevel(3, MapRoot(3, ZeroTable(), LowHalf()), v) == 2
  {
    BootLow();
    DigitBound(v, 3);
    var d := Digit(3, v);
    assert d >= 256;
    hide Start, End;
    assert MapRoot(3, ZeroTable(), LowHalf()).kids[d] == Leaf(0);
  }

  lemma ZeroLevel(v: nat)
    requires v < Size(3) && Shaped(3, ZeroTable())
    ensures LeafLevel(3, ZeroTable(), v) == 2 && Look(3, ZeroTable(), v) == None
  {
    hide Size;
    assert ZeroTable().kids[Digit(3, v)] == Leaf(0);
  }

  /** After the first two calls both halves map physical memory. */
  lemma BootHalves(v: nat)
    requires v < Size(3)
    ensures WF(3, Run(3, ZeroTable(), [LowHalf(), HighHalf()])) && Shaped(3, ZeroTable())
    ensures Look(3, Run(3, ZeroTable(), [LowHalf(), HighHalf()]), v) == Some(Xlat(v % HALF, 0xf))
  {
    var z, lo, hi := ZeroTable(), LowHalf(), HighHalf();
    ZeroWF(3);
    BootLow();
    forall o {:trigger LeafLevel(3, z, o)} | 0 <= o < Size(3)
      ensures LeafLevel(3, z, o) >= 2
    {
      ZeroLevel(o);
    }
    SuperExact(3, 2, z, lo, v);
    ZeroLevel(v);
    var t1 := MapRoot(3, z, lo);
    forall o {:trigger LeafLevel(3, t1, o)} | 0 <= o < Size(3) && hi.va <= 0 + o < hi.va + hi.len
      ensures LeafLevel(3, t1, o) >= 2
    {
      UpperHalfLeaves(o);
    }
    SuperExact(3, 2, t1, hi, v);
    assert Run(3, z, [lo, hi]) == MapRoot(3, t1, hi) by {
      assert [lo, hi][..1] == [lo] && [lo][..0] == [];
      assert Run(3, z, [lo]) == t1;
    }
    HalvesTarget(v);
  }

  lemma HalvesTarget(v: nat)
    requires v < 2 * HALF
    ensures v < HALF ==> Target(LowHalf(), v) == Some(Xlat(v % HALF, 0xf))
    ensures v >= HALF ==> Target(HighHalf(), v) == Some(Xlat(v % HALF, 0xf))
  {
  }

  /** What the boot page table translates each address to. */
  function BootSpace(payload: nat, n: nat, v: nat): Xlat
  {
    if KERNEL_BASE <= v < KERNEL_BASE + Padded(n) + PAGE then Xlat((v + payload - KERNEL_BASE) % PHYS, 0xf)
    else Xlat(v % HALF, 0xf)
  }

  /** The boot address space: the low half is mapped to itself, the kernel window (and one page
      after it) to the payload, the rest of the high half to physical memory from 0. */
  lemma BootMeaning(payload: nat, n: nat, v: nat)
    requires payload % PAGE == 0 && payload < WORD && Padded(n) < MEGAPAGE && v < Size(3)
    ensures WF(3, BootTree(payload, n))
    ensures Look(3, BootTree(payload, n), v) == Some(BootSpace(payload, n, v))
  {
    BootHalves(v);
    BootLow();
    BootKernel(payload, n);
    BootTreeIs(payload, n);
    BootTarget(payload, n, v);
    hide *;
    SmallExact(3, Run(3, ZeroTable(), [LowHalf(), HighHalf()]), Kernel(payload, n), v);
  }

  lemma BootTreeIs(payload: nat, n: nat)
    requires Shaped(3, ZeroTable())
    ensures LowHalf().va + LowHalf().len >= 1 && HighHalf().va + HighHalf().len >= 1
    ensures BootTree(payload, n) == MapRoot(3, Run(3, ZeroTable(), [LowHalf(), HighHalf()]), Kernel(payload, n))
  {
    var lo, hi, k := LowHalf(), HighHalf(), Kernel(payload, n);
    assert [lo, hi, k][..2] == [lo, hi];
    hide MapTable, Size;
  }

  lemma BootTarget(payload: nat, n: nat, v: nat)
    ensures var k := Kernel(payload, n);
            && k.va == KERNEL_BASE && k.len == Padded(n) && k.flags == 0xf
            && (KERNEL_BASE <= v < KERNEL_BASE + Padded(n) + PAGE ==> Target(k, v) == Some(BootSpace(payload, n, v)))
            && (!(KERNEL_BASE <= v < KERNEL_BASE + Padded(n) + PAGE) ==>
                BootSpace(payload, n, v) == Xlat(v % HALF, 0xf))
  {
  }

  function PhysToVirt(p: nat): nat { p + GAP }

  /** Looking up the linear alias of a physical address gives the address back, outside the
      alias of the kernel window; looking up the kernel base gives the payload. */
  lemma BootQuery(payload: nat, n: nat, p: nat)
    requires payload % PAGE == 0 && payload < HALF && Padded(n) < MEGAPAGE && p < HALF
    ensures PhysToVirt(p) == 0xffff_ffc0_0000_0000 + p < WORD && PhysToVirt(p) % Size(3) == p + HALF
    ensures !(KERNEL_BASE <= p + HALF < KERNEL_BASE + Padded(n) + PAGE) ==>
              QueryTree(3, 3, BootTree(payload, n), PhysToVirt(p)) == Ok(p)
    ensures QueryTree(3, 3, BootTree(payload, n), p) == Ok(p)
    ensures QueryTree(3, 3, BootTree(payload, n), 0xffff_ffff_8000_0000) == Ok(payload)
  {
    BootAddresses(p);
    BootPhysical(payload, n, p);
    hide *;
    BootAt(payload, n, PhysToVirt(p));
    BootAt(payload, n, p);
    BootAt(payload, n, KERNEL_START_VIRTUAL);
  }

  lemma BootAddresses(p: nat)
    requires p < HALF
    ensures PhysToVirt(p) == 0xffff_ffc0_0000_0000 + p < WORD && PhysToVirt(p) % Size(3) == p + HALF
    ensures KERNEL_START_VIRTUAL == 0xffff_ffff_8000_0000
    ensures p % Size(3) == p && KERNEL_START_VIRTUAL % Size(3) == KERNEL_BASE
  {
    DivUnique(PhysToVirt(p), Size(3), WORD / Size(3) - 1, p + HALF);
  }

  lemma BootPhysical(payload: nat, n: nat, p: nat)
    requires payload < HALF && p < HALF
    ensures !(KERNEL_BASE <= p + HALF < KERNEL_BASE + Padded(n) + PAGE) ==>
              BootSpace(payload, n, p + HALF).pa % Size(3) == p
    ensures BootSpace(payload, n, p).pa % Size(3) == p
    ensures BootSpace(payload, n, KERNEL_BASE).pa % Size(3) == payload
  {
  }

  lemma BootAt(payload: nat, n: nat, va: nat)
    requires payload % PAGE == 0 && payload < WORD && Padded(n) < MEGAPAGE
    ensures QueryTree(3, 3, BootTree(payload, n), va)
              == Ok(BootSpace(payload, n, va % Size(3)).pa % Size(3))
  {
    BootMeaning(payload, n, va % Size(3));
    hide BootTree, BootSpace, Size, Vpn;
    QueryMeaning(3, 3, BootTree(payload, n), va);
  }
}
