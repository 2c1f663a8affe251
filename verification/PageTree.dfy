/** The radix tree as a value: what it means and how a superpage is split.  A tree at
    level `l` stands for one entry covering `Size(l)` bytes; the root table is a tree at level
    LEVELS. */
module PageTree {
  import opened Options
  import opened Arith
  import opened PageArith

  datatype Tree = Leaf(pte: nat) | Table(kids: seq<Tree>)

  /** A translation: physical address and the eight flag bits that govern the access. */
  datatype Xlat = Xlat(pa: nat, perm: nat)

  // ---- well-formed entries and trees ----

  /** A valid leaf can be read or executed, and is not write-only. */
  predicate PermOk(v: nat)
  {
    IsRead(v) || (IsExecute(v) && !IsWrite(v))
  }

  /** Leaves are aligned to their level, stay below bit 54, and carry usable permissions. */
  predicate GoodLeaf(l: nat, v: nat)
    requires l <= MAX_LEVELS
  {
    v < PTE_LIMIT && Phys(v) % Size(l) == 0 && (IsValid(v) ==> PermOk(v))
  }

  /** Every table has 512 entries and there are at most `l` levels of them. */
  ghost predicate Shaped(l: nat, t: Tree)
  {
    t.Table? ==>
      l > 0 && |t.kids| == ENTRY_COUNT && forall i :: 0 <= i < ENTRY_COUNT ==> Shaped(l - 1, t.kids[i])
  }

  ghost predicate WF(l: nat, t: Tree)
    requires l <= MAX_LEVELS
  {
    match t
    case Leaf(v) => GoodLeaf(l, v)
    case Table(kids) =>
      l > 0 && |kids| == ENTRY_COUNT && forall i :: 0 <= i < ENTRY_COUNT ==> WF(l - 1, kids[i])
  }

  /** No leaf above level 0 looks like a table pointer. */
  ghost predicate Readable(l: nat, t: Tree)
    requires Shaped(l, t)
  {
    match t
    case Leaf(v) => l > 0 ==> IsLeaf(v)
    case Table(kids) => forall i :: 0 <= i < ENTRY_COUNT ==> Readable(l - 1, kids[i])
  }

  lemma {:induction false} WFReadable(l: nat, t: Tree)
    requires l <= MAX_LEVELS && WF(l, t) && Shaped(l, t)
    ensures Readable(l, t)
  {
    if t.Table? {
      forall i | 0 <= i < ENTRY_COUNT
        ensures Readable(l - 1, t.kids[i])
      {
        WFReadable(l - 1, t.kids[i]);
      }
    }
  }

  lemma {:induction false} WFShaped(l: nat, t: Tree)
    requires l <= MAX_LEVELS && WF(l, t)
    ensures Shaped(l, t)
  {
    if t.Table? {
      forall i | 0 <= i < ENTRY_COUNT
        ensures Shaped(l - 1, t.kids[i])
      {
        WFShaped(l - 1, t.kids[i]);
      }
    }
  }

  // ---- meaning ----

  function LeafMeaning(v: nat, off: nat): Option<Xlat>
  {
    if IsValid(v) then Some(Xlat(Phys(v) + off, v % 256)) else None
  }

  /** Index of the entry that covers offset `off` of a table at level `l`. */
  function Digit(l: nat, off: nat): (d: nat)
    requires 0 < l <= MAX_LEVELS && off < Size(l)
    ensures d < ENTRY_COUNT
  {
    DigitBound(off, l);
    off / Size(l - 1)
  }

  /** Offset of `off` inside that entry. */
  function Rest(l: nat, off: nat): (r: nat)
    requires 0 < l <= MAX_LEVELS && off < Size(l)
    ensures r < Size(l - 1)
  {
    off % Size(l - 1)
  }

  /** The simple function that the tree implements. */
  function Look(l: nat, t: Tree, off: nat): Option<Xlat>
    requires l <= MAX_LEVELS && off < Size(l) && Shaped(l, t)
  {
    match t
    case Leaf(v) => LeafMeaning(v, off)
    case Table(kids) => Look(l - 1, kids[Digit(l, off)], Rest(l, off))
  }

  // ---- split ----

  /** Entry `j` of the table that replaces a leaf `v` at level `l` (`Entry::split`). */
  function SplitPte(v: nat, l: nat, j: nat): nat
    requires 0 < l <= MAX_LEVELS
  {
    v + j * (Size(l - 1) / 4)
  }

  function SplitLeaf(v: nat, l: nat): (t: Tree)
    requires 0 < l <= MAX_LEVELS
    ensures t.Table? && Shaped(l, t)
  {
    Table(seq(ENTRY_COUNT, j requires 0 <= j < ENTRY_COUNT => Leaf(SplitPte(v, l, j))))
  }

  lemma SplitEntry(v: nat, l: nat, j: nat)
    requires 0 < l <= MAX_LEVELS && j < ENTRY_COUNT
    ensures var w := SplitPte(v, l, j);
            Phys(w) == Phys(v) + j * Size(l - 1) && w % 256 == v % 256
            && (IsValid(w) <==> IsValid(v)) && (PermOk(w) <==> PermOk(v))
  {
    SizeInPages(l - 1);
    var k := Size(l - 1) / PAGE;
    var n := j * k;
    assert SplitPte(v, l, j) == v + n * 1024 by {
      assert j * (k * 1024) == n * 1024;
    }
    assert j * Size(l - 1) == n * 4096 by {
      assert j * (k * 4096) == n * 4096;
    }
    AddPages(v, n);
    hide Size, SplitPte, Phys, IsValid, IsRead, IsWrite, IsExecute;
  }

  /** Adding multiples of 1024 moves the address and leaves the flags alone. */
  lemma AddPages(v: nat, n: nat)
    ensures var w := v + n * 1024;
            Phys(w) == Phys(v) + n * 4096 && w % 256 == v % 256
            && (IsValid(w) <==> IsValid(v)) && (IsRead(w) <==> IsRead(v))
            && (IsWrite(w) <==> IsWrite(v)) && (IsExecute(w) <==> IsExecute(v))
  {
    var w := v + n * 1024;
    DivUnique(w, 1024, v / 1024 + n, v % 1024);
    LowBits(v);
    LowBits(w);
  }

  /** The flags only depend on the low ten bits. */
  lemma LowBits(v: nat)
    ensures v % 256 == (v % 1024) % 256
    ensures IsValid(v) <==> IsValid(v % 1024)
    ensures IsRead(v) <==> IsRead(v % 1024)
    ensures IsWrite(v) <==> IsWrite(v % 1024)
    ensures IsExecute(v) <==> IsExecute(v % 1024)
  {
    var q, r := v / 1024, v % 1024;
    DivUnique(v, 256, 4 * q + r / 256, r % 256);
    LowBit(q, r, 1, 512);
    LowBit(q, r, 2, 256);
    LowBit(q, r, 4, 128);
    LowBit(q, r, 8, 64);
  }

  lemma LowBit(q: nat, r: nat, c: nat, h: nat)
    requires c > 0 && c * (2 * h) == 1024
    ensures ((1024 * q + r) / c) % 2 == (r / c) % 2
  {
    var x := 1024 * q + r;
    assert x == (2 * h * q + r / c) * c + r % c by {
      Distribute(2 * h * q, r / c, c);
      assert 2 * h * q * c == (c * (2 * h)) * q;
    }
    DivUnique(x, c, 2 * h * q + r / c, r % c);
    ModAdd(r / c, 2 * h * q, 2) by {
      assert 2 * h * q == (h * q) * 2;
      ModOfMultiple(h * q, 2);
    }
  }

  /** A split table means what the leaf meant. */
  lemma SplitMeaning(v: nat, l: nat, off: nat)
    requires 0 < l <= MAX_LEVELS && off < Size(l)
    ensures Look(l, SplitLeaf(v, l), off) == LeafMeaning(v, off)
  {
    SplitEntry(v, l, Digit(l, off));
    DigitBound(off, l);
    var t := SplitLeaf(v, l);
    var d := Digit(l, off);
    assert t.kids[d] == Leaf(SplitPte(v, l, d));
    assert Shaped(l - 1, t.kids[d]);
  }
}
