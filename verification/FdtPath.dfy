/** Looking nodes up by path, and printing the path components. */
module FdtPath {
  import opened Options
  import opened Arith
  import opened FdtValue
  import opened FdtTree
  import opened FdtFlat

  const SLASH: byte := 0x2f

  // ---- Node::get ----

  /** Key order of the inner map: no unit address first, then by address. */
  predicate KeyLess(a: Option<nat>, b: Option<nat>)
  {
    b.Some? && (a.None? || a.value <= b.value)
  }

  /** The first value in key order. */
  ghost predicate IsFirst(m: map<Option<nat>, Node>, k: Option<nat>)
  {
    k in m && forall j :: j in m && j != k ==> KeyLess(k, j)
  }

  ghost function FirstValue(m: map<Option<nat>, Node>): Option<Node>
  {
    if k :| IsFirst(m, k) then Some(m[k]) else None
  }

  /** A non-empty set of keys has a first one. */
  lemma {:induction false} FirstKey(keys: set<Option<nat>>) returns (k: Option<nat>)
    requires keys != {}
    ensures k in keys && forall j :: j in keys && j != k ==> KeyLess(k, j)
    decreases keys
  {
    k :| k in keys;
    if keys != {k} {
      var rest := keys - {k};
      assert rest == {} ==> keys == {k};
      var x := k;
      var first := FirstKey(rest);
      assert KeyLess(x, first) || KeyLess(first, x);
      k := if KeyLess(x, first) then x else first;
      forall j | j in keys && j != k
        ensures KeyLess(k, j)
      {
        assert j == x || j in rest;
      }
    }
  }

  /** The first key is unique, and a non-empty inner map has one. */
  lemma FirstOfMap(m: map<Option<nat>, Node>) returns (k: Option<nat>)
    requires m.Keys != {}
    ensures IsFirst(m, k) && FirstValue(m) == Some(m[k])
  {
    k := FirstKey(m.Keys);
    assert IsFirst(m, k);
    assert forall j :: IsFirst(m, j) ==> j == k;
  }

  /** The child that one path component selects. */
  ghost function Select(n: Node, component: Bytes): Option<Node>
  {
    var k := Find(component, AT);
    if k == |component| then
      Lookup(n, component, None)
    else
      var name, address := component[..k], component[k + 1..];
      if address == [] then
        if name in n.children then FirstValue(n.children[name]) else None
      else
        Lookup(n, name, Some(OrZero(FromHex(address))))
  }

  /** `Node::get`. */
  ghost function Get(n: Node, path: Bytes): Option<Node>
    decreases |path|
  {
    var k := Find(path, SLASH);
    var child := Select(n, path[..k]);
    if child.None? then None
    else if k == |path| then child
    else Get(child.value, path[k + 1..])
  }

  lemma FirstInNumbers(m: map<Option<nat>, Node>, k: Option<nat>)
    requires IsFirst(m, k)
    ensures k in m && (None in m ==> k == None)
    ensures None !in m ==> k.Some? && forall a :: Some(a) in m ==> k.value <= a
  {
    forall a | Some(a) in m && None !in m
      ensures k.Some? && k.value <= a
    {
      assert Some(a) == k || KeyLess(k, Some(a));
    }
  }

  /** A component that ends in `@` leads to the child with the smallest unit address, a child
      without one first, whenever there is a child of that name. */
  lemma AnyUnitFindsChild(n: Node, name: Bytes) returns (k: Option<nat>)
    requires AT !in name && SLASH !in name && name in n.children && n.children[name].Keys != {}
    ensures var m := n.children[name];
            && k in m && Get(n, name + [AT]) == Some(m[k])
            && (None in m ==> k == None)
            && (None !in m ==> k.Some? && forall a :: Some(a) in m ==> k.value <= a)
  {
    k := FirstOfMap(n.children[name]);
    FirstInNumbers(n.children[name], k);
    var c := name + [AT];
    assert c == name + [AT] + [];
    hide IsFirst, FirstValue, Find, Get;
    FindAfter(name, [], AT);
    assert c[..|name|] == name && c[|name| + 1..] == [];
    assert Select(n, c) == Some(n.children[name][k]);
    hide Select;
    GetLast(n, c);
  }

  // ---- printing ----

  function HexChar(d: nat): byte
    requires d < 16
  {
    if d < 10 then 0x30 + d else 0x61 + d - 10
  }

  /** `{:x}`. */
  function Hex(a: nat): (s: Bytes)
    ensures s != []
  {
    if a < 16 then [HexChar(a)] else Hex(a / 16) + [HexChar(a % 16)]
  }

  /** A component as `children_names_address` prints it. */
  function Component(n: Node): Bytes
  {
    if n.unit.Some? then n.name + [AT] + Hex(n.unit.value) else n.name
  }

  /** The components of a chain of nodes, joined with slashes. */
  function PathOf(chain: seq<Node>): Bytes
    requires chain != []
  {
    if |chain| == 1 then Component(chain[0]) else Component(chain[0]) + [SLASH] + PathOf(chain[1..])
  }

  // ---- hexadecimal round trip ----

  lemma {:induction false} HexShape(a: nat)
    ensures AT !in Hex(a) && SLASH !in Hex(a) && Hex(a)[0] != 0x2b
    decreases a
  {
    if a >= 16 {
      HexShape(a / 16);
    }
  }

  /** Reading one more digit at the end. */
  lemma {:induction false} HexSnoc(s: Bytes, d: nat, acc: nat, v: nat)
    requires d < 16 && HexDigits(s, acc) == Some(v) && v * 16 + d < WORD
    ensures HexDigits(s + [HexChar(d)], acc) == Some(v * 16 + d)
    decreases |s|
  {
    if s == [] {
      assert (s + [HexChar(d)])[1..] == [];
    } else {
      assert (s + [HexChar(d)])[1..] == s[1..] + [HexChar(d)];
      HexSnoc(s[1..], d, acc * 16 + HexDigit(s[0]).value, v);
    }
  }

  lemma {:induction false} HexRead(a: nat)
    requires a < WORD
    ensures HexDigits(Hex(a), 0) == Some(a)
    decreases a
  {
    if a < 16 {
      assert Hex(a)[1..] == [];
    } else {
      HexRead(a / 16);
      HexSnoc(Hex(a / 16), a % 16, 0, a / 16);
    }
  }

  lemma HexRoundTrip(a: nat)
    requires a < WORD
    ensures FromHex(Hex(a)) == Some(a)
  {
    HexShape(a);
    HexRead(a);
  }

  /** The digits are the usual ones, printed in lower case and read in either. */
  lemma DigitCharacters(d: nat)
    requires d < 16
    ensures HexChar(d) as int == "0123456789abcdef"[d] as int
    ensures HexDigit("0123456789abcdef"[d] as int) == Some(d) == HexDigit("0123456789ABCDEF"[d] as int)
  {
  }

  /** The number that hexadecimal digits spell, without a bound. */
  function Spelled(s: Bytes): Option<nat>
  {
    if s == [] then Some(0)
    else
      match (Spelled(s[..|s| - 1]), HexDigit(s[|s| - 1]))
      case (Some(v), Some(d)) => Some(v * 16 + d)
      case _ => None
  }

  lemma {:induction false} HexDigitsLast(s: Bytes, c: byte, acc: nat)
    ensures HexDigits(s + [c], acc) == match (HexDigits(s, acc), HexDigit(c))
                                       case (Some(v), Some(d)) => if v * 16 + d < WORD then Some(v * 16 + d) else None
                                       case _ => None
    decreases |s|
  {
    if s == [] {
      assert (s + [c])[1..] == [];
    } else {
      assert (s + [c])[1..] == s[1..] + [c] && (s + [c])[0] == s[0];
      match HexDigit(s[0])
      case None =>
      case Some(d) =>
        if acc * 16 + d < WORD {
          HexDigitsLast(s[1..], c, acc * 16 + d);
        }
    }
  }

  /** A unit address is read exactly if all its characters are digits and its value fits a word. */
  lemma {:induction false} HexDigitsIff(s: Bytes)
    ensures HexDigits(s, 0) == if Spelled(s).Some? && Spelled(s).value < WORD then Spelled(s) else None
    decreases |s|
  {
    if s != [] {
      var n := |s| - 1;
      assert s == s[..n] + [s[n]];
      HexDigitsIff(s[..n]);
      HexDigitsLast(s[..n], s[n], 0);
    }
  }

  // ---- keys ----

  /** A node name with a unit address printed in hexadecimal has that name and that address, and one
      without `@` has no address. */
  lemma TokenKey(name: Bytes, a: nat)
    requires AT !in name && a < WORD
    ensures NewNode(name + [AT] + Hex(a)).name == name && NewNode(name + [AT] + Hex(a)).unit == Some(a)
    ensures NewNode(name).name == name && NewNode(name).unit == None
  {
    HexRoundTrip(a);
    FindAfter(name, Hex(a), AT);
    FindNone(name, AT);
    assert name[..|name|] == name;
    hide Hex, FromHex, Find;
  }

  /** Any other address reads as its value if it spells a word, and as 0 otherwise. */
  lemma TokenUnit(name: Bytes, address: Bytes)
    requires AT !in name && (address != [] ==> address[0] != 0x2b)
    ensures var n, v := NewNode(name + [AT] + address), Spelled(address);
            n.name == name && n.unit == Some(if v.Some? && v.value < WORD then v.value else 0)
  {
    FindAfter(name, address, AT);
    HexDigitsIff(address);
    hide Find, HexDigits;
  }

  /** A child whose token is `name@address` is found in the built tree under that name and that
      address: every child, if the keys of siblings are distinct. */
  lemma ChildFound(strings: Bytes, src: Source, i: nat, name: Bytes, a: nat)
    requires Flattenable(strings, src) && DistinctChildren(src.items) && i < |src.items| && src.items[i].Child?
    requires AT !in name && a < WORD && src.items[i].node.token == name + [AT] + Hex(a)
    ensures Flattenable(strings, src.items[i].node)
    ensures Parse(Blob(strings, src, 0, 0, []), strings, [], None).Built?
    ensures var root := Parse(Blob(strings, src, 0, 0, []), strings, [], None).root;
            Lookup(root, name, Some(a)) == Some(Denote(strings, src.items[i].node))
  {
    hide *;
    TokenKey(name, a);
    NewNodeKey(src.items[i].node.token);
    ChildAt(strings, src, i, name, Some(a));
  }

  /** The same for a child without a unit address. */
  lemma PlainChildFound(strings: Bytes, src: Source, i: nat, name: Bytes)
    requires Flattenable(strings, src) && DistinctChildren(src.items) && i < |src.items| && src.items[i].Child?
    requires AT !in name && src.items[i].node.token == name
    ensures Flattenable(strings, src.items[i].node)
    ensures Parse(Blob(strings, src, 0, 0, []), strings, [], None).Built?
    ensures var root := Parse(Blob(strings, src, 0, 0, []), strings, [], None).root;
            Lookup(root, name, None) == Some(Denote(strings, src.items[i].node))
  {
    hide *;
    FitsWord();
    TokenKey(name, 0);
    NewNodeKey(src.items[i].node.token);
    ChildAt(strings, src, i, name, None);
  }

  lemma FitsWord()
    ensures 0 < WORD
  {
  }

  lemma ChildAt(strings: Bytes, src: Source, i: nat, name: Bytes, unit: Option<nat>)
    requires Flattenable(strings, src) && DistinctChildren(src.items) && i < |src.items| && src.items[i].Child?
    requires NameOf(src.items[i].node.token) == name && UnitOf(src.items[i].node.token) == unit
    ensures Flattenable(strings, src.items[i].node)
    ensures Parse(Blob(strings, src, 0, 0, []), strings, [], None) == Built(Denote(strings, src))
    ensures Lookup(Denote(strings, src), name, unit) == Some(Denote(strings, src.items[i].node))
  {
    hide *;
    BuildFlatten(strings, src, 0, 0, []);
    EveryChildKept(src.items, i);
    DenoteContent(strings, src, name, unit);
  }

  // ---- path round trip ----

  /** `c` hangs under `p` at its own key. */
  predicate IsChild(p: Node, c: Node)
  {
    Lookup(p, c.name, c.unit) == Some(c)
  }

  /** A key that can be written as a path component. */
  predicate PathSafe(n: Node)
  {
    AT !in n.name && SLASH !in n.name && (n.unit.Some? ==> n.unit.value < WORD)
  }

  ghost predicate Chain(root: Node, chain: seq<Node>)
    decreases |chain|
  {
    chain != [] ==> IsChild(root, chain[0]) && PathSafe(chain[0]) && Chain(chain[0], chain[1..])
  }

  lemma FindAfter(s: Bytes, t: Bytes, c: byte)
    requires c !in s
    ensures Find(s + [c] + t, c) == |s| && (s + [c] + t)[..|s|] == s && (s + [c] + t)[|s| + 1..] == t
  {
    assert s + [c] + t == s + ([c] + t);
    FindIn(s, [c] + t, c);
  }

  lemma FindNone(s: Bytes, c: byte)
    requires c !in s
    ensures Find(s, c) == |s|
  {
  }

  /** A printed component selects the child with its key, and none if there is no such child. */
  lemma ComponentSelects(p: Node, c: Node)
    requires PathSafe(c)
    ensures Select(p, Component(c)) == Lookup(p, c.name, c.unit) && SLASH !in Component(c)
  {
    hide Hex, Lookup, FromHex, Find;
    if c.unit.Some? {
      HexShape(c.unit.value);
      HexRoundTrip(c.unit.value);
      FindAfter(c.name, Hex(c.unit.value), AT);
    } else {
      FindNone(c.name, AT);
    }
  }

  /** Looking the keys of the nodes in `chain` up one after the other, from `root` down. */
  function Descend(root: Node, chain: seq<Node>): Option<Node>
    decreases |chain|
  {
    if chain == [] then Some(root)
    else
      var child := Lookup(root, chain[0].name, chain[0].unit);
      if child.None? then None else Descend(child.value, chain[1..])
  }

  /** `get` of any printed path is that: the node with these keys if there is one, otherwise nothing. */
  lemma {:induction false} GetIsDescend(root: Node, chain: seq<Node>)
    requires chain != [] && forall i :: 0 <= i < |chain| ==> PathSafe(chain[i])
    ensures Get(root, PathOf(chain)) == Descend(root, chain)
    decreases |chain|
  {
    hide PathSafe, Get, PathOf, Select, Component, Lookup;
    PathParts(chain);
    ComponentSelects(root, chain[0]);
    if |chain| == 1 {
      GetLast(root, Component(chain[0]));
    } else {
      GetStep(root, Component(chain[0]), PathOf(chain[1..]));
      if Select(root, Component(chain[0])).Some? {
        GetIsDescend(Select(root, Component(chain[0])).value, chain[1..]);
      }
    }
  }

  /** Path round trip: joining the printed components of any chain of descendants and looking
      the path up from the root returns the last node of the chain. */
  lemma GetPath(root: Node, chain: seq<Node>)
    requires chain != [] && Chain(root, chain)
    ensures Get(root, PathOf(chain)) == Some(chain[|chain| - 1])
  {
    hide *;
    ChainDescends(root, chain);
    GetIsDescend(root, chain);
  }

  lemma {:induction false} ChainDescends(root: Node, chain: seq<Node>)
    requires chain != [] && Chain(root, chain)
    ensures Descend(root, chain) == Some(chain[|chain| - 1])
    ensures forall i :: 0 <= i < |chain| ==> PathSafe(chain[i])
    decreases |chain|
  {
    hide PathSafe, Lookup;
    if |chain| > 1 {
      ChainDescends(chain[0], chain[1..]);
      assert forall i :: 1 <= i < |chain| ==> chain[i] == chain[1..][i - 1];
    } else {
      assert Descend(chain[0], chain[1..]) == Some(chain[0]);
    }
  }

  lemma PathParts(chain: seq<Node>)
    requires chain != []
    ensures |chain| == 1 ==> PathOf(chain) == Component(chain[0])
    ensures |chain| > 1 ==> PathOf(chain) == Component(chain[0]) + [SLASH] + PathOf(chain[1..])
  {
    hide Component;
  }

  lemma GetLast(n: Node, c: Bytes)
    requires SLASH !in c
    ensures Get(n, c) == Select(n, c)
  {
    hide Select, Find;
    FindNone(c, SLASH);
    assert c[..|c|] == c;
  }

  lemma GetStep(n: Node, c: Bytes, rest: Bytes)
    requires SLASH !in c
    ensures Get(n, c + [SLASH] + rest) == if Select(n, c).Some? then Get(Select(n, c).value, rest) else None
  {
    hide Select, Find;
    FindAfter(c, rest, SLASH);
  }

  // ---- trees built from any blob ----

  /** Down to depth `k`: names have no `@`, unit addresses fit a word, and every child hangs under
      its own key; no name is present without a child. */
  ghost predicate Keyed(k: nat, n: Node)
  {
    && AT !in n.name && (n.unit.Some? ==> n.unit.value < WORD)
    && (forall name :: name in n.children ==> n.children[name].Keys != {})
    && forall name, unit {:trigger Lookup(n, name, unit)} :: Lookup(n, name, unit).Some? ==>
         var c := Lookup(n, name, unit).value;
         c.name == name && c.unit == unit && (k > 0 ==> Keyed(k - 1, c))
  }

  lemma {:induction false} KeyedLess(k: nat, n: Node)
    requires k > 0 && Keyed(k, n)
    ensures Keyed(k - 1, n)
  {
    hide Lookup;
    if k > 1 {
      forall name, unit {:trigger Lookup(n, name, unit)} | Lookup(n, name, unit).Some?
        ensures Keyed(k - 2, Lookup(n, name, unit).value)
      {
        KeyedLess(k - 1, Lookup(n, name, unit).value);
      }
    }
  }

  lemma NewKeyed(k: nat, token: Bytes)
    ensures Keyed(k, NewNode(token))
  {
    KeyShape(token);
  }

  lemma InsertKeyed(k: nat, p: Node, c: Node)
    requires Keyed(k, p) && Keyed(k, c)
    ensures Keyed(k, InsertChild(p, c))
  {
    var q := InsertChild(p, c);
    if k > 0 {
      KeyedLess(k, c);
    }
    forall name | name in q.children
      ensures q.children[name].Keys != {}
    {
      assert name == c.name ==> c.unit in q.children[name];
    }
    forall name, unit {:trigger Lookup(q, name, unit)} | Lookup(q, name, unit).Some?
      ensures var d := Lookup(q, name, unit).value; d.name == name && d.unit == unit && (k > 0 ==> Keyed(k - 1, d))
    {
      LookupInsert(p, c, name, unit);
    }
  }

  lemma PropertyKeyed(k: nat, n: Node, name: Bytes, v: Value)
    requires Keyed(k, n)
    ensures Keyed(k, SetProperty(n, name, v))
  {
    var m := SetProperty(n, name, v);
    assert forall a, u {:trigger Lookup(m, a, u)} :: Lookup(m, a, u) == Lookup(n, a, u);
  }

  ghost predicate StackKeyed(k: nat, stack: seq<Node>, cur: Option<Node>)
  {
    (cur.Some? ==> Keyed(k, cur.value)) && forall i :: 0 <= i < |stack| ==> Keyed(k, stack[i])
  }

  /** Whatever bytes the parser reads, the nodes under construction stay keyed. */
  lemma {:induction false} ParseKeyed(k: nat, rest: Bytes, strings: Bytes, stack: seq<Node>, cur: Option<Node>)
    requires StackKeyed(k, stack, cur)
    ensures Parse(rest, strings, stack, cur).Built? ==> Keyed(k, Parse(rest, strings, stack, cur).root)
    decreases |rest|
  {
    hide Parse, Word, Keyed, NewNode, InsertChild, SetProperty, CString, NameAt, Align, Guess;
    if |rest| < 4 || (|rest| < 12 && Word(rest) == PROP) {
      ParseShort(rest, strings, stack, cur);
    } else if Word(rest) == BEGIN_NODE {
      ParseBegin(rest, strings, stack, cur);
      if NameAt(rest).Some? {
        var name := NameAt(rest).value;
        NewKeyed(k, name);
        ParseKeyed(k, rest[Align(|name| + 2)..], strings, Pushed(stack, cur), Some(NewNode(name)));
      }
    } else if Word(rest) == END_NODE {
      ParseEnd(rest, strings, stack, cur);
      if cur.Some? && stack != [] {
        var n := |stack| - 1;
        InsertKeyed(k, stack[n], cur.value);
        ParseKeyed(k, rest[4..], strings, stack[..n], Some(InsertChild(stack[n], cur.value)));
      } else {
        ParseKeyed(k, rest[4..], strings, stack, cur);
      }
    } else if Word(rest) == PROP {
      ParsePropKeyed(k, rest, strings, stack, cur);
    } else {
      ParseOther(rest, strings, stack, cur);
      if Word(rest) != END {
        ParseKeyed(k, rest[4..], strings, stack, cur);
      }
    }
  }

  lemma {:induction false} ParsePropKeyed(k: nat, rest: Bytes, strings: Bytes, stack: seq<Node>, cur: Option<Node>)
    requires StackKeyed(k, stack, cur) && |rest| >= 12 && Word(rest) == PROP
    ensures Parse(rest, strings, stack, cur).Built? ==> Keyed(k, Parse(rest, strings, stack, cur).root)
    decreases |rest|, 0
  {
    hide Parse, Word, Keyed, SetProperty, CString, Align, Guess;
    ParseProp(rest, strings, stack, cur);
    var len := Word(rest[4..]);
    var name := CString(strings, Word(rest[8..]));
    if name.Some? && 12 + Align(len) <= |rest| {
      var tail := rest[12 + Align(len)..];
      if cur.Some? {
        var v := Guess(rest[12..12 + len], name.value);
        PropertyKeyed(k, cur.value, name.value, v);
        ParseKeyed(k, tail, strings, stack, Some(SetProperty(cur.value, name.value, v)));
      } else {
        ParseKeyed(k, tail, strings, stack, None);
      }
    }
  }

  /** Every tree that `build` returns, from any blob, is keyed to any depth. */
  lemma BuiltKeys(blob: Bytes, strings: Bytes, k: nat)
    requires Parse(blob, strings, [], None).Built?
    ensures Keyed(k, Parse(blob, strings, [], None).root)
  {
    hide Parse, Keyed;
    ParseKeyed(k, blob, strings, [], None);
  }

  /** Each node of the sequence hangs under the one before it, and no name has a slash. */
  ghost predicate Descends(root: Node, chain: seq<Node>)
    decreases |chain|
  {
    chain != [] ==> IsChild(root, chain[0]) && SLASH !in chain[0].name && Descends(chain[0], chain[1..])
  }

  lemma {:induction false} KeyedChain(root: Node, chain: seq<Node>)
    requires Keyed(|chain|, root) && Descends(root, chain)
    ensures Chain(root, chain)
    decreases |chain|
  {
    hide Lookup;
    if chain != [] {
      var c := chain[0];
      assert Lookup(root, c.name, c.unit) == Some(c);
      KeyedHere(|chain| - 1, c);
      KeyedChain(c, chain[1..]);
    }
  }

  lemma KeyedHere(k: nat, n: Node)
    requires Keyed(k, n)
    ensures AT !in n.name && (n.unit.Some? ==> n.unit.value < WORD)
  {
    hide Lookup;
  }

  /** Path round trip: in every tree that `build` returns, for every descendant whose names
      have no slash, the path printed from the root's child downward leads back to that node. */
  lemma BuiltPath(blob: Bytes, strings: Bytes, chain: seq<Node>)
    requires Parse(blob, strings, [], None).Built? && chain != []
    requires Descends(Parse(blob, strings, [], None).root, chain)
    ensures Get(Parse(blob, strings, [], None).root, PathOf(chain)) == Some(chain[|chain| - 1])
  {
    hide *;
    var root := Parse(blob, strings, [], None).root;
    BuiltKeys(blob, strings, |chain|);
    KeyedChain(root, chain);
    GetPath(root, chain);
  }

  /** In particular in the tree that a flattened source denotes. */
  lemma DenotedPath(strings: Bytes, src: Source, chain: seq<Node>)
    requires Flattenable(strings, src) && chain != [] && Descends(Denote(strings, src), chain)
    ensures Get(Denote(strings, src), PathOf(chain)) == Some(chain[|chain| - 1])
  {
    hide *;
    BuildFlatten(strings, src, 0, 0, []);
    BuiltPath(Blob(strings, src, 0, 0, []), strings, chain);
  }

  lemma KeyShape(token: Bytes)
    ensures AT !in NameOf(token) && (UnitOf(token).Some? ==> UnitOf(token).value < WORD)
  {
  }
}
