/** Device tree round trip: parsing the flattening of a tree gives the tree back. */
module FdtFlat {
  import opened Options
  import opened FdtValue
  import opened FdtTree

  /** What a node of the structure block contains, in order; NOPs may stand anywhere. */
  datatype Item = Skip | Property(nameOffset: nat, data: Bytes) | Child(node: Source)

  /** A node as the flattening tool sees it; `token` is the full `name@unit` string. */
  datatype Source = Source(token: Bytes, items: seq<Item>)

  function Be32(w: nat): (s: Bytes)
    requires w < 0x1_0000_0000
    ensures |s| == 4
  {
    [w / 0x100_0000, w / 0x1_0000 % 0x100, w / 0x100 % 0x100, w % 0x100]
  }

  lemma Be32Word(w: nat)
    requires w < 0x1_0000_0000
    ensures Word(Be32(w)) == w
  {
    var a, b := w / 0x100, w / 0x1_0000;
    assert b == a / 0x100 && w / 0x100_0000 == b / 0x100;
  }

  function Zeros(n: nat): (s: Bytes)
    ensures |s| == n && forall i :: 0 <= i < n ==> s[i] == 0
  {
    if n == 0 then [] else [0] + Zeros(n - 1)
  }

  /** Fits the format: no NUL in names, 32-bit lengths, property names present in the strings block. */
  ghost predicate Flattenable(strings: Bytes, src: Source)
  {
    0 !in src.token && ItemsOk(strings, src.items)
  }

  ghost predicate ItemsOk(strings: Bytes, items: seq<Item>)
  {
    items != [] ==> ItemOk(strings, items[0]) && ItemsOk(strings, items[1..])
  }

  ghost predicate ItemOk(strings: Bytes, item: Item)
  {
    match item
    case Skip => true
    case Property(off, data) => off < 0x1_0000_0000 && |data| < 0x1_0000_0000 && CString(strings, off).Some?
    case Child(node) => Flattenable(strings, node)
  }

  /** A node name, NUL-terminated and padded with zeros to a word boundary. */
  function PaddedName(token: Bytes): (s: Bytes)
    ensures |s| == Align(|token| + 1)
  {
    token + Zeros(Align(|token| + 1) - |token|)
  }

  /** Section 5.4 of the Devicetree Specification v0.3. */
  ghost function Flatten(strings: Bytes, src: Source): Bytes
    requires Flattenable(strings, src)
  {
    Be32(BEGIN_NODE) + PaddedName(src.token) + FlattenItems(strings, src.items) + Be32(END_NODE)
  }

  ghost function FlattenItems(strings: Bytes, items: seq<Item>): Bytes
    requires ItemsOk(strings, items)
  {
    if items == [] then [] else FlattenItem(strings, items[0]) + FlattenItems(strings, items[1..])
  }

  ghost function FlattenItem(strings: Bytes, item: Item): Bytes
    requires ItemOk(strings, item)
  {
    match item
    case Skip => Be32(NOP)
    case Property(off, data) =>
      Be32(PROP) + Be32(|data|) + Be32(off) + data + Zeros(Align(|data|) - |data|)
    case Child(node) => Flatten(strings, node)
  }

  // ---- the tree a source denotes ----

  ghost function Denote(strings: Bytes, src: Source): Node
    requires Flattenable(strings, src)
    decreases src
  {
    AddItems(strings, NewNode(src.token), src.items)
  }

  ghost function AddItems(strings: Bytes, n: Node, items: seq<Item>): Node
    requires ItemsOk(strings, items)
    decreases items
  {
    if items == [] then n else AddItems(strings, AddItem(strings, n, items[0]), items[1..])
  }

  ghost function AddItem(strings: Bytes, n: Node, item: Item): Node
    requires ItemOk(strings, item)
    decreases item
  {
    match item
    case Skip => n
    case Property(off, data) =>
      var name := CString(strings, off).value;
      SetProperty(n, name, Guess(data, name))
    case Child(node) => InsertChild(n, Denote(strings, node))
  }

  // ---- numbers ----

  lemma BigEndianOfBe32(w: nat)
    requires w < 0x1_0000_0000
    ensures BigEndian(Be32(w)) == w
  {
    var s := Be32(w);
    Be32Word(w);
    hide Be32;
    assert s[..3][..2] == s[..2] && s[..2][..1] == s[..1] && s[..1][..0] == [];
    assert BigEndian(s[..1]) == s[0] as int;
    assert BigEndian(s[..2]) == s[0] as int * 256 + s[1] as int;
    assert BigEndian(s[..3]) == (s[0] as int * 256 + s[1] as int) * 256 + s[2] as int;
    assert BigEndian(s) == Word(s);
  }

  /** The bytes of a 64-bit value. */
  function Be64(w: nat): (s: Bytes)
    requires w < 0x1_0000_0000_0000_0000
    ensures |s| == 8
  {
    Be32(w / 0x1_0000_0000) + Be32(w % 0x1_0000_0000)
  }

  lemma {:induction false} BigEndianAppend(s: Bytes, t: Bytes)
    requires |t| == 4
    ensures BigEndian(s + t) == BigEndian(s) * 0x1_0000_0000 + BigEndian(t)
  {
    var u := s + t;
    assert u[..|u| - 1] == s + t[..3] && u[|u| - 1] == t[3];
    assert (s + t[..3])[..|s| + 2] == s + t[..2] && (s + t[..2])[..|s| + 1] == s + t[..1] && (s + t[..1])[..|s|] == s;
    assert t[..3][..2] == t[..2] && t[..2][..1] == t[..1] && t[..1][..0] == [];
    assert BigEndian(t[..1]) == t[0] as int;
    assert BigEndian(t[..2]) == t[0] as int * 256 + t[1] as int;
    assert BigEndian(t[..3]) == (t[0] as int * 256 + t[1] as int) * 256 + t[2] as int;
    assert BigEndian(s + t[..1]) == BigEndian(s) * 256 + t[0] as int;
    assert BigEndian(s + t[..2]) == (BigEndian(s) * 256 + t[0] as int) * 256 + t[1] as int;
    assert BigEndian(s + t[..3]) == ((BigEndian(s) * 256 + t[0] as int) * 256 + t[1] as int) * 256 + t[2] as int;
  }

  /** A 32-bit property is read back as its number if and only if its first three bytes do not
      look like text; every value below 0x2000_0000 is. */
  lemma GuessNumberIff(w: nat, name: Bytes)
    requires w < 0x1_0000_0000
    ensures Guess(Be32(w), name) == WordValue(w, name) <==> !TextLike(Be32(w)[..3])
    ensures w < 0x2000_0000 ==> !TextLike(Be32(w)[..3])
  {
    assert w < 0x2000_0000 ==> !TextAt(Be32(w)[..3], 0);
    BigEndianOfBe32(w);
    GuessIff(Be32(w), name);
    hide Guess, Be32, BigEndian;
  }

  /** The same for 64-bit properties and their first seven bytes. */
  lemma GuessLongIff(w: nat, name: Bytes)
    requires w < 0x1_0000_0000_0000_0000
    ensures Guess(Be64(w), name) == U64(w) <==> !TextLike(Be64(w)[..7])
    ensures w < 0x2000_0000_0000_0000 ==> !TextLike(Be64(w)[..7])
  {
    var hi, lo := w / 0x1_0000_0000, w % 0x1_0000_0000;
    assert w < 0x2000_0000_0000_0000 ==> !TextAt(Be64(w)[..7], 0) by {
      assert Be64(w)[0] == Be32(hi)[0];
    }
    BigEndianOfBe32(hi);
    BigEndianOfBe32(lo);
    BigEndianAppend(Be32(hi), Be32(lo));
    assert BigEndian(Be64(w)) == w;
    GuessIff(Be64(w), name);
    hide Guess, Be32, Be64, BigEndian;
  }

  lemma GuessText(text: Bytes, last: byte, name: Bytes)
    requires TextLike(text) && 0 !in text
    ensures Guess(text + [last], name) == Str(text)
  {
    assert (text + [last])[..|text|] == text;
    ScanIff(text);
    hide Scan, SplitNul, BigEndian, TextLike;
  }

  function Letters(n: nat): (s: Bytes)
    ensures |s| == n && TextLike(s) && 0 !in s
  {
    seq(n, i => 0x41)
  }

  /** Both do fail: 0x41414141 is taken for a string of three letters, and its double for one of
      seven. */
  lemma NumberTakenForText(name: Bytes)
    ensures Guess(Be32(0x4141_4141), name) == Str(Letters(3))
    ensures Guess(Be64(0x4141_4141_4141_4141), name) == Str(Letters(7))
  {
    assert Be32(0x4141_4141) == Letters(3) + [0x41];
    assert Be64(0x4141_4141_4141_4141) == Letters(7) + [0x41];
    hide Be32, Be64, Letters, Guess;
    GuessText(Letters(3), 0x41, name);
    GuessText(Letters(7), 0x41, name);
  }

  // ---- reading back one token ----

  lemma WordPrefix(s: Bytes, t: Bytes)
    requires |s| >= 4
    ensures Word(s + t) == Word(s) && |s + t| >= 4
  {
  }

  /** A token, seen from what follows it. */
  lemma TokenWord(w: nat, t: Bytes)
    requires w < 0x1_0000_0000
    ensures |Be32(w) + t| >= 4 && Word(Be32(w) + t) == w && (Be32(w) + t)[4..] == t
  {
    Be32Word(w);
    hide Be32, Word;
    WordPrefix(Be32(w), t);
  }

  lemma FindIn(s: Bytes, t: Bytes, c: byte)
    requires c !in s && t != [] && t[0] == c
    ensures Find(s + t, c) == |s|
  {
    var k := Find(s + t, c);
    assert (s + t)[|s|] == c;
  }

  /** The word left over when the name skip is one word short. */
  lemma LeftoverWord(token: Bytes)
    requires 0 !in token && Align(|token| + 2) < 4 + |PaddedName(token)|
    ensures Align(|token| + 2) == |PaddedName(token)| >= 4
    ensures var w := Word(PaddedName(token)[|PaddedName(token)| - 4..]);
            w !in {BEGIN_NODE, END_NODE, PROP, NOP, END}
  {
    ShortSkip(|token|);
    hide Align;
    var s := PaddedName(token);
    var k := |s| - 4;
    var left := s[k..];
    assert left[0] == s[k];
    if k < |token| {
      assert s[k] == token[k] && token[k] in token;
    } else {
      assert forall i :: 0 <= i < 4 ==> left[i] == s[k + i] == 0;
    }
    WordBounds(left);
    hide Word;
  }

  /** The skip over a token and a name of `n` bytes is a word short unless `n` is 3 modulo 4. */
  lemma ShortSkip(n: nat)
    ensures n < Align(n + 1) <= n + 4
    ensures Align(n + 2) < 4 + Align(n + 1) <==> n % 4 != 3
    ensures Align(n + 2) == if n % 4 != 3 then Align(n + 1) else 4 + Align(n + 1)
    ensures Align(n + 1) >= 4
  {
    var q, m := n / 4, n % 4;
    assert n == 4 * q + m;
    assert Align(n + 1) == 4 * q + 4 && Align(n + 2) == if m == 3 then 4 * q + 8 else 4 * q + 4;
  }

  lemma WordBounds(s: Bytes)
    requires |s| == 4
    ensures s[0] != 0 ==> Word(s) >= 0x100_0000
    ensures s[0] == s[1] == s[2] == s[3] == 0 ==> Word(s) == 0
  {
  }

  /** Resynchronisation: a BEGIN_NODE token and its name are consumed completely, through the
      unknown-token branch when the skip is a word short. */
  lemma ReadBegin(token: Bytes, post: Bytes, strings: Bytes, stack: seq<Node>, cur: Option<Node>)
    requires 0 !in token
    ensures Parse(Be32(BEGIN_NODE) + PaddedName(token) + post, strings, stack, cur)
              == Parse(post, strings, Pushed(stack, cur), Some(NewNode(token)))
  {
    hide *;
    BeginFits();
    var s, rest := PaddedName(token), Be32(BEGIN_NODE) + PaddedName(token) + post;
    NameRead(token, post);
    Regrouped(Be32(BEGIN_NODE), s, post);
    TokenWord(BEGIN_NODE, s + post);
    ParseBegin(rest, strings, stack, cur);
    if Align(|token| + 2) != 4 + |s| {
      LeftoverWord(token);
      var left := s[|s| - 4..];
      LastWord(Be32(BEGIN_NODE), s, post);
      WordPrefix(left, post);
      ParseOther(left + post, strings, Pushed(stack, cur), Some(NewNode(token)));
    }
  }

  lemma BeginFits()
    ensures BEGIN_NODE < 0x1_0000_0000
    ensures {BEGIN_NODE, END_NODE, PROP} <= {BEGIN_NODE, END_NODE, PROP, NOP, END}
    ensures END in {BEGIN_NODE, END_NODE, PROP, NOP, END}
  {
  }

  lemma Regrouped(a: Bytes, s: Bytes, t: Bytes)
    requires |a| == 4
    ensures a + s + t == a + (s + t) && (a + s + t)[4 + |s|..] == t
  {
  }

  /** What is left when a word too little is skipped. */
  lemma LastWord(a: Bytes, s: Bytes, t: Bytes)
    requires |a| == 4 && |s| >= 4
    ensures (a + s + t)[|s|..] == s[|s| - 4..] + t && (s[|s| - 4..] + t)[4..] == t
  {
    var u := a + s + t;
    assert forall i :: |s| <= i < |u| ==> u[i] == (s[|s| - 4..] + t)[i - |s|];
  }

  lemma NameRead(token: Bytes, post: Bytes)
    requires 0 !in token
    ensures NameAt(Be32(BEGIN_NODE) + PaddedName(token) + post) == Some(token)
    ensures Align(|token| + 2) == 4 + |PaddedName(token)| || Align(|token| + 2) == |PaddedName(token)|
  {
    ShortSkip(|token|);
    hide Align, Be32, Zeros;
    var head, pad := Be32(BEGIN_NODE), Zeros(Align(|token| + 1) - |token|);
    var rest := head + PaddedName(token) + post;
    assert rest == head + (token + (pad + post)) by {
      assert PaddedName(token) == token + pad;
    }
    FindIn(token, pad + post, 0);
    assert rest[4..] == token + (pad + post);
    assert rest[4..4 + |token|] == rest[4..][..|token|] == token;
  }

  /** The three words, the data and the padding of a PROP token. */
  lemma PropertyWords(off: nat, data: Bytes, post: Bytes, strings: Bytes)
    requires ItemOk(strings, Property(off, data))
    ensures var rest := FlattenItem(strings, Property(off, data)) + post;
            && |rest| >= 12 + Align(|data|) && Word(rest) == PROP && Word(rest[4..]) == |data| && Word(rest[8..]) == off
            && rest[12..12 + |data|] == data && rest[12 + Align(|data|)..] == post
  {
    hide *;
    var pad := Zeros(Align(|data|) - |data|);
    PropertyParts(off, data, post, strings);
    var t3 := data + (pad + post);
    var t2 := Be32(off) + t3;
    var t1 := Be32(|data|) + t2;
    TokenWord(PROP, t1);
    TokenWord(|data|, t2);
    TokenWord(off, t3);
    Offsets(Be32(PROP), Be32(|data|), Be32(off), t3);
    DataAndRest(Be32(PROP) + t1, data, pad, post);
  }

  lemma PropertyParts(off: nat, data: Bytes, post: Bytes, strings: Bytes)
    requires ItemOk(strings, Property(off, data))
    ensures PROP < 0x1_0000_0000 && off < 0x1_0000_0000 && |data| < 0x1_0000_0000
    ensures var pad := Zeros(Align(|data|) - |data|);
            FlattenItem(strings, Property(off, data)) + post
                == Be32(PROP) + (Be32(|data|) + (Be32(off) + (data + (pad + post))))
  {
    hide Be32, Zeros, CString, Align;
  }

  lemma Offsets(a: Bytes, b: Bytes, c: Bytes, t: Bytes)
    requires |a| == |b| == |c| == 4
    ensures var s := a + (b + (c + t));
            |s| == 12 + |t| && s[4..] == b + (c + t) && s[8..] == c + t && s[12..] == t
  {
  }

  lemma DataAndRest(s: Bytes, data: Bytes, pad: Bytes, post: Bytes)
    requires |s| >= 12 && s[12..] == data + (pad + post) && |s| == 12 + |data| + |pad| + |post|
    ensures s[12..12 + |data|] == data && s[12 + (|data| + |pad|)..] == post
  {
    var t := s[12..];
    assert s[12..12 + |data|] == t[..|data|];
    assert s[12 + (|data| + |pad|)..] == t[|data| + |pad|..];
  }

  lemma ReadProperty(off: nat, data: Bytes, post: Bytes, strings: Bytes, stack: seq<Node>, n: Node)
    requires ItemOk(strings, Property(off, data))
    ensures Parse(FlattenItem(strings, Property(off, data)) + post, strings, stack, Some(n))
              == Parse(post, strings, stack, Some(AddItem(strings, n, Property(off, data))))
  {
    PropertyWords(off, data, post, strings);
    hide Parse, Guess, CString, FlattenItem, Word, Align, SetProperty;
    ParseProp(FlattenItem(strings, Property(off, data)) + post, strings, stack, Some(n));
  }

  /** Items of a node are consumed one after the other and end up in the current node. */
  lemma {:induction false} ReadItems(items: seq<Item>, post: Bytes, strings: Bytes, stack: seq<Node>, n: Node)
    requires ItemsOk(strings, items)
    ensures Parse(FlattenItems(strings, items) + post, strings, stack, Some(n))
              == Parse(post, strings, stack, Some(AddItems(strings, n, items)))
    decreases items, 1
  {
    if items == [] {
      assert FlattenItems(strings, items) + post == post;
    } else {
      var first, tail := FlattenItem(strings, items[0]), FlattenItems(strings, items[1..]);
      assert FlattenItems(strings, items) + post == first + (tail + post);
      ReadItem(items[0], tail + post, strings, stack, n);
      ReadItems(items[1..], post, strings, stack, AddItem(strings, n, items[0]));
    }
  }

  lemma {:induction false} ReadItem(item: Item, post: Bytes, strings: Bytes, stack: seq<Node>, n: Node)
    requires ItemOk(strings, item)
    ensures Parse(FlattenItem(strings, item) + post, strings, stack, Some(n))
              == Parse(post, strings, stack, Some(AddItem(strings, n, item)))
    decreases item, 0
  {
    match item
    case Skip =>
      TokenWord(NOP, post);
      ParseOther(Be32(NOP) + post, strings, stack, Some(n));
      assert (Be32(NOP) + post)[4..] == post;
    case Property(off, data) =>
      ReadProperty(off, data, post, strings, stack, n);
    case Child(node) =>
      var body := FlattenItems(strings, node.items);
      var close := Be32(END_NODE) + post;
      assert FlattenItem(strings, item) + post == Be32(BEGIN_NODE) + PaddedName(node.token) + (body + close);
      ReadBegin(node.token, body + close, strings, stack, Some(n));
      ReadItems(node.items, close, strings, stack + [n], NewNode(node.token));
      TokenWord(END_NODE, post);
      ParseEnd(close, strings, stack + [n], Some(Denote(strings, node)));
      assert close[4..] == post && (stack + [n])[..|stack|] == stack;
  }

  // ---- the whole blob ----

  function Nops(k: nat): (s: Bytes)
    ensures |s| == 4 * k
  {
    if k == 0 then [] else Be32(NOP) + Nops(k - 1)
  }

  lemma {:induction false} ReadNops(k: nat, post: Bytes, strings: Bytes, stack: seq<Node>, cur: Option<Node>)
    ensures Parse(Nops(k) + post, strings, stack, cur) == Parse(post, strings, stack, cur)
  {
    hide Be32, Word, Parse;
    if k == 0 {
      assert Nops(k) + post == post;
    } else {
      assert Nops(k) + post == Be32(NOP) + (Nops(k - 1) + post);
      TokenWord(NOP, Nops(k - 1) + post);
      ParseOther(Be32(NOP) + (Nops(k - 1) + post), strings, stack, cur);
      assert (Be32(NOP) + (Nops(k - 1) + post))[4..] == Nops(k - 1) + post;
      ReadNops(k - 1, post, strings, stack, cur);
    }
  }

  /** A structure block: NOPs, the root node, NOPs, END, and whatever follows. */
  ghost function Blob(strings: Bytes, src: Source, lead: nat, trail: nat, after: Bytes): Bytes
    requires Flattenable(strings, src)
  {
    Nops(lead) + (Flatten(strings, src) + (Nops(trail) + (Be32(END) + after)))
  }

  /** Device tree round trip: `build` on the flattening of any tree returns the tree. */
  lemma BuildFlatten(strings: Bytes, src: Source, lead: nat, trail: nat, after: Bytes)
    requires Flattenable(strings, src)
    ensures Parse(Blob(strings, src, lead, trail, after), strings, [], None) == Built(Denote(strings, src))
  {
    hide Parse, Be32, Nops, PaddedName, NewNode, AddItems, FlattenItems, Word;
    var fin := Be32(END) + after;
    var tail := Nops(trail) + fin;
    var body := FlattenItems(strings, src.items);
    var close := Be32(END_NODE) + tail;
    ReadNops(lead, Flatten(strings, src) + tail, strings, [], None);
    assert Flatten(strings, src) + tail == Be32(BEGIN_NODE) + PaddedName(src.token) + (body + close);
    ReadBegin(src.token, body + close, strings, [], None);
    ReadItems(src.items, close, strings, [], NewNode(src.token));
    TokenWord(END_NODE, tail);
    ParseEnd(close, strings, [], Some(Denote(strings, src)));
    assert close[4..] == tail;
    ReadNops(trail, fin, strings, [], Some(Denote(strings, src)));
    TokenWord(END, after);
    ParseOther(fin, strings, [], Some(Denote(strings, src)));
  }

  // ---- the format, byte by byte ----

  /** Numbers are stored with their highest byte first. */
  lemma HighestFirst(a: byte, b: byte, c: byte, d: byte)
    ensures Be32(a as int * 0x100_0000 + b as int * 0x1_0000 + c as int * 0x100 + d as int) == [a, b, c, d]
  {
    var w := a as int * 0x100_0000 + b as int * 0x1_0000 + c as int * 0x100 + d as int;
    assert w / 0x100 == a as int * 0x1_0000 + b as int * 0x100 + c as int;
    assert w / 0x1_0000 == a as int * 0x100 + b as int;
  }

  /** The tokens of section 5.4.1, and the one property name that `guess` knows. */
  lemma Tokens()
    ensures Be32(BEGIN_NODE) == [0, 0, 0, 1] && Be32(END_NODE) == [0, 0, 0, 2] && Be32(PROP) == [0, 0, 0, 3]
    ensures Be32(NOP) == [0, 0, 0, 4] && Be32(END) == [0, 0, 0, 9]
    ensures |INTERRUPT_PARENT| == |"interrupt-parent"|
    ensures forall i :: 0 <= i < |INTERRUPT_PARENT| ==> INTERRUPT_PARENT[i] as int == "interrupt-parent"[i] as int
  {
  }

  /** A property name is the string at its offset, up to the first NUL. */
  lemma NameAtOffset(before: Bytes, name: Bytes, after: Bytes)
    requires 0 !in name
    ensures CString(before + (name + ([0] + after)), |before|) == Some(name)
  {
    var s := before + (name + ([0] + after));
    assert s[|before|..] == name + ([0] + after);
    FindIn(name, [0] + after, 0);
    assert s[|before|..|before| + |name|] == name;
  }

  /** A root with the property `reg` = 42, a NOP and an empty child `u@10`. */
  function ExampleSource(): Source
  {
    Source([], [Property(0, [0, 0, 0, 0x2a]), Skip, Child(Source([0x75, 0x40, 0x31, 0x30], []))])
  }

  /** The child, and the items of the root. */
  lemma ExampleChild(strings: Bytes)
    requires Flattenable(strings, ExampleSource().items[2].node)
    ensures Flatten(strings, ExampleSource().items[2].node)
         == [0, 0, 0, 1, 0x75, 0x40, 0x31, 0x30, 0, 0, 0, 0, 0, 0, 0, 2]
  {
    Tokens();
    ExampleParts();
    hide Be32, PaddedName;
    assert FlattenItems(strings, ExampleSource().items[2].node.items) == [];
  }

  lemma ExampleItems(strings: Bytes)
    requires ItemsOk(strings, ExampleSource().items) && Flattenable(strings, ExampleSource().items[2].node)
    ensures FlattenItems(strings, ExampleSource().items)
         == [0, 0, 0, 3, 0, 0, 0, 4, 0, 0, 0, 0, 0, 0, 0, 0x2a] + [0, 0, 0, 4]
            + Flatten(strings, ExampleSource().items[2].node)
  {
    var items := ExampleSource().items;
    Tokens();
    ExampleParts();
    hide Be32, PaddedName, Zeros, Flatten;
    assert items[1..][0] == Skip && items[1..][1..] == [items[2]] && [items[2]][1..] == [];
    assert FlattenItem(strings, items[0]) == [0, 0, 0, 3, 0, 0, 0, 4, 0, 0, 0, 0, 0, 0, 0, 0x2a];
    assert FlattenItems(strings, [items[2]]) == Flatten(strings, items[2].node) + [];
    assert FlattenItems(strings, items[1..]) == [0, 0, 0, 4] + FlattenItems(strings, [items[2]]);
  }

  /** Its structure block. */
  lemma ExampleBytes(strings: Bytes)
    requires Flattenable(strings, ExampleSource()) && Flattenable(strings, ExampleSource().items[2].node)
    ensures Blob(strings, ExampleSource(), 0, 0, [])
         == [0, 0, 0, 1, 0, 0, 0, 0]
          + [0, 0, 0, 3, 0, 0, 0, 4, 0, 0, 0, 0, 0, 0, 0, 0x2a]
          + [0, 0, 0, 4]
          + [0, 0, 0, 1, 0x75, 0x40, 0x31, 0x30, 0, 0, 0, 0, 0, 0, 0, 2]
          + [0, 0, 0, 2]
          + [0, 0, 0, 9]
  {
    var src := ExampleSource();
    ExampleChild(strings);
    ExampleItems(strings);
    Tokens();
    ExampleParts();
    hide Be32, PaddedName, Nops, FlattenItems;
    var f := Flatten(strings, src);
    assert f == [0, 0, 0, 1] + [0, 0, 0, 0] + FlattenItems(strings, src.items) + [0, 0, 0, 2];
    assert Blob(strings, src, 0, 0, []) == [] + (f + ([] + ([0, 0, 0, 9] + [])));
    hide Flatten, Blob;
    var a, b := [0, 0, 0, 1], [0, 0, 0, 0];
    assert a + b == [0, 0, 0, 1, 0, 0, 0, 0];
  }

  lemma ExampleParts()
    ensures Be32(4) == [0, 0, 0, 4] && Be32(0) == [0, 0, 0, 0] && Align(4) == 4 && Zeros(0) == [] && Nops(0) == []
    ensures PaddedName([]) == [0, 0, 0, 0]
    ensures PaddedName([0x75, 0x40, 0x31, 0x30]) == [0x75, 0x40, 0x31, 0x30, 0, 0, 0, 0]
  {
    assert Align(1) == 4 && Align(5) == 8 && Align(4) == 4;
    assert Zeros(4) == [0, 0, 0, 0];
  }

  // ---- what the result contains ----

  /** The child stored under a name and a unit address. */
  function Lookup(n: Node, name: Bytes, unit: Option<nat>): Option<Node>
  {
    if name in n.children && unit in n.children[name] then Some(n.children[name][unit]) else None
  }

  /** The last child of `items` with this key. */
  function LastChild(items: seq<Item>, name: Bytes, unit: Option<nat>): Option<Source>
  {
    if items == [] then None
    else
      var later := LastChild(items[1..], name, unit);
      if later.Some? then later
      else if items[0].Child? && NameOf(items[0].node.token) == name && UnitOf(items[0].node.token) == unit
      then Some(items[0].node)
      else None
  }

  /** The data of the last property of `items` with this name. */
  function LastProperty(strings: Bytes, items: seq<Item>, name: Bytes): Option<Bytes>
  {
    if items == [] then None
    else
      var later := LastProperty(strings, items[1..], name);
      if later.Some? then later
      else if items[0].Property? && CString(strings, items[0].nameOffset) == Some(name) then Some(items[0].data)
      else None
  }

  lemma LookupInsert(p: Node, c: Node, name: Bytes, unit: Option<nat>)
    ensures Lookup(InsertChild(p, c), name, unit)
              == if name == c.name && unit == c.unit then Some(c) else Lookup(p, name, unit)
  {
  }

  /** Items never change the key of the node they are added to. */
  lemma {:induction false} AddItemsKey(strings: Bytes, n: Node, items: seq<Item>)
    requires ItemsOk(strings, items)
    ensures AddItems(strings, n, items).name == n.name && AddItems(strings, n, items).unit == n.unit
    decreases items
  {
    if items != [] {
      hide InsertChild, Guess, CString;
      assert AddItem(strings, n, items[0]).name == n.name && AddItem(strings, n, items[0]).unit == n.unit by {
        ItemKey(strings, n, items[0]);
      }
      AddItemsKey(strings, AddItem(strings, n, items[0]), items[1..]);
    }
  }

  lemma ItemKey(strings: Bytes, n: Node, item: Item)
    requires ItemOk(strings, item)
    ensures AddItem(strings, n, item).name == n.name && AddItem(strings, n, item).unit == n.unit
  {
    hide Denote;
  }

  lemma {:induction false} AddItemsContent(strings: Bytes, n: Node, items: seq<Item>, name: Bytes, unit: Option<nat>)
    requires ItemsOk(strings, items)
    ensures LastChild(items, name, unit).Some? ==> Flattenable(strings, LastChild(items, name, unit).value)
    ensures Lookup(AddItems(strings, n, items), name, unit)
              == match LastChild(items, name, unit)
                 case Some(c) => Some(Denote(strings, c))
                 case None => Lookup(n, name, unit)
    decreases items
  {
    if items != [] {
      var m := AddItem(strings, n, items[0]);
      AddItemsContent(strings, m, items[1..], name, unit);
      hide Guess, InsertChild, NewNode, Lookup;
      if items[0].Child? {
        var c := Denote(strings, items[0].node);
        AddItemsKey(strings, NewNode(items[0].node.token), items[0].node.items);
        NewNodeKey(items[0].node.token);
        LookupInsert(n, c, name, unit);
      } else {
        SameChildren(strings, n, items[0], name, unit);
      }
    }
  }

  lemma NewNodeKey(token: Bytes)
    ensures NewNode(token).name == NameOf(token) && NewNode(token).unit == UnitOf(token)
    ensures NewNode(token).children == map[] && NewNode(token).properties == map[]
  {
  }

  lemma SameChildren(strings: Bytes, n: Node, item: Item, name: Bytes, unit: Option<nat>)
    requires ItemOk(strings, item) && !item.Child?
    ensures Lookup(AddItem(strings, n, item), name, unit) == Lookup(n, name, unit)
  {
    hide Guess;
  }

  lemma {:induction false} AddItemsProperties(strings: Bytes, n: Node, items: seq<Item>, name: Bytes)
    requires ItemsOk(strings, items)
    ensures var m := AddItems(strings, n, items);
            match LastProperty(strings, items, name)
            case Some(data) => name in m.properties && m.properties[name] == Guess(data, name)
            case None => (name in m.properties <==> name in n.properties)
                         && (name in n.properties ==> m.properties[name] == n.properties[name])
    decreases items
  {
    if items != [] {
      hide Guess, Denote, CString;
      AddItemsProperties(strings, AddItem(strings, n, items[0]), items[1..], name);
    }
  }

  /** The node `build` returns, described without the order of construction: its own key, one
      child per key (the last sibling with that key), one value per property name. */
  lemma DenoteContent(strings: Bytes, src: Source, name: Bytes, unit: Option<nat>)
    requires Flattenable(strings, src)
    ensures Denote(strings, src).name == NameOf(src.token) && Denote(strings, src).unit == UnitOf(src.token)
    ensures LastChild(src.items, name, unit).Some? ==> Flattenable(strings, LastChild(src.items, name, unit).value)
    ensures Lookup(Denote(strings, src), name, unit)
              == match LastChild(src.items, name, unit)
                 case Some(c) => Some(Denote(strings, c))
                 case None => None
    ensures match LastProperty(strings, src.items, name)
            case Some(data) => name in Denote(strings, src).properties
                               && Denote(strings, src).properties[name] == Guess(data, name)
            case None => name !in Denote(strings, src).properties
  {
    hide Guess, Denote, CString, NewNode, AddItem;
    NewNodeKey(src.token);
    AddItemsKey(strings, NewNode(src.token), src.items);
    AddItemsContent(strings, NewNode(src.token), src.items, name, unit);
    AddItemsProperties(strings, NewNode(src.token), src.items, name);
    DenoteIs(strings, src);
  }

  lemma DenoteIs(strings: Bytes, src: Source)
    requires Flattenable(strings, src)
    ensures Denote(strings, src) == AddItems(strings, NewNode(src.token), src.items)
  {
  }

  /** Siblings with distinct keys. */
  predicate DistinctChildren(items: seq<Item>)
  {
    forall i, j :: 0 <= i < j < |items| && items[i].Child? && items[j].Child? ==>
      || NameOf(items[i].node.token) != NameOf(items[j].node.token)
      || UnitOf(items[i].node.token) != UnitOf(items[j].node.token)
  }

  /** With distinct sibling keys every child is found under its own key. */
  lemma {:induction false} EveryChildKept(items: seq<Item>, i: nat)
    requires DistinctChildren(items) && i < |items| && items[i].Child?
    ensures LastChild(items, NameOf(items[i].node.token), UnitOf(items[i].node.token)) == Some(items[i].node)
    decreases |items|
  {
    hide NameOf, UnitOf;
    var name, unit := NameOf(items[i].node.token), UnitOf(items[i].node.token);
    if i > 0 {
      EveryChildKept(items[1..], i - 1);
    } else {
      NoLaterChild(items[1..], name, unit);
    }
  }

  lemma {:induction false} NoLaterChild(items: seq<Item>, name: Bytes, unit: Option<nat>)
    requires forall j :: 0 <= j < |items| && items[j].Child? ==>
               NameOf(items[j].node.token) != name || UnitOf(items[j].node.token) != unit
    ensures LastChild(items, name, unit) == None
    decreases |items|
  {
    hide NameOf, UnitOf;
    if items != [] {
      NoLaterChild(items[1..], name, unit);
    }
  }
}
