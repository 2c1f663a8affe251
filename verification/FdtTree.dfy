/** The flattened device tree: nodes, and the parser `build` as a stack machine over the
    structure block. */
module FdtTree {
  import opened Options
  import opened Arith
  import opened FdtValue

  const AT: byte := 0x40
  const BEGIN_NODE: nat := 1
  const END_NODE: nat := 2
  const PROP: nat := 3
  const NOP: nat := 4
  const END: nat := 9

  datatype Node = Node(
    name: Bytes,
    unit: Option<nat>,
    children: map<Bytes, map<Option<nat>, Node>>,
    properties: map<Bytes, Value>)

  datatype BuildResult =
    | Built(root: Node)
    | Panicked            // `current_node.unwrap()` on nothing
    | Overrun             // the token pointer left the blob

  // ---- node names ----

  /** First position of `c`, or the length. */
  function Find(s: Bytes, c: byte): (k: nat)
    ensures k <= |s| && (k < |s| ==> s[k] == c) && forall i :: 0 <= i < k ==> s[i] != c
  {
    if s == [] then 0 else if s[0] == c then 0 else 1 + Find(s[1..], c)
  }

  function HexDigit(c: byte): Option<nat>
  {
    if 0x30 <= c <= 0x39 then Some(c - 0x30)
    else if 0x41 <= c <= 0x46 then Some(c - 0x41 + 10)
    else if 0x61 <= c <= 0x66 then Some(c - 0x61 + 10)
    else None
  }

  function HexDigits(s: Bytes, acc: nat): (r: Option<nat>)
    ensures r.Some? && acc < WORD ==> r.value < WORD
  {
    if s == [] then Some(acc)
    else
      match HexDigit(s[0])
      case None => None
      case Some(d) => if acc * 16 + d < WORD then HexDigits(s[1..], acc * 16 + d) else None
  }

  /** `usize::from_str_radix(s, 16)`. */
  function FromHex(s: Bytes): (r: Option<nat>)
    ensures r.Some? ==> r.value < WORD
  {
    if s == [] then None
    else if s[0] == 0x2b then (if |s| == 1 then None else HexDigits(s[1..], 0))
    else HexDigits(s, 0)
  }

  function OrZero(r: Option<nat>): nat { if r.Some? then r.value else 0 }

  function NameOf(token: Bytes): Bytes { token[..Find(token, AT)] }

  function UnitOf(token: Bytes): Option<nat>
  {
    var k := Find(token, AT);
    if k == |token| then None else Some(OrZero(FromHex(token[k + 1..])))
  }

  /** `Node::new`. */
  function NewNode(token: Bytes): Node
  {
    Node(NameOf(token), UnitOf(token), map[], map[])
  }

  /** `Node::insert_child`. */
  function InsertChild(parent: Node, child: Node): Node
  {
    var siblings := if child.name in parent.children then parent.children[child.name] else map[];
    parent.(children := parent.children[child.name := siblings[child.unit := child]])
  }

  function SetProperty(n: Node, name: Bytes, v: Value): Node
  {
    n.(properties := n.properties[name := v])
  }

  // ---- reading the blob ----

  function Align(n: nat): (a: nat)
    ensures n <= a < n + 4 && a % 4 == 0
  {
    (n + 3) / 4 * 4
  }

  /** The big-endian word at the start of `s`. */
  function Word(s: Bytes): (w: nat)
    requires |s| >= 4
  {
    s[0] as int * 0x100_0000 + s[1] as int * 0x1_0000 + s[2] as int * 0x100 + s[3] as int
  }

  /** The C string at offset `off`. */
  function CString(s: Bytes, off: nat): Option<Bytes>
  {
    if off > |s| then None
    else
      var k := Find(s[off..], 0);
      if k == |s| - off then None else Some(s[off..off + k])
  }

  /** `build` from the token at the start of `rest`, with the nodes under construction. */
  function Parse(rest: Bytes, strings: Bytes, stack: seq<Node>, cur: Option<Node>): BuildResult
    decreases |rest|
  {
    if |rest| < 4 then Overrun
    else if Word(rest) == BEGIN_NODE then
      var name := CString(rest, 4);
      if name == None || Align(|name.value| + 2) > |rest| then Overrun
      else
        Parse(rest[Align(|name.value| + 2)..], strings,
              if cur.Some? then stack + [cur.value] else stack, Some(NewNode(name.value)))
    else if Word(rest) == END_NODE then
      if cur.Some? && stack != [] then
        var n := |stack| - 1;
        Parse(rest[4..], strings, stack[..n], Some(InsertChild(stack[n], cur.value)))
      else
        Parse(rest[4..], strings, stack, cur)
    else if Word(rest) == PROP then
      if |rest| < 12 then Overrun
      else
        var len := Word(rest[4..]);
        var name := CString(strings, Word(rest[8..]));
        if name == None || 12 + Align(len) > |rest| then Overrun
        else
          var v := Guess(rest[12..12 + len], name.value);
          Parse(rest[12 + Align(len)..], strings, stack,
                if cur.Some? then Some(SetProperty(cur.value, name.value, v)) else None)
    else if Word(rest) == END then
      if cur.Some? then Built(cur.value) else Panicked
    else
      Parse(rest[4..], strings, stack, cur)
  }

  // ---- one token at a time ----

  /** Where the parser lands after a BEGIN_NODE token, if the name fits. */
  function NameAt(rest: Bytes): Option<Bytes>
  {
    var name := CString(rest, 4);
    if name == None || Align(|name.value| + 2) > |rest| then None else name
  }

  function Pushed(stack: seq<Node>, cur: Option<Node>): seq<Node>
  {
    if cur.Some? then stack + [cur.value] else stack
  }

  lemma ParseBegin(rest: Bytes, strings: Bytes, stack: seq<Node>, cur: Option<Node>)
    requires |rest| >= 4 && Word(rest) == BEGIN_NODE
    ensures NameAt(rest) == None ==> Parse(rest, strings, stack, cur) == Overrun
    ensures NameAt(rest).Some? ==>
              && Align(|NameAt(rest).value| + 2) <= |rest|
              && Parse(rest, strings, stack, cur)
                 == Parse(rest[Align(|NameAt(rest).value| + 2)..], strings, Pushed(stack, cur),
                     Some(NewNode(NameAt(rest).value)))
  {
    hide Word, Align, NewNode, CString;
  }

  lemma ParseEnd(rest: Bytes, strings: Bytes, stack: seq<Node>, cur: Option<Node>)
    requires |rest| >= 4 && Word(rest) == END_NODE
    ensures cur.Some? && stack != [] ==>
              Parse(rest, strings, stack, cur)
                == Parse(rest[4..], strings, stack[..|stack| - 1], Some(InsertChild(stack[|stack| - 1], cur.value)))
    ensures !(cur.Some? && stack != []) ==> Parse(rest, strings, stack, cur) == Parse(rest[4..], strings, stack, cur)
  {
    hide Word, InsertChild;
  }

  lemma ParseProp(rest: Bytes, strings: Bytes, stack: seq<Node>, cur: Option<Node>)
    requires |rest| >= 12 && Word(rest) == PROP
    ensures var len := Word(rest[4..]);
            var name := CString(strings, Word(rest[8..]));
            if name == None || 12 + Align(len) > |rest| then Parse(rest, strings, stack, cur) == Overrun
            else
              Parse(rest, strings, stack, cur)
                == Parse(rest[12 + Align(len)..], strings, stack,
                         if cur.Some? then
                           Some(SetProperty(cur.value, name.value, Guess(rest[12..12 + len], name.value)))
                         else None)
  {
    hide Word, Align, Guess, CString;
  }

  lemma ParseOther(rest: Bytes, strings: Bytes, stack: seq<Node>, cur: Option<Node>)
    requires |rest| >= 4 && Word(rest) !in {BEGIN_NODE, END_NODE, PROP}
    ensures Word(rest) == END ==> Parse(rest, strings, stack, cur) == if cur.Some? then Built(cur.value) else Panicked
    ensures Word(rest) != END ==> Parse(rest, strings, stack, cur) == Parse(rest[4..], strings, stack, cur)
  {
    hide Word;
  }

  lemma ParseShort(rest: Bytes, strings: Bytes, stack: seq<Node>, cur: Option<Node>)
    requires |rest| < 4 || (|rest| < 12 && Word(rest) == PROP)
    ensures Parse(rest, strings, stack, cur) == Overrun
  {
    hide Word;
  }

  /** One iteration of the loop of `build`: either the parser stops with `result`, or it goes on
      behind the token with the new stack and current node. */
  method OneToken(rest: Bytes, strings: Bytes, stack: seq<Node>, cur: Option<Node>)
    returns (stop: bool, result: BuildResult, skip: nat, stack': seq<Node>, cur': Option<Node>)
    ensures stop ==> Parse(rest, strings, stack, cur) == result
    ensures !stop ==> 0 < skip <= |rest|
    ensures !stop ==> Parse(rest, strings, stack, cur) == Parse(rest[skip..], strings, stack', cur')
  {
    hide *;
    stop, result, skip, stack', cur' := false, Overrun, 4, stack, cur;
    if |rest| < 4 {
      ParseShort(rest, strings, stack, cur);
      stop := true;
      return;
    }
    var word := Word(rest);
    if word == BEGIN_NODE {
      ParseBegin(rest, strings, stack, cur);
      var name := NameAt(rest);
      if name == None {
        stop := true;
        return;
      }
      skip := Align(|name.value| + 2);
      stack' := Pushed(stack, cur);
      cur' := Some(NewNode(name.value));
    } else if word == END_NODE {
      ParseEnd(rest, strings, stack, cur);
      if cur.Some? && stack != [] {
        cur' := Some(InsertChild(stack[|stack| - 1], cur.value));
        stack' := stack[..|stack| - 1];
      }
    } else if word == PROP {
      if |rest| < 12 {
        ParseShort(rest, strings, stack, cur);
        stop := true;
        return;
      }
      ParseProp(rest, strings, stack, cur);
      var len := Word(rest[4..]);
      var name := CString(strings, Word(rest[8..]));
      if name == None || 12 + Align(len) > |rest| {
        stop := true;
        return;
      }
      if cur.Some? {
        var v := GuessLoop(rest[12..12 + len], name.value);
        cur' := Some(SetProperty(cur.value, name.value, v));
      }
      skip := 12 + Align(len);
    } else {
      ParseOther(rest, strings, stack, cur);
      if word == END {
        stop, result := true, if cur.Some? then Built(cur.value) else Panicked;
      }
    }
  }

  /** `build`: a loop over the token pointer, the node stack and the current node. */
  method Build(blob: Bytes, strings: Bytes) returns (r: BuildResult)
    ensures r == Parse(blob, strings, [], None)
  {
    hide *;
    var token := 0;
    var stack: seq<Node> := [];
    var current: Option<Node> := None;
    assert blob[0..] == blob;
    while true
      invariant 0 <= token <= |blob|
      invariant Parse(blob[token..], strings, stack, current) == Parse(blob, strings, [], None)
      decreases |blob| - token
    {
      var stop, skip;
      stop, r, skip, stack, current := OneToken(blob[token..], strings, stack, current);
      if stop {
        return;
      }
      Drop(blob, token, skip);
      token := token + skip;
    }
  }

  lemma Drop(blob: Bytes, token: nat, k: nat)
    requires token + k <= |blob|
    ensures blob[token..][k..] == blob[token + k..]
  {
  }
}
