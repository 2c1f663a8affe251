/** Property values of a device tree: `PropertyValue::guess` and the string-list encoding. */
module FdtValue {

  type byte = x: int | 0 <= x < 256

  type Bytes = seq<byte>

  /** Strings are kept as their bytes. */
  datatype Value =
    | Empty
    | PHandleRaw(handle: nat)
    | U32(word: nat)
    | U64(long: nat)
    | PropSpecific(data: Bytes)
    | Str(text: Bytes)
    | StrList(list: seq<Bytes>)

  /** Big-endian number. */
  function BigEndian(s: Bytes): nat
  {
    if s == [] then 0 else BigEndian(s[..|s| - 1]) * 256 + s[|s| - 1]
  }

  const INTERRUPT_PARENT: Bytes :=
    [0x69, 0x6e, 0x74, 0x65, 0x72, 0x72, 0x75, 0x70, 0x74, 0x2d, 0x70, 0x61, 0x72, 0x65, 0x6e, 0x74]

  // ---- the specification of guess ----

  /** What the scan over all bytes but the last concludes: a string, and a list of strings. */
  function Scan(s: Bytes, prevZero: bool, list: bool): (r: (bool, bool))
    ensures r.1 ==> r.0
  {
    if s == [] then (true, list)
    else if s[0] == 0 && !prevZero then Scan(s[1..], true, true)
    else if s[0] < 0x20 then (false, false)
    else Scan(s[1..], false, list)
  }

  /** The pieces before each NUL; `cur` is the piece being read. */
  function SplitNul(s: Bytes, cur: Bytes): seq<Bytes>
  {
    if s == [] then []
    else if s[0] == 0 then [cur] + SplitNul(s[1..], [])
    else SplitNul(s[1..], cur + [s[0]])
  }

  function Guess(value: Bytes, name: Bytes): Value
  {
    if value == [] then Empty
    else
      var scan := Scan(value[..|value| - 1], true, false);
      if scan.1 then StrList(SplitNul(value, []))
      else if scan.0 then Str(value[..|value| - 1])
      else if |value| == 8 then U64(BigEndian(value))
      else if |value| == 4 then
        if name == INTERRUPT_PARENT then PHandleRaw(BigEndian(value)) else U32(BigEndian(value))
      else PropSpecific(value)
  }

  // ---- the loops of guess ----

  method ScanLoop(s: Bytes) returns (str: bool, list: bool)
    ensures (str, list) == Scan(s, true, false)
  {
    str, list := true, false;
    var prevZero := true;
    for i := 0 to |s|
      invariant str
      invariant Scan(s, true, false) == Scan(s[i..], prevZero, list)
    {
      assert s[i..][1..] == s[i + 1..];
      if s[i] == 0 && !prevZero {
        list := true;
        prevZero := true;
      } else if s[i] < 0x20 {
        str, list := false, false;
        return;
      } else {
        prevZero := false;
      }
    }
  }

  method SplitLoop(value: Bytes) returns (list: seq<Bytes>)
    ensures list == SplitNul(value, [])
  {
    list := [];
    var last := 0;
    assert value[0..] == value && value[0..0] == [];
    for i := 0 to |value|
      invariant 0 <= last <= i
      invariant SplitNul(value, []) == list + SplitNul(value[i..], value[last..i])
    {
      assert value[i..][1..] == value[i + 1..];
      if value[i] == 0 {
        list := list + [value[last..i]];
        last := i + 1;
        assert value[last..i + 1] == [];
      } else {
        assert value[last..i + 1] == value[last..i] + [value[i]];
      }
    }
  }

  /** `PropertyValue::guess` with its two loops. */
  method GuessLoop(value: Bytes, name: Bytes) returns (v: Value)
    ensures v == Guess(value, name)
  {
    if value == [] {
      return Empty;
    }
    var str, list := ScanLoop(value[..|value| - 1]);
    if list {
      var pieces := SplitLoop(value);
      return StrList(pieces);
    } else if str {
      return Str(value[..|value| - 1]);
    }
    if |value| == 8 {
      return U64(BigEndian(value));
    }
    if |value| == 4 {
      if name == INTERRUPT_PARENT {
        return PHandleRaw(BigEndian(value));
      }
      return U32(BigEndian(value));
    }
    return PropSpecific(value);
  }

  // ---- text and numbers ----

  /** Printable bytes, and NULs that do not follow another NUL or stand at the start. */
  predicate TextLike(s: Bytes)
  {
    forall i :: 0 <= i < |s| ==> TextAt(s, i)
  }

  predicate TextAt(s: Bytes, i: nat)
    requires i < |s|
  {
    s[i] >= 0x20 || (s[i] == 0 && i > 0 && s[i - 1] != 0)
  }

  /** What the scan finds from the middle of a text on. */
  lemma {:induction false} ScanFrom(s: Bytes, i: nat, list: bool)
    requires i <= |s| && TextLike(s[..i]) && (list <==> 0 in s[..i])
    ensures Scan(s[i..], i == 0 || s[i - 1] == 0, list) == if TextLike(s) then (true, 0 in s) else (false, false)
    decreases |s| - i
  {
    if i == |s| {
      assert s[..i] == s && s[i..] == [];
    } else {
      assert s[i..][0] == s[i] && s[i..][1..] == s[i + 1..];
      assert s[..i + 1] == s[..i] + [s[i]];
      if TextAt(s, i) {
        TextStep(s, i);
        ScanFrom(s, i + 1, list || s[i] == 0);
      }
    }
  }

  lemma TextStep(s: Bytes, i: nat)
    requires i < |s| && TextLike(s[..i]) && TextAt(s, i)
    ensures TextLike(s[..i + 1])
  {
    var t, u := s[..i + 1], s[..i];
    assert TextLike(u);
    forall j | 0 <= j < |t|
      ensures TextAt(t, j)
    {
      if j < i {
        assert TextAt(u, j);
      }
    }
  }

  /** The scan says text exactly for text, and a list exactly for text with a NUL inside. */
  lemma ScanIff(s: Bytes)
    ensures Scan(s, true, false) == if TextLike(s) then (true, 0 in s) else (false, false)
  {
    assert s[..0] == [] && s[0..] == s;
    ScanFrom(s, 0, false);
  }

  /** A 32-bit value under its property name. */
  function WordValue(w: nat, name: Bytes): Value
  {
    if name == INTERRUPT_PARENT then PHandleRaw(w) else U32(w)
  }

  /** Which values `guess` takes for text, for numbers, and for neither: what counts is whether
      all bytes but the last look like text, whatever the length. */
  lemma GuessIff(value: Bytes, name: Bytes)
    requires value != []
    ensures var text, v := TextLike(value[..|value| - 1]), Guess(value, name);
            && (v.Str? || v.StrList? <==> text)
            && (v.StrList? <==> text && 0 in value[..|value| - 1])
            && (|value| == 8 ==> (v == U64(BigEndian(value)) <==> !text))
            && (|value| == 4 ==> (v == WordValue(BigEndian(value), name) <==> !text))
            && (|value| != 4 && |value| != 8 ==> (v == PropSpecific(value) <==> !text))
  {
    hide Scan, SplitNul, TextLike, BigEndian, Guess;
    ScanIff(value[..|value| - 1]);
    GuessKinds(value, name);
  }

  /** The three branches of `guess`. */
  lemma GuessKinds(value: Bytes, name: Bytes)
    requires value != []
    ensures var scan := Scan(value[..|value| - 1], true, false);
            && (scan.1 ==> Guess(value, name).StrList?)
            && (scan.0 && !scan.1 ==> Guess(value, name).Str?)
            && (!scan.0 ==>
                  Guess(value, name) == if |value| == 8 then U64(BigEndian(value))
                                        else if |value| == 4 then WordValue(BigEndian(value), name)
                                        else PropSpecific(value))
  {
    hide Scan, SplitNul, BigEndian;
  }

  // ---- string lists ----

  /** Strings one after another, each followed by a NUL. */
  function Encoded(list: seq<Bytes>): Bytes
  {
    if list == [] then [] else list[0] + [0] + Encoded(list[1..])
  }

  predicate Printable(s: Bytes)
  {
    s != [] && forall i :: 0 <= i < |s| ==> s[i] >= 0x20
  }

  /** Printable characters are skipped by the scan and collected by the split. */
  lemma {:induction false} ReadWord(w: Bytes, rest: Bytes, prevZero: bool, list: bool, cur: Bytes)
    requires forall i :: 0 <= i < |w| ==> w[i] >= 0x20
    ensures Scan(w + rest, prevZero, list) == Scan(rest, prevZero && w == [], list)
    ensures SplitNul(w + rest, cur) == SplitNul(rest, cur + w)
    decreases |w|
  {
    if w == [] {
      assert w + rest == rest && cur + w == cur;
    } else {
      assert (w + rest)[1..] == w[1..] + rest;
      assert cur + [w[0]] + w[1..] == cur + w;
      ReadWord(w[1..], rest, false, list, cur + [w[0]]);
    }
  }

  /** The pieces before the NULs of an encoded list are the list. */
  lemma {:induction false} SplitEncoded(list: seq<Bytes>)
    requires forall i :: 0 <= i < |list| ==> Printable(list[i])
    ensures SplitNul(Encoded(list), []) == list
    decreases |list|
  {
    if list != [] {
      var rest := [0] + Encoded(list[1..]);
      assert list[0] + [0] + Encoded(list[1..]) == list[0] + rest;
      ReadWord(list[0], rest, true, false, []);
      assert rest[1..] == Encoded(list[1..]) && [] + list[0] == list[0];
      SplitEncoded(list[1..]);
    }
  }

  /** Scanning an encoded list up to its last NUL finds a string list when a NUL comes first. */
  lemma {:induction false} ScanEncoded(list: seq<Bytes>, prevZero: bool, seen: bool)
    requires list != [] && forall i :: 0 <= i < |list| ==> Printable(list[i])
    ensures |Encoded(list)| > 0
    ensures Scan(Encoded(list)[..|Encoded(list)| - 1], prevZero, seen) == (true, seen || |list| > 1)
    decreases |list|
  {
    var e := Encoded(list);
    if |list| == 1 {
      assert Encoded(list[1..]) == [];
      assert e[..|e| - 1] == list[0] + [];
      ReadWord(list[0], [], prevZero, seen, []);
    } else {
      var tail := Encoded(list[1..]);
      ScanEncoded(list[1..], true, true);
      assert e[..|e| - 1] == list[0] + ([0] + tail[..|tail| - 1]);
      ReadWord(list[0], [0] + tail[..|tail| - 1], prevZero, seen, []);
      assert ([0] + tail[..|tail| - 1])[1..] == tail[..|tail| - 1];
    }
  }

  /** String-list round trip: two or more printable strings come back from their encoding. */
  lemma GuessDecodes(list: seq<Bytes>, name: Bytes)
    requires |list| > 1 && forall i :: 0 <= i < |list| ==> Printable(list[i])
    ensures Guess(Encoded(list), name) == StrList(list)
  {
    ScanEncoded(list, true, false);
    SplitEncoded(list);
  }

  /** The pieces before the NULs, written back, give the bytes up to the last NUL. */
  lemma {:induction false} EncodeSplit(s: Bytes, cur: Bytes)
    requires s != [] && s[|s| - 1] == 0
    ensures Encoded(SplitNul(s, cur)) == cur + s
    decreases |s|
  {
    Regroup(cur, s);
    if s[0] != 0 {
      EncodeSplit(s[1..], cur + [s[0]]);
    } else {
      var rest := SplitNul(s[1..], []);
      assert Encoded(rest) == s[1..] by {
        if |s| > 1 {
          EncodeSplit(s[1..], []);
        }
      }
      EncodedCons(cur, rest);
    }
  }

  lemma Regroup(cur: Bytes, s: Bytes)
    requires s != []
    ensures cur + [s[0]] + s[1..] == cur + s && [] + s[1..] == s[1..]
  {
  }

  lemma EncodedCons(w: Bytes, rest: seq<Bytes>)
    ensures Encoded([w] + rest) == w + [0] + Encoded(rest)
  {
    assert ([w] + rest)[1..] == rest;
  }

  /** Any string list guessed from NUL-terminated bytes encodes back to those bytes. */
  lemma GuessEncodes(value: Bytes, name: Bytes)
    requires value != [] && value[|value| - 1] == 0 && Guess(value, name).StrList?
    ensures Encoded(Guess(value, name).list) == value
  {
    EncodeSplit(value, []);
  }
}
