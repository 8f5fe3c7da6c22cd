/** Text as the strings of the program's platforms measure and compare it: in UTF-16 code units. */
module Utf16 {
  import opened Common

  function UnitsOf(c: char): seq<nat> {
    var n := c as nat;
    if n < 0x1_0000 then [n] else [0xD800 + (n - 0x1_0000) / 0x400, 0xDC00 + (n - 0x1_0000) % 0x400]
  }

  function Encode(text: string): seq<nat> {
    if text == "" then [] else UnitsOf(text[0]) + Encode(text[1..])
  }

  /** The length of a string. */
  function Units(text: string): nat {
    |Encode(text)|
  }

  /** Comparing sequences of units, as `<=` compares strings. */
  predicate UnitsAtMost(a: seq<nat>, b: seq<nat>) {
    a == [] || (b != [] && if a[0] == b[0] then UnitsAtMost(a[1..], b[1..]) else a[0] < b[0])
  }

  predicate TextAtMost(a: string, b: string) {
    UnitsAtMost(Encode(a), Encode(b))
  }

  predicate IsHighSurrogate(u: nat) { 0xD800 <= u < 0xDC00 }

  predicate IsLowSurrogate(u: nat) { 0xDC00 <= u < 0xE000 }

  /** Reading units back; what is no text is read as U+FFFD. */
  function Decode(units: seq<nat>): string {
    if units == [] then ""
    else if |units| >= 2 && IsHighSurrogate(units[0]) && IsLowSurrogate(units[1]) then
      [(0x1_0000 + (units[0] - 0xD800) * 0x400 + (units[1] - 0xDC00)) as char] + Decode(units[2..])
    else
      var u := units[0];
      [if u < 0xD800 || 0xE000 <= u < 0x1_0000 then u as char else '\U{FFFD}'] + Decode(units[1..])
  }

  /** Every text is sixteen-bit units from which it can be read back. */
  lemma {:induction false} EncodingRoundTrips(text: string)
    ensures Decode(Encode(text)) == text
    ensures forall i :: 0 <= i < |Encode(text)| ==> Encode(text)[i] < 0x1_0000
  {
    if text != "" {
      EncodingRoundTrips(text[1..]);
      OneCharacter(text[0], Encode(text[1..]));
      assert text == [text[0]] + text[1..];
    }
  }

  lemma OneCharacter(c: char, rest: seq<nat>)
    ensures Decode(UnitsOf(c) + rest) == [c] + Decode(rest)
    ensures forall i :: 0 <= i < |UnitsOf(c)| ==> UnitsOf(c)[i] < 0x1_0000
  {
    var units := UnitsOf(c) + rest;
    assert units[|UnitsOf(c)|..] == rest;
    var n := c as nat;
    if n >= 0x1_0000 {
      assert 0x1_0000 + (units[0] - 0xD800) * 0x400 + (units[1] - 0xDC00) == n;
    }
  }

  lemma {:induction false} EncodeOfConcat(a: string, b: string)
    ensures Encode(a + b) == Encode(a) + Encode(b)
  {
    if a == "" {
      assert a + b == b;
    } else {
      EncodeOfConcat(a[1..], b);
      assert (a + b)[0] == a[0] && (a + b)[1..] == a[1..] + b;
      ConcatAssoc(UnitsOf(a[0]), Encode(a[1..]), Encode(b));
    }
  }

  /** A string's length is its characters, those beyond the first plane counted twice. */
  lemma {:induction false} UnitsAreCounted(text: string)
    ensures Units(text) == |text| + |Beyond(text)|
  {
    if text != "" {
      UnitsAreCounted(text[1..]);
    }
  }

  /** The characters beyond the first plane. */
  function Beyond(text: string): string {
    if text == "" then "" else (if text[0] as nat >= 0x1_0000 then [text[0]] else []) + Beyond(text[1..])
  }

  /** The two sequences differ first at `i`, where the one of `a` is less. */
  predicate LessAt(a: seq<nat>, b: seq<nat>, i: int) {
    0 <= i < |a| && i < |b| && a[..i] == b[..i] && a[i] < b[i]
  }

  /** The order is lexicographic: a prefix comes first, otherwise the first difference decides. */
  lemma {:induction false} OrderIsLexicographic(a: seq<nat>, b: seq<nat>)
    ensures UnitsAtMost(a, b) <==> a <= b || exists i :: LessAt(a, b, i)
  {
    if a != [] && b != [] {
      OrderIsLexicographic(a[1..], b[1..]);
      if a[0] == b[0] {
        SamePrefix(a, b);
      } else if a[0] < b[0] {
        assert LessAt(a, b, 0);
      } else {
        assert forall i :: LessAt(a, b, i) ==> i == 0 || a[..i][0] == b[..i][0];
      }
    }
  }

  lemma {:induction false} SamePrefix(a: seq<nat>, b: seq<nat>)
    requires a != [] && b != [] && a[0] == b[0]
    ensures a <= b <==> a[1..] <= b[1..]
    ensures (exists i :: LessAt(a, b, i)) <==> exists i :: LessAt(a[1..], b[1..], i)
  {
    assert a == [a[0]] + a[1..] && b == [b[0]] + b[1..];
    if i :| LessAt(a[1..], b[1..], i) {
      assert a[..i + 1] == [a[0]] + a[1..][..i] && b[..i + 1] == [b[0]] + b[1..][..i];
      assert LessAt(a, b, i + 1);
    }
    if i :| LessAt(a, b, i) {
      assert a[1..][..i - 1] == a[..i][1..] && b[1..][..i - 1] == b[..i][1..];
      assert LessAt(a[1..], b[1..], i - 1);
    }
  }
}
