/**
 * Escaping an attribute value for a quoted selector, and the two readers such a selector meets: the
 * selector engine of jQuery, and the string scanner of CSS Syntax Module Level 3.
 */
module Selectors {
  import opened Common

  const BACKSLASH := '\\'
  const QUOTE := '\''

  /** The characters of the escaper's class: ASCII punctuation other than `-` and `_`. */
  predicate IsSpecial(c: char) {
    || ('!' <= c <= '/' && c != '-') || ':' <= c <= '@'
    || ('[' <= c <= '`' && c != '_') || '{' <= c <= '~'
  }

  function EscapeChar(c: char): string {
    if IsSpecial(c) then [BACKSLASH, c] else [c]
  }

  /** Put a backslash before every special character. */
  function Escape(value: string): string {
    if value == "" then "" else EscapeChar(value[0]) + Escape(value[1..])
  }

  /** The characters that the escaping expression lists. */
  const SPECIALS: set<char> := {
    '!', '"', '#', '$', '%', '&', '\'', '(', ')', '*', '+', ',', '.', '/', ':', ';', '<', '=', '>', '?', '@',
    '[', '\\', ']', '^', '`', '{', '|', '}', '~'}

  /** Exactly the listed characters get a backslash. */
  lemma EscapedIff(c: char)
    ensures Escape([c]) == if c in SPECIALS then ['\\', c] else [c]
  {
    assert [c][1..] == "";
    assert IsSpecial(c) <==> c in SPECIALS;
  }

  lemma {:induction false} EscapeDistributes(a: string, b: string)
    ensures Escape(a + b) == Escape(a) + Escape(b)
  {
    if a == "" {
      assert a + b == b;
    } else {
      EscapeDistributes(a[1..], b);
      assert (a + b)[0] == a[0] && (a + b)[1..] == a[1..] + b;
      ConcatAssoc(EscapeChar(a[0]), Escape(a[1..]), Escape(b));
    }
  }

  function CountSpecial(value: string): nat {
    if value == "" then 0 else (if IsSpecial(value[0]) then 1 else 0) + CountSpecial(value[1..])
  }

  lemma {:induction false} EscapeLength(value: string)
    ensures |Escape(value)| == |value| + CountSpecial(value) <= 2 * |value|
  {
    if value != "" {
      EscapeLength(value[1..]);
    }
  }

  lemma AfterFirst(first: string, rest: string, tail: string)
    ensures (first + rest) + [QUOTE] + tail == first + (rest + [QUOTE] + tail)
  {
  }

  // ------------------------------------------------------------------------------------------
  // Numeric escapes, common to both readers

  predicate IsHex(c: char) {
    '0' <= c <= '9' || 'a' <= c <= 'f' || 'A' <= c <= 'F'
  }

  function HexDigit(c: char): (d: nat)
    requires IsHex(c)
    ensures d < 16
  {
    if c <= '9' then (c - '0') as nat else if c >= 'a' then (c - 'a') as nat + 10 else (c - 'A') as nat + 10
  }

  /** The number of hex digits at the front, up to `limit`. */
  function HexRun(s: string, limit: nat): (n: nat)
    ensures n <= |s| && n <= limit
    ensures forall i :: 0 <= i < n ==> IsHex(s[i])
    decreases limit
  {
    if limit == 0 || s == "" || !IsHex(s[0]) then 0
    else
      var n := HexRun(s[1..], limit - 1);
      assert forall i :: 0 < i < n + 1 ==> s[i] == s[1..][i - 1];
      n + 1
  }

  function HexValue(digits: string): nat
    requires forall i :: 0 <= i < |digits| ==> IsHex(digits[i])
  {
    if digits == "" then 0 else HexValue(Front(digits)) * 16 + HexDigit(Last(digits))
  }

  predicate IsCssSpace(c: char) {
    c == ' ' || c == '\t' || c == '\r' || c == '\n' || c == '\U{C}'
  }

  /** The text after a numeric escape of `n` digits: one space belongs to the escape. */
  function AfterHex(s: string, n: nat): (rest: string)
    requires n <= |s|
    ensures |rest| <= |s| - n
  {
    if n < |s| && IsCssSpace(s[n]) then s[n + 1..] else s[n..]
  }

  /** The character a numeric escape stands for; zero, surrogates and values out of range give U+FFFD. */
  function CodePoint(n: nat): char {
    if n == 0 || 0xD800 <= n < 0xE000 || n >= 0x11_0000 then '\U{FFFD}' else n as char
  }

  /** The selector engine converts zero to NUL; what it makes of surrogates is no character here. */
  function EngineCodePoint(n: nat): char {
    if n == 0 then '\0' else CodePoint(n)
  }

  // ------------------------------------------------------------------------------------------
  // CSS Syntax Module Level 3

  /** Section 3.3: carriage returns and form feeds become newlines, NUL becomes U+FFFD. */
  function Preprocess(s: string): string {
    if s == "" then ""
    else if s[0] == '\r' && |s| > 1 && s[1] == '\n' then "\n" + Preprocess(s[2..])
    else if s[0] == '\r' || s[0] == '\U{C}' then "\n" + Preprocess(s[1..])
    else (if s[0] == '\0' then "\U{FFFD}" else [s[0]]) + Preprocess(s[1..])
  }

  datatype Token = StringToken(value: string, rest: string) | BadString(rest: string)

  function Prepend(c: char, t: Token): Token {
    match t
    case StringToken(value, rest) => StringToken([c] + value, rest)
    case BadString(_) => t
  }

  /** Sections 4.3.5 and 4.3.7: the string after its opening quote. */
  function ScanString(s: string): Token
    decreases |s|
  {
    if s == "" then StringToken("", "")
    else if s[0] == QUOTE then StringToken("", s[1..])
    else if s[0] == '\n' then BadString(s)
    else if s[0] != BACKSLASH then Prepend(s[0], ScanString(s[1..]))
    else if |s| == 1 then ScanString(s[1..])
    else if s[1] == '\n' then ScanString(s[2..])
    else if IsHex(s[1]) then
      var n := HexRun(s[1..], 6);
      Prepend(CodePoint(HexValue(s[1..][..n])), ScanString(AfterHex(s[1..], n)))
    else Prepend(s[1], ScanString(s[2..]))
  }

  /** Characters the CSS preprocessor or string scanner would not leave alone. */
  predicate IsCssUnsafe(c: char) {
    c == '\n' || c == '\r' || c == '\U{C}' || c == '\0'
  }

  lemma {:induction false} PreprocessPlain(c: char, after: string)
    requires !IsCssUnsafe(c)
    ensures Preprocess([c] + after) == [c] + Preprocess(after)
  {
    assert ([c] + after)[1..] == after;
  }

  /** What one escaped character looks like to the CSS scanner. */
  lemma {:induction false} ScanEscapedChar(c: char, after: string)
    ensures !IsCssUnsafe(c) ==>
      ScanString(Preprocess(EscapeChar(c) + after)) == Prepend(c, ScanString(Preprocess(after)))
    ensures c == '\0' ==>
      ScanString(Preprocess(EscapeChar(c) + after)) == Prepend('\U{FFFD}', ScanString(Preprocess(after)))
    ensures IsCssUnsafe(c) && c != '\0' ==> ScanString(Preprocess(EscapeChar(c) + after)).BadString?
  {
    var text := EscapeChar(c) + after;
    if IsSpecial(c) {
      assert text == [BACKSLASH] + ([c] + after);
      PreprocessPlain(BACKSLASH, [c] + after);
      PreprocessPlain(c, after);
      assert ([BACKSLASH] + ([c] + Preprocess(after)))[2..] == Preprocess(after);
    } else {
      assert text == [c] + after && text[1..] == after;
      if !IsCssUnsafe(c) || c == '\0' {
        assert Preprocess(text)[1..] == Preprocess(after);
      }
    }
  }

  predicate IsLineBreak(c: char) {
    c == '\n' || c == '\r' || c == '\U{C}'
  }

  predicate HasLineBreak(value: string) {
    value != "" && (IsLineBreak(value[0]) || HasLineBreak(value[1..]))
  }

  /** The value with U+FFFD for every NUL. */
  function NulReplaced(value: string): string {
    if value == "" then "" else [if value[0] == '\0' then '\U{FFFD}' else value[0]] + NulReplaced(value[1..])
  }

  /**
   * What CSS makes of an escaped value followed by the closing quote: no string at all if it has a newline,
   * carriage return or form feed, and otherwise the value with every NUL replaced.
   */
  lemma {:induction false} CssReading(value: string, tail: string)
    ensures var token := ScanString(Preprocess(Escape(value) + [QUOTE] + tail));
      if HasLineBreak(value) then token.BadString? else token == StringToken(NulReplaced(value), Preprocess(tail))
  {
    if value == "" {
      assert Escape(value) + [QUOTE] + tail == [QUOTE] + tail;
      assert ([QUOTE] + tail)[1..] == tail;
      assert Preprocess([QUOTE] + tail) == [QUOTE] + Preprocess(tail);
    } else {
      CssReading(value[1..], tail);
      AfterFirst(EscapeChar(value[0]), Escape(value[1..]), tail);
      ScanEscapedChar(value[0], Escape(value[1..]) + [QUOTE] + tail);
    }
  }

  /**
   * For CSS, an escaped value followed by the closing quote reads back as itself, stopping at that
   * quote, if and only if it has no newline, carriage return, form feed or NUL.
   */
  lemma {:induction false} CssReadsBack(value: string, tail: string)
    ensures ScanString(Preprocess(Escape(value) + [QUOTE] + tail)) == StringToken(value, Preprocess(tail))
            <==> forall c :: c in value ==> !IsCssUnsafe(c)
  {
    CssReading(value, tail);
    NulReplacedIsItself(value);
    LineBreaks(value);
  }

  lemma {:induction false} NulReplacedIsItself(value: string)
    ensures NulReplaced(value) == value <==> '\0' !in value
  {
    if value != "" {
      NulReplacedIsItself(value[1..]);
      assert NulReplaced(value)[1..] == NulReplaced(value[1..]);
      assert forall c :: c in value <==> c == value[0] || c in value[1..];
      assert value == [value[0]] + value[1..];
    }
  }

  lemma {:induction false} LineBreaks(value: string)
    ensures HasLineBreak(value) <==> exists c :: c in value && IsLineBreak(c)
  {
    if value != "" {
      LineBreaks(value[1..]);
      assert forall c :: c in value <==> c == value[0] || c in value[1..];
    }
  }

  // ------------------------------------------------------------------------------------------
  // The selector engine of jQuery

  /** Characters a dot does not match in a regular expression. */
  predicate IsLineEnd(c: char) {
    c == '\n' || c == '\r' || c == '\U{2028}' || c == '\U{2029}'
  }

  datatype Quoted = NoMatch | Body(raw: string, rest: string)

  function Push(front: string, q: Quoted): Quoted {
    match q
    case NoMatch => NoMatch
    case Body(raw, rest) => Body(front + raw, rest)
  }

  /** The quoted value of an attribute test: escaped pairs and plain characters up to the closing quote. */
  function MatchQuoted(s: string): Quoted
    decreases |s|
  {
    if s == "" then NoMatch
    else if s[0] == QUOTE then Body("", s[1..])
    else if s[0] != BACKSLASH then Push([s[0]], MatchQuoted(s[1..]))
    else if |s| == 1 || IsLineEnd(s[1]) then NoMatch
    else Push(s[..2], MatchQuoted(s[2..]))
  }

  /** Replace every escape in a matched value. */
  function Unescape(s: string): string
    decreases |s|
  {
    if s == "" then ""
    else if s[0] != BACKSLASH || |s| == 1 then [s[0]] + Unescape(s[1..])
    else if IsHex(s[1]) then
      var n := HexRun(s[1..], 6);
      [EngineCodePoint(HexValue(s[1..][..n]))] + Unescape(AfterHex(s[1..], n))
    else if s[1] == '\r' || s[1] == '\n' || s[1] == '\U{C}' then [s[0]] + Unescape(s[1..])
    else [s[1]] + Unescape(s[2..])
  }

  lemma {:induction false} HexRunOf(digits: string, rest: string, limit: nat)
    requires |digits| <= limit && forall i :: 0 <= i < |digits| ==> IsHex(digits[i])
    requires rest == "" || !IsHex(rest[0])
    ensures HexRun(digits + rest, limit) == |digits|
    decreases limit
  {
    if digits == "" {
      assert digits + rest == rest;
    } else {
      assert (digits + rest)[1..] == digits[1..] + rest;
      HexRunOf(digits[1..], rest, limit - 1);
    }
  }

  /** Both readers take a backslash, up to six hex digits and a space as the one character of that number. */
  lemma {:induction false} NumericEscapesAreRead(digits: string, rest: string)
    requires 1 <= |digits| <= 6 && forall i :: 0 <= i < |digits| ==> IsHex(digits[i])
    ensures Unescape([BACKSLASH] + digits + " " + rest) == [EngineCodePoint(HexValue(digits))] + Unescape(rest)
    ensures ScanString([BACKSLASH] + digits + " " + rest) == Prepend(CodePoint(HexValue(digits)), ScanString(rest))
  {
    var text := [BACKSLASH] + digits + " " + rest;
    HexRunOf(digits, " " + rest, 6);
    assert text[1..] == digits + (" " + rest) && text[1] == digits[0];
    assert text[1..][..|digits|] == digits && text[1..][|digits| + 1..] == rest;
  }

  /** The numbers are hexadecimal code points; zero is NUL to the engine and U+FFFD to CSS. */
  lemma HexDigitsAreCodePoints()
    ensures EngineCodePoint(HexValue("27")) == CodePoint(HexValue("27")) == QUOTE
    ensures CodePoint(HexValue("fF")) == '\U{FF}'
    ensures EngineCodePoint(HexValue("0")) == '\0' && CodePoint(HexValue("0")) == '\U{FFFD}'
  {
    HexOfMore("", '2');
    HexOfMore("2", '7');
    HexOfMore("", 'f');
    HexOfMore("f", 'F');
    HexOfMore("", '0');
    assert "" + ['2'] == "2" && "2" + ['7'] == "27" && "" + ['f'] == "f" && "f" + ['F'] == "fF" && "" + ['0'] == "0";
  }

  lemma HexOfMore(digits: string, c: char)
    requires IsHex(c) && forall i :: 0 <= i < |digits| ==> IsHex(digits[i])
    ensures HexValue(digits + [c]) == HexValue(digits) * 16 + HexDigit(c)
  {
    FrontOfAppend(digits, c);
  }

  /** Unescaping inverts escaping, for every value; so escaping is injective. */
  lemma {:induction false} UnescapeInverts(value: string)
    ensures Unescape(Escape(value)) == value
  {
    if value != "" {
      UnescapeInverts(value[1..]);
      var c, text := value[0], Escape(value);
      if IsSpecial(c) {
        assert text[2..] == Escape(value[1..]);
      } else {
        assert text[1..] == Escape(value[1..]);
      }
    }
  }

  lemma {:induction false} EscapeIsInjective(a: string, b: string)
    requires Escape(a) == Escape(b)
    ensures a == b
  {
    UnescapeInverts(a);
    UnescapeInverts(b);
  }

  /** The engine's match ends exactly at the closing quote, for every value and every tail. */
  lemma {:induction false} MatchStopsAtTheQuote(value: string, tail: string)
    ensures MatchQuoted(Escape(value) + [QUOTE] + tail) == Body(Escape(value), tail)
  {
    var text := Escape(value) + [QUOTE] + tail;
    if value == "" {
      assert text[1..] == tail;
    } else {
      MatchStopsAtTheQuote(value[1..], tail);
      var c, after := value[0], Escape(value[1..]) + [QUOTE] + tail;
      AfterFirst(EscapeChar(c), Escape(value[1..]), tail);
      if IsSpecial(c) {
        assert text == [BACKSLASH, c] + after && text[2..] == after && text[..2] == [BACKSLASH, c];
      } else {
        assert text == [c] + after && text[1..] == after;
      }
    }
  }

  /** `[name='...']`, as the library builds it. */
  function NameSelector(name: string): string {
    "[name='" + Escape(name) + "']"
  }

  /** The name an attribute selector of that shape tests for, as the engine reads it. */
  function TestedName(selector: string): Option<string> {
    if !("[name='" <= selector) then None
    else
      match MatchQuoted(selector[|"[name='"|..])
      case NoMatch => None
      case Body(raw, rest) => if rest == "]" then Some(Unescape(raw)) else None
  }

  /** The engine reads back every name, line breaks and quotes included. */
  lemma {:induction false} SelectorTestsTheName(name: string)
    ensures TestedName(NameSelector(name)) == Some(name)
  {
    var head := "[name='";
    assert "']" == [QUOTE] + "]";
    assert NameSelector(name) == head + (Escape(name) + [QUOTE] + "]");
    assert NameSelector(name)[|head|..] == Escape(name) + [QUOTE] + "]";
    MatchStopsAtTheQuote(name, "]");
    UnescapeInverts(name);
  }

  /** No quote, and no backslash but before a form feed. */
  predicate NeedsNoEscape(name: string) {
    name == "" ||
    (&& name[0] != QUOTE
     && (name[0] == BACKSLASH ==> |name| >= 2 && name[1] == '\U{C}')
     && NeedsNoEscape(name[1..]))
  }

  lemma {:induction false} UnescapeShrinks(s: string)
    ensures |Unescape(s)| <= |s|
    decreases |s|
  {
    if s != "" {
      if s[0] != BACKSLASH || |s| == 1 {
        UnescapeShrinks(s[1..]);
      } else if IsHex(s[1]) {
        UnescapeShrinks(AfterHex(s[1..], HexRun(s[1..], 6)));
      } else {
        UnescapeShrinks(s[1..]);
        UnescapeShrinks(s[2..]);
      }
    }
  }

  /** A plain character, or a backslash and what it escapes. */
  predicate IsUnit(front: string) {
    || (|front| == 1 && front[0] != BACKSLASH && front[0] != QUOTE)
    || (|front| == 2 && front[0] == BACKSLASH && !IsLineEnd(front[1]))
  }

  lemma MatchStep(front: string, rest: string)
    requires IsUnit(front)
    ensures MatchQuoted(front + rest) == Push(front, MatchQuoted(rest))
  {
    assert (front + rest)[|front|..] == rest && (front + rest)[..|front|] == front;
  }

  /** A match is the text up to its quote; if unescaping keeps its length, it needed no escape. */
  lemma {:induction false} MatchedText(s: string)
    ensures match MatchQuoted(s)
            case NoMatch => true
            case Body(raw, rest) =>
              && s == raw + [QUOTE] + rest
              && (|Unescape(raw)| == |raw| ==> NeedsNoEscape(raw))
    decreases |s|
  {
    var found := MatchQuoted(s);
    if found.Body? {
      if s[0] == QUOTE {
        assert s == "" + [QUOTE] + s[1..];
      } else {
        var front := if s[0] == BACKSLASH then s[..2] else [s[0]];
        var rest := s[|front|..];
        MatchedText(rest);
        assert s == front + rest;
        MatchStep(front, rest);
        AfterFirst(front, MatchQuoted(rest).raw, found.rest);
        PairNeedsNoEscape(front, MatchQuoted(rest).raw);
      }
    }
  }

  /** One matched character or pair before the rest of a match. */
  lemma {:induction false} PairNeedsNoEscape(front: string, raw: string)
    requires IsUnit(front)
    requires |Unescape(raw)| == |raw| ==> NeedsNoEscape(raw)
    ensures |Unescape(front + raw)| == |front + raw| ==> NeedsNoEscape(front + raw)
  {
    var text := front + raw;
    if |front| == 1 {
      assert text[1..] == raw;
    } else {
      assert text[2..] == raw;
      UnescapeShrinks(raw);
      if IsHex(front[1]) {
        UnescapeShrinks(AfterHex(text[1..], HexRun(text[1..], 6)));
      } else if front[1] == '\U{C}' {
        assert text[1..] == ['\U{C}'] + raw && text[1..][1..] == raw;
        assert Unescape(text[1..]) == ['\U{C}'] + Unescape(raw);
        assert Unescape(text) == [BACKSLASH] + Unescape(text[1..]);
        assert NeedsNoEscape(raw) ==> NeedsNoEscape(text[1..]);
      }
    }
  }

  lemma {:induction false} PlainNameUnescapes(name: string)
    requires NeedsNoEscape(name)
    ensures Unescape(name) == name
  {
    if name != "" {
      PlainNameUnescapes(name[1..]);
      assert name == [name[0]] + name[1..];
    }
  }

  lemma {:induction false} PlainNameIsMatched(name: string, tail: string)
    requires NeedsNoEscape(name)
    ensures MatchQuoted(name + [QUOTE] + tail) == Body(name, tail)
    decreases |name|
  {
    if name == "" {
      assert ([QUOTE] + tail)[1..] == tail;
      assert name + [QUOTE] + tail == [QUOTE] + tail;
    } else {
      var n := if name[0] == BACKSLASH then 2 else 1;
      var front, rest := name[..n], name[n..];
      assert name[1..][n - 1..] == rest && name == front + rest;
      PlainNameIsMatched(rest, tail);
      MatchStep(front, rest + [QUOTE] + tail);
      AfterFirst(front, rest, tail);
    }
  }

  /**
   * Without escaping the selector tests for the given name if and only if the name has no quote and no
   * backslash but before a form feed.
   */
  lemma {:induction false} UnescapedSelectorTestsIff(name: string)
    ensures TestedName("[name='" + name + "']") == Some(name) <==> NeedsNoEscape(name)
  {
    var selector, body := "[name='" + name + "']", name + [QUOTE] + "]";
    assert "']" == [QUOTE] + "]";
    assert selector[|"[name='"|..] == body;
    MatchedText(body);
    var found := MatchQuoted(body);
    if found.Body? && found.rest == "]" {
      assert body[..|found.raw|] == found.raw && body[..|name|] == name;
    }
    if NeedsNoEscape(name) {
      PlainNameIsMatched(name, "]");
      PlainNameUnescapes(name);
    }
  }

  // ------------------------------------------------------------------------------------------
  // Looking an input up by name

  /** An input of a form: an identity and, if it has one, its name attribute. */
  datatype Input = Input(id: nat, name: Option<string>)

  /** The first input with the tested name, in document order. */
  function FirstNamed(inputs: seq<Input>, tested: Option<string>): Option<Input> {
    if inputs == [] then None
    else if inputs[0].name.Some? && tested == inputs[0].name then Some(inputs[0])
    else FirstNamed(inputs[1..], tested)
  }

  /** The name the browser's own matcher tests for; `None` where it throws. */
  function BrowserTestedName(selector: string): Option<string> {
    if !("[name='" <= selector) then None
    else
      match ScanString(Preprocess(selector[|"[name='"|..]))
      case BadString(_) => None
      case StringToken(value, rest) => if rest == "]" then Some(value) else None
  }

  /**
   * Filtering by a selector and taking the first: a single input is put to the browser's matcher, and to
   * the engine only if that throws; several inputs are put to the engine.
   */
  function FirstMatch(inputs: seq<Input>, selector: string): Option<Input> {
    var browser := BrowserTestedName(selector);
    FirstNamed(inputs, if |inputs| == 1 && browser.Some? then browser else TestedName(selector))
  }

  /** `found` is the first input named `name`, or nothing if there is none. */
  predicate IsFirstNamed(inputs: seq<Input>, found: Option<Input>, name: string) {
    match found
    case None => forall i | 0 <= i < |inputs| :: inputs[i].name != Some(name)
    case Some(input) => exists i | 0 <= i < |inputs| :: inputs[i] == input && input.name == Some(name)
                          && forall k | 0 <= k < i :: inputs[k].name != Some(name)
  }

  /** The browser reads the name with its NULs replaced, and does not give up on it. */
  predicate NulIsMisread(name: string) {
    '\0' in name && !HasLineBreak(name)
  }

  lemma {:induction false} BrowserReading(name: string)
    ensures BrowserTestedName(NameSelector(name)) == if HasLineBreak(name) then None else Some(NulReplaced(name))
  {
    var head := "[name='";
    assert "']" == [QUOTE] + "]";
    assert NameSelector(name)[|head|..] == Escape(name) + [QUOTE] + "]";
    CssReading(name, "]");
    assert "]"[1..] == "";
    assert Preprocess("]") == "]";
  }

  lemma {:induction false} FirstNamedIsFirst(inputs: seq<Input>, name: string)
    ensures IsFirstNamed(inputs, FirstNamed(inputs, Some(name)), name)
  {
    if inputs != [] && inputs[0].name != Some(name) {
      FirstNamedIsFirst(inputs[1..], name);
      var found := FirstNamed(inputs[1..], Some(name));
      assert forall k | 0 < k < |inputs| :: inputs[k] == inputs[1..][k - 1];
      if found.Some? {
        var j :| 0 <= j < |inputs[1..]| && inputs[1..][j] == found.value
                 && forall k | 0 <= k < j :: inputs[1..][k].name != Some(name);
        assert inputs[j + 1] == found.value;
      }
    } else if inputs != [] {
      assert inputs[0] == FirstNamed(inputs, Some(name)).value;
    }
  }

  /** A lookup by escaped name finds the first input of exactly that name, unless a lone input's NUL is misread. */
  lemma {:induction false} LookupFindsTheFirst(inputs: seq<Input>, name: string)
    ensures |inputs| != 1 || !NulIsMisread(name) ==> IsFirstNamed(inputs, FirstMatch(inputs, NameSelector(name)), name)
  {
    SelectorTestsTheName(name);
    BrowserReading(name);
    NulReplacedIsItself(name);
    FirstNamedIsFirst(inputs, name);
  }

  /** The lookup is right for every list of inputs if and only if the name has no NUL or has a line break. */
  lemma {:induction false} LookupIsRightIff(name: string)
    ensures (forall inputs :: IsFirstNamed(inputs, FirstMatch(inputs, NameSelector(name)), name))
            <==> !NulIsMisread(name)
  {
    if NulIsMisread(name) {
      BrowserReading(name);
      NulReplacedIsItself(name);
      var lone := [Input(0, Some(name))];
      assert lone[1..] == [] && FirstNamed([], Some(NulReplaced(name))) == None;
      assert FirstMatch(lone, NameSelector(name)) == None;
      assert lone[0].name == Some(name);
      assert !IsFirstNamed(lone, FirstMatch(lone, NameSelector(name)), name);
    } else {
      forall inputs
        ensures IsFirstNamed(inputs, FirstMatch(inputs, NameSelector(name)), name)
      {
        LookupFindsTheFirst(inputs, name);
      }
    }
  }
}
