/** The comma-separated field lists of the `remote` adapter: trimming and splitting by regular expressions. */
module FieldLists {
  import opened Common

  /** JavaScript white space and line terminators. */
  predicate IsSpace(c: char) {
    || '\U{9}' <= c <= '\U{D}' || c == ' ' || c == '\U{A0}' || c == '\U{1680}'
    || '\U{2000}' <= c <= '\U{200A}' || c == '\U{2028}' || c == '\U{2029}' || c == '\U{202F}'
    || c == '\U{205F}' || c == '\U{3000}' || c == '\U{FEFF}'
  }

  /** The white space and line terminators of ECMAScript. */
  const JS_SPACES: set<char> := {
    '\U{9}', '\U{A}', '\U{B}', '\U{C}', '\U{D}', '\U{20}', '\U{A0}', '\U{1680}',
    '\U{2000}', '\U{2001}', '\U{2002}', '\U{2003}', '\U{2004}', '\U{2005}', '\U{2006}', '\U{2007}',
    '\U{2008}', '\U{2009}', '\U{200A}', '\U{2028}', '\U{2029}', '\U{202F}', '\U{205F}', '\U{3000}',
    '\U{FEFF}'}

  lemma JsSpaces()
    ensures forall c :: IsSpace(c) <==> c in JS_SPACES
  {
  }

  predicate AllSpace(s: string) {
    forall i :: 0 <= i < |s| ==> IsSpace(s[i])
  }

  function TrimStart(s: string): string {
    if s != "" && IsSpace(s[0]) then TrimStart(s[1..]) else s
  }

  function TrimEnd(s: string): string {
    if s != "" && IsSpace(Last(s)) then TrimEnd(Front(s)) else s
  }

  /** Remove the white space at both ends. */
  function Trim(s: string): string {
    TrimEnd(TrimStart(s))
  }

  /** The end of the run of white space that starts at `q`. */
  function SpaceRun(s: string, q: nat): (end: nat)
    requires q <= |s|
    ensures q <= end <= |s|
    ensures AllSpace(s[q..end]) && (end < |s| ==> !IsSpace(s[end]))
    decreases |s| - q
  {
    if q < |s| && IsSpace(s[q]) then
      var end := SpaceRun(s, q + 1);
      assert s[q..end] == [s[q]] + s[q + 1..end];
      end
    else q
  }

  /** The end of a separator - a comma in optional white space - that starts exactly at `q`. */
  function MatchSeparator(s: string, q: nat): (end: Option<nat>)
    requires q <= |s|
    ensures end.Some? ==> q < end.value <= |s|
  {
    var comma := SpaceRun(s, q);
    if comma < |s| && s[comma] == ',' then Some(SpaceRun(s, comma + 1)) else None
  }

  /** Splitting by a pattern: try each position in turn; `p` is where the current token starts. */
  function SplitFrom(s: string, p: nat, q: nat): (tokens: seq<string>)
    requires p <= q <= |s|
    ensures tokens != []
    decreases |s| - q
  {
    if q == |s| then [s[p..]]
    else
      match MatchSeparator(s, q)
      case None => SplitFrom(s, p, q + 1)
      case Some(end) => [s[p..q]] + SplitFrom(s, end, end)
  }

  /** The end of the white space at an edge of the string - its start or its end - that starts exactly at `q`. */
  function MatchEdge(s: string, q: nat): (end: Option<nat>)
    requires q <= |s|
    ensures end.Some? ==> q < end.value <= |s|
  {
    var end := SpaceRun(s, q);
    if q < end && (q == 0 || end == |s|) then Some(end) else None
  }

  /** Replacing every match by nothing: try each position in turn, and go on after a match. */
  function RemoveEdges(s: string, q: nat): string
    requires q <= |s|
    decreases |s| - q
  {
    if q == |s| then ""
    else
      match MatchEdge(s, q)
      case None => [s[q]] + RemoveEdges(s, q + 1)
      case Some(end) => RemoveEdges(s, end)
  }

  function SplitAndTrim(value: string): seq<string> {
    SplitFrom(RemoveEdges(value, 0), 0, 0)
  }

  // ------------------------------------------------------------------------------------------
  // The plain meaning: cut at every comma, then trim every piece

  function Cut(s: string): (pieces: seq<string>)
    ensures pieces != []
    ensures |pieces| == CountCommas(s) + 1
  {
    if s == "" then [""]
    else if s[0] == ',' then [""] + Cut(s[1..])
    else
      var rest := Cut(s[1..]);
      [[s[0]] + rest[0]] + rest[1..]
  }

  function CountCommas(s: string): nat {
    if s == "" then 0 else (if s[0] == ',' then 1 else 0) + CountCommas(s[1..])
  }

  function TrimEach(pieces: seq<string>): (trimmed: seq<string>)
    ensures |trimmed| == |pieces|
    ensures forall i :: 0 <= i < |pieces| ==> trimmed[i] == Trim(pieces[i])
  {
    if pieces == [] then [] else [Trim(pieces[0])] + TrimEach(pieces[1..])
  }

  predicate CommaFree(s: string) {
    forall i :: 0 <= i < |s| ==> s[i] != ','
  }

  /** Empty, or starting and ending in something other than white space. */
  predicate IsTrimmed(s: string) {
    s != "" ==> !IsSpace(s[0]) && !IsSpace(Last(s))
  }

  // ------------------------------------------------------------------------------------------
  // Trimming

  lemma {:induction false} TrimStartDrops(w: string, s: string)
    requires AllSpace(w)
    ensures TrimStart(w + s) == TrimStart(s)
  {
    if w == "" {
      assert w + s == s;
    } else {
      assert (w + s)[1..] == w[1..] + s;
      TrimStartDrops(w[1..], s);
    }
  }

  lemma {:induction false} TrimEndDrops(s: string, w: string)
    requires AllSpace(w)
    ensures TrimEnd(s + w) == TrimEnd(s)
  {
    if w == "" {
      assert s + w == s;
    } else {
      assert Front(s + w) == s + Front(w);
      TrimEndDrops(s, Front(w));
    }
  }

  /** Any string is its trimmed text between two stretches of white space. */
  lemma {:induction false} TrimSplits(s: string) returns (left: string, right: string)
    ensures AllSpace(left) && AllSpace(right) && s == left + Trim(s) + right
    ensures IsTrimmed(Trim(s))
  {
    left := TrimStartSplits(s);
    right := TrimEndSplits(TrimStart(s));
    if Trim(s) != "" {
      assert Trim(s)[0] == TrimStart(s)[0];
    }
    assert left + (Trim(s) + right) == left + Trim(s) + right;
  }

  lemma {:induction false} TrimStartSplits(s: string) returns (left: string)
    ensures AllSpace(left) && s == left + TrimStart(s)
    ensures TrimStart(s) != "" ==> !IsSpace(TrimStart(s)[0])
  {
    left := "";
    if s != "" && IsSpace(s[0]) {
      var more := TrimStartSplits(s[1..]);
      left := [s[0]] + more;
      assert s == [s[0]] + s[1..];
    }
  }

  lemma {:induction false} TrimEndSplits(s: string) returns (right: string)
    ensures AllSpace(right) && s == TrimEnd(s) + right
    ensures TrimEnd(s) != "" ==> !IsSpace(Last(TrimEnd(s)))
  {
    right := "";
    if s != "" && IsSpace(Last(s)) {
      var more := TrimEndSplits(Front(s));
      right := more + [Last(s)];
      assert s == Front(s) + [Last(s)];
    }
  }

  /** White space around trimmed text is what trimming removes. */
  lemma {:induction false} TrimOfPadded(left: string, s: string, right: string)
    requires AllSpace(left) && AllSpace(right) && IsTrimmed(s)
    ensures Trim(left + s + right) == s
  {
    assert left + s + right == left + (s + right);
    TrimStartDrops(left, s + right);
    if s == "" {
      assert s + right == right + "";
      TrimStartDrops(right, "");
    } else {
      assert TrimStart(s + right) == s + right;
      TrimEndDrops(s, right);
    }
  }

  lemma {:induction false} TrimIgnoresPadding(left: string, s: string, right: string)
    requires AllSpace(left) && AllSpace(right)
    ensures Trim(left + s + right) == Trim(s)
  {
    var l, r := TrimSplits(s);
    assert left + s + right == (left + l) + Trim(s) + (r + right);
    TrimOfPadded(left + l, Trim(s), r + right);
  }

  /** What trimming the end of a string makes of its first character. */
  lemma {:induction false} TrimEndFront(c: char, s: string)
    ensures TrimEnd([c] + s) == if IsSpace(c) && AllSpace(s) then "" else [c] + TrimEnd(s)
  {
    if s == "" {
      assert Front([c]) == "";
    } else {
      assert Last([c] + s) == Last(s) && Front([c] + s) == [c] + Front(s);
      assert s == Front(s) + [Last(s)];
      if IsSpace(Last(s)) {
        TrimEndFront(c, Front(s));
        assert AllSpace(s) <==> AllSpace(Front(s));
      }
    }
  }

  lemma AllSpaceFront(c: char, s: string)
    ensures AllSpace([c] + s) <==> IsSpace(c) && AllSpace(s)
  {
    var text := [c] + s;
    if AllSpace(text) {
      forall i | 0 <= i < |s|
        ensures IsSpace(s[i])
      {
        assert s[i] == text[i + 1];
      }
      assert text[0] == c;
    }
  }

  lemma {:induction false} SpaceRunToTheEnd(s: string, q: nat)
    requires q < |s|
    ensures SpaceRun(s, q) == |s| <==> AllSpace(s[q..])
  {
    var end := SpaceRun(s, q);
    if end < |s| {
      assert s[q..][end - q] == s[end];
    } else {
      assert s[q..end] == s[q..];
    }
  }

  /** Past the start only white space at the end matches. */
  lemma {:induction false} RemoveEdgesPastStart(s: string, q: nat)
    requires 0 < q <= |s|
    ensures RemoveEdges(s, q) == TrimEnd(s[q..])
    decreases |s| - q
  {
    if q < |s| {
      RemoveEdgesPastStart(s, q + 1);
      SpaceRunToTheEnd(s, q);
      assert s[q..] == [s[q]] + s[q + 1..];
      TrimEndFront(s[q], s[q + 1..]);
      AllSpaceFront(s[q], s[q + 1..]);
    }
  }

  lemma {:induction false} TrimStartIsARun(s: string, q: nat)
    requires q <= |s|
    ensures TrimStart(s[q..]) == s[SpaceRun(s, q)..]
    decreases |s| - q
  {
    if q < |s| && IsSpace(s[q]) {
      assert s[q..][1..] == s[q + 1..];
      TrimStartIsARun(s, q + 1);
    }
  }

  /** For every string the trimming expression removes exactly the white space at both ends. */
  lemma {:induction false} RemoveEdgesIsTrim(s: string)
    ensures RemoveEdges(s, 0) == Trim(s)
  {
    if s != "" {
      assert s[0..] == s;
      TrimStartIsARun(s, 0);
      var end := SpaceRun(s, 0);
      if end > 0 {
        RemoveEdgesPastStart(s, end);
      } else {
        RemoveEdgesPastStart(s, 1);
        assert s == [s[0]] + s[1..];
        TrimEndFront(s[0], s[1..]);
      }
    }
  }

  // ------------------------------------------------------------------------------------------
  // Cutting

  lemma {:induction false} CutCommaFree(s: string)
    requires CommaFree(s)
    ensures Cut(s) == [s]
  {
    if s != "" {
      CutCommaFree(s[1..]);
      assert [s[0]] + s[1..] == s;
    }
  }

  /** The first comma ends the first piece. */
  lemma {:induction false} CutAtComma(piece: string, rest: string)
    requires CommaFree(piece)
    ensures Cut(piece + "," + rest) == [piece] + Cut(rest)
  {
    var s := piece + "," + rest;
    if piece == "" {
      assert s[1..] == rest;
    } else {
      assert s[1..] == piece[1..] + "," + rest;
      CutAtComma(piece[1..], rest);
      assert [piece[0]] + piece[1..] == piece;
    }
  }

  lemma {:induction false} CutPiecesAreCommaFree(s: string)
    ensures forall i :: 0 <= i < |Cut(s)| ==> CommaFree(Cut(s)[i])
  {
    if s != "" {
      CutPiecesAreCommaFree(s[1..]);
      if s[0] != ',' {
        assert CommaFree(Cut(s[1..])[0]);
      }
    }
  }

  /** White space before a string only pads its first piece. */
  lemma {:induction false} CutOfPaddedFront(w: string, s: string)
    requires AllSpace(w)
    ensures Cut(w + s) == [w + Cut(s)[0]] + Cut(s)[1..]
  {
    if w == "" {
      assert w + s == s && w + Cut(s)[0] == Cut(s)[0];
    } else {
      assert (w + s)[1..] == w[1..] + s;
      CutOfPaddedFront(w[1..], s);
      assert w == [w[0]] + w[1..];
      ConcatAssoc([w[0]], w[1..], Cut(s)[0]);
    }
  }

  lemma PadLast(c: char, rest: seq<string>, w: string)
    requires rest != []
    ensures var padded := SetLast(rest, Last(rest) + w);
      && [""] + padded == SetLast([""] + rest, Last([""] + rest) + w)
      && [[c] + padded[0]] + padded[1..] ==
         SetLast([[c] + rest[0]] + rest[1..], Last([[c] + rest[0]] + rest[1..]) + w)
  {
    if |rest| == 1 {
      assert [c] + (rest[0] + w) == ([c] + rest[0]) + w;
    }
  }

  /** White space after a string only pads its last piece. */
  lemma {:induction false} CutOfPaddedBack(s: string, w: string)
    requires AllSpace(w)
    ensures Cut(s + w) == SetLast(Cut(s), Last(Cut(s)) + w)
  {
    if s == "" {
      assert s + w == w && CommaFree(w);
      CutCommaFree(w);
    } else {
      assert (s + w)[1..] == s[1..] + w;
      CutOfPaddedBack(s[1..], w);
      PadLast(s[0], Cut(s[1..]), w);
    }
  }

  lemma {:induction false} MeaningIgnoresFront(left: string, s: string)
    requires AllSpace(left)
    ensures TrimEach(Cut(left + s)) == TrimEach(Cut(s))
  {
    CutOfPaddedFront(left, s);
    TrimIgnoresPadding(left, Cut(s)[0], "");
    assert left + Cut(s)[0] + "" == left + Cut(s)[0];
    SameTrims(Cut(left + s), Cut(s));
  }

  lemma {:induction false} MeaningIgnoresBack(s: string, right: string)
    requires AllSpace(right)
    ensures TrimEach(Cut(s + right)) == TrimEach(Cut(s))
  {
    CutOfPaddedBack(s, right);
    TrimIgnoresPadding("", Last(Cut(s)), right);
    assert "" + Last(Cut(s)) + right == Last(Cut(s)) + right;
    SameTrims(Cut(s + right), Cut(s));
  }

  lemma {:induction false} SameTrims(a: seq<string>, b: seq<string>)
    requires |a| == |b| && forall i :: 0 <= i < |a| ==> Trim(a[i]) == Trim(b[i])
    ensures TrimEach(a) == TrimEach(b)
  {
  }

  lemma {:induction false} MeaningIgnoresPadding(left: string, s: string, right: string)
    requires AllSpace(left) && AllSpace(right)
    ensures TrimEach(Cut(left + s + right)) == TrimEach(Cut(s))
  {
    MeaningIgnoresBack(left + s, right);
    MeaningIgnoresFront(left, s);
  }

  // ------------------------------------------------------------------------------------------
  // The regular expressions compute the plain meaning

  lemma {:induction false} OnePieceMeaning(piece: string)
    requires CommaFree(piece) && IsTrimmed(piece)
    ensures TrimEach(Cut(piece)) == [piece]
  {
    CutCommaFree(piece);
    TrimOfPadded("", piece, "");
    assert "" + piece + "" == piece;
  }

  lemma {:induction false} NoSeparatorNoComma(s: string, p: nat, q: nat)
    requires p <= q < |s| && CommaFree(s[p..q]) && MatchSeparator(s, q).None?
    ensures CommaFree(s[p..q + 1])
  {
    assert s[q] != ',';
    assert s[p..q + 1] == s[p..q] + [s[q]];
  }

  /** The scan from a token start `p`, having found no separator up to `q`. */
  lemma {:induction false} SplitFromMeaning(s: string, p: nat, q: nat)
    requires p <= q <= |s| && CommaFree(s[p..q])
    requires IsTrimmed(s) && (p < |s| ==> !IsSpace(s[p]))
    requires q > p ==> MatchSeparator(s, q - 1).None?
    ensures SplitFrom(s, p, q) == TrimEach(Cut(s[p..]))
    decreases |s| - q
  {
    if q == |s| {
      assert s[p..q] == s[p..];
      OnePieceMeaning(s[p..]);
    } else {
      match MatchSeparator(s, q)
      case None =>
        NoSeparatorNoComma(s, p, q);
        SplitFromMeaning(s, p, q + 1);
      case Some(end) =>
        TokenIsTrimmed(s, p, q);
        SeparatorMeaning(s, p, q, end);
        SplitFromMeaning(s, end, end);
    }
  }

  /** The text before a separator does not end in white space: the separator would have started earlier. */
  lemma {:induction false} TokenIsTrimmed(s: string, p: nat, q: nat)
    requires p <= q <= |s| && (p < |s| ==> !IsSpace(s[p]))
    requires q > p ==> MatchSeparator(s, q - 1).None?
    requires MatchSeparator(s, q).Some?
    ensures IsTrimmed(s[p..q])
  {
    if q > p {
      assert Last(s[p..q]) == s[q - 1];
    }
  }

  /** A separator found at `q` ends the token `s[p..q]`, which needs no trimming. */
  lemma {:induction false} SeparatorMeaning(s: string, p: nat, q: nat, end: nat)
    requires p <= q <= |s| && CommaFree(s[p..q]) && IsTrimmed(s[p..q])
    requires MatchSeparator(s, q) == Some(end)
    ensures TrimEach(Cut(s[p..])) == [s[p..q]] + TrimEach(Cut(s[end..]))
  {
    var comma := SpaceRun(s, q);
    PaddedPieceMeaning(s[p..q], s[q..comma], s[comma + 1..end], s[end..]);
    Parts(s, p, q, comma, end);
  }

  lemma Parts(s: string, p: nat, q: nat, comma: nat, end: nat)
    requires p <= q <= comma < end <= |s| && s[comma] == ','
    ensures s[p..] == (s[p..q] + s[q..comma]) + "," + (s[comma + 1..end] + s[end..])
  {
    assert s[p..] == s[p..comma] + ([s[comma]] + s[comma + 1..]);
  }

  lemma {:induction false} PaddedPieceMeaning(token: string, before: string, after: string, rest: string)
    requires CommaFree(token) && IsTrimmed(token) && AllSpace(before) && AllSpace(after)
    ensures TrimEach(Cut((token + before) + "," + (after + rest))) == [token] + TrimEach(Cut(rest))
  {
    CutAtComma(token + before, after + rest);
    TrimOfPadded("", token, before);
    assert "" + token + before == token + before;
    MeaningIgnoresPadding(after, rest, "");
    assert after + rest + "" == after + rest;
  }

  /** For every string, the two regular expressions give the pieces between commas, each trimmed. */
  lemma {:induction false} SplitAndTrimMeaning(value: string)
    ensures SplitAndTrim(value) == TrimEach(Cut(value))
  {
    var left, right := TrimSplits(value);
    var s := Trim(value);
    RemoveEdgesIsTrim(value);
    SplitFromMeaning(s, 0, 0);
    assert s[0..] == s;
    MeaningIgnoresPadding(left, s, right);
  }

  /** One token more than there are commas, and no token has a comma or white space at an end. */
  lemma {:induction false} TokensAreClean(value: string)
    ensures |SplitAndTrim(value)| == CountCommas(value) + 1
    ensures forall token :: token in SplitAndTrim(value) ==>
              ',' !in token && (token != "" ==> token[0] !in JS_SPACES && Last(token) !in JS_SPACES)
  {
    SplitAndTrimMeaning(value);
    JsSpaces();
    CutPiecesAreCommaFree(value);
    forall i | 0 <= i < |Cut(value)|
      ensures IsTrimmed(Trim(Cut(value)[i])) && CommaFree(Trim(Cut(value)[i]))
    {
      var piece := Cut(value)[i];
      assert CommaFree(piece);
      var left, right := TrimSplits(piece);
      assert forall k :: 0 <= k < |Trim(piece)| ==> Trim(piece)[k] == piece[|left| + k];
    }
  }

  /** A token with white space around it. */
  datatype Padded = Padded(left: string, token: string, right: string)

  /** White space around a token without commas and without white space at its ends. */
  predicate IsField(p: Padded) {
    && (forall c :: c in p.left + p.right ==> c in JS_SPACES)
    && ',' !in p.token && (p.token != "" ==> p.token[0] !in JS_SPACES && Last(p.token) !in JS_SPACES)
  }

  lemma FieldIsPadded(p: Padded)
    requires IsField(p)
    ensures AllSpace(p.left) && AllSpace(p.right) && IsTrimmed(p.token) && CommaFree(p.token)
  {
    JsSpaces();
    forall i | 0 <= i < |p.left|
      ensures IsSpace(p.left[i])
    {
      assert p.left[i] in p.left + p.right;
    }
    forall i | 0 <= i < |p.right|
      ensures IsSpace(p.right[i])
    {
      assert p.right[i] in p.left + p.right;
    }
  }

  function Join(fields: seq<Padded>): string
    requires fields != []
  {
    var first := fields[0].left + fields[0].token + fields[0].right;
    if |fields| == 1 then first else first + "," + Join(fields[1..])
  }

  function TokensOf(fields: seq<Padded>): (tokens: seq<string>)
    ensures |tokens| == |fields|
    ensures forall i :: 0 <= i < |fields| ==> tokens[i] == fields[i].token
  {
    if fields == [] then [] else [fields[0].token] + TokensOf(fields[1..])
  }

  /** Joining clean tokens with commas and any white space around them, then splitting, gives them back. */
  lemma {:induction false} SplittingInvertsJoining(fields: seq<Padded>)
    requires fields != [] && forall i :: 0 <= i < |fields| ==> IsField(fields[i])
    ensures SplitAndTrim(Join(fields)) == TokensOf(fields)
  {
    SplitAndTrimMeaning(Join(fields));
    CutOfJoin(fields);
  }

  lemma {:induction false} CutOfJoin(fields: seq<Padded>)
    requires fields != [] && forall i :: 0 <= i < |fields| ==> IsField(fields[i])
    ensures TrimEach(Cut(Join(fields))) == TokensOf(fields)
  {
    var f := fields[0];
    assert IsField(f);
    FieldIsPadded(f);
    var first := f.left + f.token + f.right;
    assert CommaFree(first);
    TrimOfPadded(f.left, f.token, f.right);
    if |fields| == 1 {
      CutCommaFree(first);
    } else {
      CutAtComma(first, Join(fields[1..]));
      CutOfJoin(fields[1..]);
    }
  }

  lemma {:induction false} SecondOfTwo(pad: string, token: string)
    requires IsField(Padded(pad, token, ""))
    ensures SplitAndTrim("a," + pad + token) == ["a", token]
  {
    var first, second := Padded("", "a", ""), Padded(pad, token, "");
    SplittingInvertsJoining([first, second]);
    assert Join([second]) == pad + token + "" == pad + token;
    assert [first, second][1..] == [second];
    assert Join([first, second]) == "a," + pad + token;
    assert TokensOf([second]) == [token] && TokensOf([first, second]) == ["a", token];
  }

  /** A character beside a comma is dropped if and only if it is white space. */
  lemma {:induction false} SpaceIsDroppedIff(c: char)
    requires c != ','
    ensures SplitAndTrim("a," + [c] + "b") == ["a", "b"] <==> c in JS_SPACES
  {
    if c in JS_SPACES {
      SecondOfTwo([c], "b");
    } else {
      SecondOfTwo("", [c, 'b']);
      assert "a," + "" + [c, 'b'] == "a," + [c] + "b";
      assert |[c, 'b']| != |"b"|;
    }
  }

  function Bare(tokens: seq<string>): (fields: seq<Padded>)
    ensures |fields| == |tokens|
    ensures forall i :: 0 <= i < |tokens| ==> fields[i] == Padded("", tokens[i], "")
  {
    if tokens == [] then [] else [Padded("", tokens[0], "")] + Bare(tokens[1..])
  }

  lemma BareFields(tokens: seq<string>)
    requires forall token :: token in tokens ==>
               ',' !in token && (token != "" ==> token[0] !in JS_SPACES && Last(token) !in JS_SPACES)
    ensures forall i :: 0 <= i < |tokens| ==> IsField(Bare(tokens)[i])
    ensures TokensOf(Bare(tokens)) == tokens
  {
    assert forall i :: 0 <= i < |tokens| ==> Bare(tokens)[i].token == tokens[i] && tokens[i] in tokens;
  }

  /** Splitting is stable: joining the tokens of any string and splitting again gives the same tokens. */
  lemma {:induction false} SplittingIsStable(value: string)
    ensures SplitAndTrim(value) != []
    ensures SplitAndTrim(Join(Bare(SplitAndTrim(value)))) == SplitAndTrim(value)
  {
    TokensAreClean(value);
    BareFields(SplitAndTrim(value));
    SplittingInvertsJoining(Bare(SplitAndTrim(value)));
  }
}
