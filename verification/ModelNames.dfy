/** Names relative to a model prefix: `*.Other` beside the field `a.b.Field` means `a.b.Other`. */
module ModelNames {
  import opened Common

  /** The index of the last dot, or -1. */
  function LastDot(s: string): (i: int)
    ensures -1 <= i < |s|
  {
    if s == "" then -1 else if Last(s) == '.' then |s| - 1 else LastDot(Front(s))
  }

  function GetModelPrefix(fieldName: string): string {
    fieldName[..LastDot(fieldName) + 1]
  }

  predicate IsPattern(c: char) {
    c == '$' || c == '&' || c == '`' || c == '\''
  }

  /**
   * The text that replaces a match of `*.` at the start of a string. A dollar sign and one of four
   * characters stands for a dollar sign, the match, the text before it (none) or the text `after` it.
   */
  function Substitution(template: string, after: string): string {
    if template == "" then ""
    else if |template| >= 2 && template[0] == '$' && IsPattern(template[1]) then
      (match template[1]
       case '$' => "$"
       case '&' => "*."
       case '`' => ""
       case _ => after) + Substitution(template[2..], after)
    else [template[0]] + Substitution(template[1..], after)
  }

  function AppendModelPrefix(value: string, prefix: string): string {
    if "*." <= value then Substitution(prefix, value[2..]) + value[2..] else value
  }

  predicate DotFree(s: string) {
    forall i :: 0 <= i < |s| ==> s[i] != '.'
  }

  predicate DollarFree(s: string) {
    forall i :: 0 <= i < |s| ==> s[i] != '$'
  }

  /** Empty, or ending in a dot. */
  predicate IsModelPrefix(p: string) {
    p == "" || Last(p) == '.'
  }

  /** Somewhere a dollar sign is followed by one of the four characters. */
  predicate HasPattern(s: string) {
    |s| >= 2 && ((s[0] == '$' && IsPattern(s[1])) || HasPattern(s[1..]))
  }

  /** The prefix is the one way to split a name into a model prefix and a dot-free field. */
  lemma {:induction false} PrefixIsTheSplit(name: string, p: string, field: string)
    ensures name == p + field && IsModelPrefix(p) && DotFree(field)
            <==> p == GetModelPrefix(name) && field == name[|p|..]
  {
    PrefixSplits(name);
    if name == p + field && IsModelPrefix(p) && DotFree(field) {
      PrefixOfField(p, field);
    }
  }

  lemma {:induction false} PrefixSplits(name: string)
    ensures IsModelPrefix(GetModelPrefix(name)) && DotFree(name[LastDot(name) + 1..])
    ensures name == GetModelPrefix(name) + name[|GetModelPrefix(name)|..]
  {
    LastDotIsLast(name);
    SplitAt(name, LastDot(name) + 1);
  }

  lemma SplitAt(name: string, n: nat)
    requires n <= |name| && (n > 0 ==> name[n - 1] == '.')
    requires forall i :: n <= i < |name| ==> name[i] != '.'
    ensures IsModelPrefix(name[..n]) && DotFree(name[n..])
    ensures name == name[..n] + name[n..]
  {
  }

  lemma {:induction false} LastDotIsLast(s: string)
    ensures LastDot(s) >= 0 ==> s[LastDot(s)] == '.'
    ensures forall i :: LastDot(s) < i < |s| ==> s[i] != '.'
  {
    if s != "" && Last(s) != '.' {
      LastDotIsLast(Front(s));
      forall i | LastDot(s) < i < |s|
        ensures s[i] != '.'
      {
        if i < |s| - 1 { assert s[i] == Front(s)[i]; }
      }
    }
  }

  lemma {:induction false} PrefixOfField(p: string, field: string)
    requires IsModelPrefix(p) && DotFree(field)
    ensures GetModelPrefix(p + field) == p
  {
    if field == "" {
      assert p + field == p;
    } else {
      assert Front(p + field) == p + Front(field);
      assert Last(p + field) == Last(field);
      PrefixOfField(p, Front(field));
    }
  }

  lemma {:induction false} NoPatternMeansItself(template: string, after: string)
    requires !HasPattern(template)
    ensures Substitution(template, after) == template
  {
    if template != "" {
      NoPatternMeansItself(template[1..], after);
    }
  }

  function Dollars(s: string): nat {
    if s == "" then 0 else (if s[0] == '$' then 1 else 0) + Dollars(s[1..])
  }

  lemma {:induction false} DollarsOfConcat(a: string, b: string)
    ensures Dollars(a + b) == Dollars(a) + Dollars(b)
  {
    if a == "" {
      assert a + b == b;
    } else {
      DollarsOfConcat(a[1..], b);
      assert (a + b)[1..] == a[1..] + b;
    }
  }

  lemma {:induction false} NoDollars(s: string)
    requires DollarFree(s)
    ensures Dollars(s) == 0
  {
    if s != "" {
      NoDollars(s[1..]);
    }
  }

  /** Every pattern uses up a dollar sign that nothing gives back. */
  lemma {:induction false} PatternsLoseDollars(template: string, after: string)
    requires DollarFree(after)
    ensures Dollars(Substitution(template, after)) <= Dollars(template)
    ensures HasPattern(template) ==> Dollars(Substitution(template, after)) < Dollars(template)
    decreases |template|
  {
    if template != "" {
      if |template| >= 2 && template[0] == '$' && IsPattern(template[1]) {
        var rest := Substitution(template[2..], after);
        PatternsLoseDollars(template[2..], after);
        NoDollars(after);
        NoDollars("*.");
        DollarsOfConcat(after, rest);
        DollarsOfConcat("*.", rest);
        assert template[1..][1..] == template[2..];
        assert "" + rest == rest;
        assert ("$" + rest)[1..] == rest;
      } else {
        PatternsLoseDollars(template[1..], after);
      }
    }
  }

  /**
   * A relative name resolves to the sibling field if the prefix has no replacement pattern - and only
   * then, for a sibling without a dollar sign of its own.
   */
  lemma {:induction false} RelativeNameIsSiblingIff(prefix: string, field: string, other: string)
    requires IsModelPrefix(prefix) && DotFree(field)
    ensures !HasPattern(prefix) ==>
              AppendModelPrefix("*." + other, GetModelPrefix(prefix + field)) == prefix + other
    ensures DollarFree(other) && AppendModelPrefix("*." + other, GetModelPrefix(prefix + field)) == prefix + other
            ==> !HasPattern(prefix)
  {
    PrefixOfField(prefix, field);
    var value := "*." + other;
    assert value[2..] == other;
    if !HasPattern(prefix) {
      NoPatternMeansItself(prefix, other);
    } else if DollarFree(other) {
      PatternsLoseDollars(prefix, other);
      DollarsOfConcat(prefix, other);
      DollarsOfConcat(Substitution(prefix, other), other);
    }
  }

  /** What each replacement pattern puts before the sibling's name: a dollar sign, the match, nothing, the name again. */
  lemma PatternsMean(other: string)
    ensures AppendModelPrefix("*." + other, "$$") == "$" + other
    ensures AppendModelPrefix("*." + other, "$&") == "*." + other
    ensures AppendModelPrefix("*." + other, "$`") == other
    ensures AppendModelPrefix("*." + other, "$'") == other + other
  {
    assert ("*." + other)[2..] == other;
    assert "$$"[2..] == "$&"[2..] == "$`"[2..] == "$'"[2..] == "";
    assert Substitution("", other) == "";
    assert Substitution("$$", other) == "$" && Substitution("$&", other) == "*.";
    assert Substitution("$`", other) == "" && Substitution("$'", other) == other;
    assert "" + other == other;
  }

  /** A prefix with doubled dollar signs is not preserved. */
  lemma DoubledDollarIsHalved()
    ensures AppendModelPrefix("*.y", GetModelPrefix("a$$.x")) == "a$.y"
  {
    var prefix := "a$$.";
    PrefixOfField(prefix, "x");
    assert prefix + "x" == "a$$.x";
    assert prefix[1..] == "$$." && "$$."[2..] == "." && "."[1..] == "";
    assert Substitution(".", "y") == ".";
    assert Substitution("$$.", "y") == "$.";
    assert Substitution(prefix, "y") == "a$.";
    assert "*.y"[2..] == "y";
  }
}
