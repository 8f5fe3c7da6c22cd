/** Small helpers shared by the modules of this project. */
module Common {

  datatype Option<+T> = None | Some(value: T)

  /** The sequence without its last element. */
  function Front<T>(s: seq<T>): seq<T>
    requires s != []
  {
    s[..|s| - 1]
  }

  function Last<T>(s: seq<T>): T
    requires s != []
  {
    s[|s| - 1]
  }

  function SetLast<T>(s: seq<T>, x: T): seq<T>
    requires s != []
  {
    Front(s) + [x]
  }

  lemma FrontOfAppend<T>(s: seq<T>, x: T)
    ensures Front(s + [x]) == s && Last(s + [x]) == x
  {
  }

  /** Extending a sequence keeps its prefixes. */
  lemma PrefixOfAppend<T>(p: seq<T>, s: seq<T>, t: seq<T>)
    requires p <= s
    ensures p <= s + t
  {
  }

  lemma ConcatAssoc<T>(a: seq<T>, b: seq<T>, c: seq<T>)
    ensures a + (b + c) == (a + b) + c
  {
  }

  /** Growing a sequence by what two others grow by together keeps it their sum. */
  lemma SumGrows<T>(sum: seq<T>, s: seq<T>, a: seq<T>, x: seq<T>, b: seq<T>, y: seq<T>)
    requires multiset(sum) == multiset(a) + multiset(b)
    requires multiset(s) == multiset(x) + multiset(y)
    ensures multiset(sum + s) == multiset(a + x) + multiset(b + y)
  {
    assert multiset(sum + s) == multiset(sum) + multiset(s);
    assert multiset(a + x) == multiset(a) + multiset(x);
    assert multiset(b + y) == multiset(b) + multiset(y);
  }

  /** A balance is kept when what moves from the one side to the other is counted on both. */
  lemma Balance<T>(a: seq<T>, x: seq<T>, dx: seq<T>, b: seq<T>, y: seq<T>, dy: seq<T>, middle: seq<T>)
    requires multiset(middle) + multiset(x) == multiset(b) + multiset(y)
    requires multiset(a) + multiset(dx) == multiset(middle) + multiset(dy)
    ensures multiset(a) + multiset(x + dx) == multiset(b) + multiset(y + dy)
  {
    assert multiset(a) + multiset(x + dx) == (multiset(a) + multiset(dx)) + multiset(x);
    assert multiset(b) + multiset(y + dy) == (multiset(b) + multiset(y)) + multiset(dy);
    assert (multiset(middle) + multiset(dy)) + multiset(x) == (multiset(middle) + multiset(x)) + multiset(dy);
  }
}
