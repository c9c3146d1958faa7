/** In-order selection of the elements of a sequence that satisfy a test. */
module Selection {

  function Select<T>(keep: T -> bool, s: seq<T>): seq<T> {
    if s == [] then []
    else
      var front := Select(keep, s[..|s| - 1]);
      if keep(s[|s| - 1]) then front + [s[|s| - 1]] else front
  }

  lemma SelectNone<T>(keep: T -> bool)
    ensures Select(keep, []) == []
  {
  }

  lemma SelectAppend<T>(keep: T -> bool, s: seq<T>, x: T)
    ensures Select(keep, s + [x]) == if keep(x) then Select(keep, s) + [x] else Select(keep, s)
  {
    assert (s + [x])[..|s|] == s;
  }

  lemma {:induction false} SelectConcat<T>(keep: T -> bool, a: seq<T>, b: seq<T>)
    ensures Select(keep, a + b) == Select(keep, a) + Select(keep, b)
  {
    if b == [] {
      assert a + b == a;
    } else {
      var front, last := b[..|b| - 1], b[|b| - 1];
      SelectConcat(keep, a, front);
      assert a + b == (a + front) + [last];
      SelectAppend(keep, a + front, last);
    }
  }

  /** Selecting twice with nested tests is selecting once. */
  lemma {:induction false} SelectNested<T>(narrow: T -> bool, wide: T -> bool, s: seq<T>)
    requires forall x | x in s && narrow(x) :: wide(x)
    ensures Select(narrow, Select(wide, s)) == Select(narrow, s)
  {
    if s != [] {
      var front, last := s[..|s| - 1], s[|s| - 1];
      assert last in s;
      SelectNested(narrow, wide, front);
      SelectAppend(narrow, Select(wide, front), last);
    }
  }

  lemma {:induction false} SelectPrefix<T>(keep: T -> bool, a: seq<T>, b: seq<T>)
    requires a <= b
    ensures Select(keep, a) <= Select(keep, b)
  {
    SelectConcat(keep, a, b[|a|..]);
    assert b == a + b[|a|..];
  }
}
