/** Sequences in which nothing occurs twice. */
module Sequences {
  ghost predicate NoRepeats<T>(s: seq<T>) {
    forall i, j :: 0 <= i < j < |s| ==> s[i] != s[j]
  }

  function Elements<T(==)>(s: seq<T>): set<T> {
    set x <- s
  }

  lemma ElementsBehind<T>(s: seq<T>, last: T)
    ensures Elements(s + [last]) == Elements(s) + {last}
  {
  }

  lemma {:induction false} AsManyElements<T>(s: seq<T>)
    requires NoRepeats(s)
    ensures |Elements(s)| == |s|
  {
    if s == [] {
      assert Elements(s) == {};
    } else {
      var init, last := s[..|s| - 1], s[|s| - 1];
      AsManyElements(init);
      assert Elements(s) == Elements(init) + {last};
    }
  }

  function Below(n: nat): (r: set<nat>)
    ensures |r| == n && forall i: nat :: i in r <==> i < n
  {
    if n == 0 then {} else Below(n - 1) + {n - 1}
  }
}
