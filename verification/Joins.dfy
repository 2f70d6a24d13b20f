/** Joining strings with a separator between them. */
module Joins {

  function Join(parts: seq<string>, sep: string): string {
    if parts == [] then ""
    else if |parts| == 1 then parts[0]
    else parts[0] + sep + Join(parts[1..], sep)
  }

  /** Two neighbouring parts, joined to one, give the same value. */
  lemma {:induction false} JoinMerge(before: seq<string>, x: string, y: string, after: seq<string>, sep: string)
    ensures Join(before + [x, y] + after, sep) == Join(before + [x + sep + y] + after, sep)
  {
    var two, one := before + [x, y] + after, before + [x + sep + y] + after;
    if before == [] {
      assert two[1..] == [y] + after && one[1..] == after;
      assert two[1..][1..] == after;
      if after == [] {
        assert Join([y], sep) == y;
      } else {
        assert Join([y] + after, sep) == y + sep + Join(after, sep);
        assert x + sep + (y + sep + Join(after, sep)) == x + sep + y + sep + Join(after, sep);
      }
    } else {
      JoinMerge(before[1..], x, y, after, sep);
      assert two[1..] == before[1..] + [x, y] + after && one[1..] == before[1..] + [x + sep + y] + after;
    }
  }

  lemma {:induction false} JoinLast(names: seq<string>, last: string, sep: string)
    requires names != []
    ensures Join(names + [last], sep) == Join(names, sep) + sep + last
  {
    assert (names + [last])[1..] == names[1..] + [last];
    if |names| > 1 {
      JoinLast(names[1..], last, sep);
    }
  }
}
