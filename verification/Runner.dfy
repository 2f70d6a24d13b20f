/** Turning scraped rows into results, up to the limit of the query. */
module Runner {
  import opened Options
  import opened WorkPool

  /** The items of the rows that could be extracted. */
  function Extracted(rows: seq<Option<Item>>): seq<Item> {
    if rows == [] then []
    else
      var last := rows[|rows| - 1];
      Extracted(rows[..|rows| - 1]) + (if last.Some? then [last.value] else [])
  }

  lemma {:induction false} ExtractedPrefix(rows: seq<Option<Item>>, n: nat)
    requires n <= |rows|
    ensures Extracted(rows[..n]) <= Extracted(rows)
  {
    if n < |rows| {
      ExtractedPrefix(rows[..|rows| - 1], n);
      assert rows[..|rows| - 1][..n] == rows[..n];
    } else {
      assert rows[..n] == rows;
    }
  }

  /** What can be extracted of rows is what can be of their parts, one behind the other, down to the single row. */
  lemma {:induction false} ExtractedInOrder(a: seq<Option<Item>>, b: seq<Option<Item>>)
    ensures Extracted(a + b) == Extracted(a) + Extracted(b)
    ensures forall x :: Extracted([Some(x)]) == [x]
    ensures Extracted([None]) == []
  {
    assert forall x: Option<Item> :: [x][..0] == [];
    if b == [] {
      assert a + b == a;
    } else {
      ExtractedInOrder(a, b[..|b| - 1]);
      assert (a + b)[..|a + b| - 1] == a + b[..|b| - 1];
    }
  }

  /** The first `limit` items that can be extracted, or all of them without a limit. */
  method ProcessScrapedItems(limit: nat, rows: seq<Option<Item>>) returns (results: seq<Item>)
    ensures results == if limit > 0 && limit < |Extracted(rows)| then Extracted(rows)[..limit] else Extracted(rows)
    ensures limit > 0 ==> |results| <= limit
  {
    results := [];
    var i := 0;
    while i < |rows|
      invariant 0 <= i <= |rows|
      invariant results == Extracted(rows[..i])
      invariant limit > 0 ==> |results| <= limit
    {
      if HasEnough(limit, |results|) {
        break;
      }
      assert rows[..i + 1][..i] == rows[..i];
      if rows[i].Some? {
        results := results + [rows[i].value];
      }
      i := i + 1;
    }
    ExtractedPrefix(rows, i);
    assert i == |rows| ==> rows[..i] == rows;
  }
}
