/** The state of one index's search: the next page, the range fields, and when the search is complete. */
module SearchIterator {
  import opened Decimal
  import opened RangeField

  /** A field of the query; only ranges become iterator state. */
  datatype FieldValue = RangeOf(values: seq<string>) | Other

  /** The iterator as a value. */
  datatype Iterator = Iterator(
    fields: map<string, Range>,
    startingPage: nat, currentPage: nat, pageCount: nat,
    stopOnStale: bool, reachedStale: bool,
    discovered: nat)
  {
    predicate HasNextField() {
      exists f <- fields.Keys :: fields[f].HasNext()
    }

    predicate ExceededPages() {
      pageCount != 0 && pageCount <= currentPage - startingPage && currentPage - startingPage != 0
    }

    predicate Complete() {
      ExceededPages() || (|fields| > 0 && !HasNextField()) || (stopOnStale && reachedStale)
    }

    function Shown(): map<string, string> {
      map f <- fields.Keys :: fields[f].GetCurrent()
    }

    function Stepped(): Iterator {
      this.(fields := map f <- fields.Keys :: fields[f].Incremented(), currentPage := currentPage + 1)
    }

    /** After a batch of results, given which of them were new. */
    function Updated(isNew: seq<bool>): Iterator {
      this.(discovered := discovered + |isNew|, reachedStale := reachedStale || (stopOnStale && false in isNew))
    }
  }

  ghost function RangesOf(fields: map<string, FieldValue>): map<string, Range>
    requires WellFormed(fields)
  {
    map f <- fields.Keys | fields[f].RangeOf? :: Range(fields[f].values[0], fields[f].values[1], "")
  }

  /** The first two values of a range are read without a check. */
  ghost predicate WellFormed(fields: map<string, FieldValue>) {
    forall f <- fields.Keys :: fields[f].RangeOf? ==> |fields[f].values| >= 2
  }

  function Fresh(fields: map<string, Range>, page: nat, pages: nat, stopOnStale: bool): Iterator {
    Iterator(fields, page, page, pages, stopOnStale, false, 0)
  }

  class SearchStateIterator {
    var fieldState: map<string, RangeFieldState>
    const startingPage: nat
    var currentPage: nat
    const pageCount: nat
    const stopOnStale: bool
    var reachedStale: bool
    var discoveredItems: nat

    ghost predicate Valid()
      reads this
    {
      forall f <- fieldState.Keys, g <- fieldState.Keys :: f != g ==> fieldState[f] != fieldState[g]
    }

    ghost function View(): Iterator
      reads this, fieldState.Values
    {
      Iterator(map f <- fieldState.Keys :: fieldState[f].View(), startingPage, currentPage, pageCount,
               stopOnStale, reachedStale, discoveredItems)
    }

    constructor (queryFields: map<string, FieldValue>, page: nat, pages: nat, stopOnStale: bool)
      requires WellFormed(queryFields)
      ensures Valid() && forall f <- fieldState.Keys :: fresh(fieldState[f])
      ensures View() == Fresh(RangesOf(queryFields), page, pages, stopOnStale)
      ensures startingPage == currentPage == page && pageCount == pages && this.stopOnStale == stopOnStale
      ensures !reachedStale && discoveredItems == 0
      ensures fieldState.Keys == set f <- queryFields.Keys | queryFields[f].RangeOf?
      ensures forall f <- fieldState.Keys :: fieldState[f].View() == Range(queryFields[f].values[0], queryFields[f].values[1], "")
    {
      startingPage, currentPage, pageCount, this.stopOnStale := page, page, pages, stopOnStale;
      fieldState, reachedStale, discoveredItems := map[], false, 0;
      new;
      hide Range.Incremented, Range.GetCurrent, Range.HasNext, Fresh, RangesOf, View;
      var left := queryFields.Keys;
      while left != {}
        invariant left <= queryFields.Keys && Valid() && forall f <- fieldState.Keys :: fresh(fieldState[f])
        invariant currentPage == page && !reachedStale && discoveredItems == 0
        invariant fieldState.Keys == set f <- queryFields.Keys | f !in left && queryFields[f].RangeOf?
        invariant forall f <- fieldState.Keys :: fieldState[f].View() == Range(queryFields[f].values[0], queryFields[f].values[1], "")
        decreases left
      {
        var f :| f in left;
        left := left - {f};
        if queryFields[f].RangeOf? {
          var state := new RangeFieldState(queryFields[f].values[0], queryFields[f].values[1]);
          fieldState := fieldState[f := state];
        }
      }
      MadeFresh(queryFields);
    }

    lemma MadeFresh(queryFields: map<string, FieldValue>)
      requires WellFormed(queryFields) && currentPage == startingPage && !reachedStale && discoveredItems == 0
      requires fieldState.Keys == set f <- queryFields.Keys | queryFields[f].RangeOf?
      requires forall f <- fieldState.Keys :: fieldState[f].View() == Range(queryFields[f].values[0], queryFields[f].values[1], "")
      ensures View() == Fresh(RangesOf(queryFields), startingPage, pageCount, stopOnStale)
    {
    }

    method HasNextFieldState() returns (b: bool)
      ensures b == View().HasNextField()
    {
      var left := fieldState.Keys;
      while left != {}
        invariant left <= fieldState.Keys
        invariant forall f <- fieldState.Keys - left :: !fieldState[f].View().HasNext()
        decreases left
      {
        var f :| f in left;
        b := fieldState[f].HasNext();
        if b {
          assert View().fields[f].HasNext();
          return;
        }
        left := left - {f};
      }
      b := false;
    }

    /** Amid Next: the fields of `left` are still as they were. */
    ghost predicate Amid(was: map<string, Range>, left: set<string>)
      reads this`fieldState, fieldState.Values
    {
      was.Keys == fieldState.Keys &&
      forall f <- fieldState.Keys :: fieldState[f].View() == if f in left then was[f] else was[f].Incremented()
    }

    method StepField(f: string, ghost was: map<string, Range>, ghost left: set<string>) returns (val: string)
      requires Valid() && f in left && left <= fieldState.Keys && Amid(was, left)
      modifies fieldState[f]
      ensures Amid(was, left - {f}) && val == was[f].GetCurrent()
    {
      hide Range.Incremented, Range.GetCurrent;
      val := fieldState[f].GetCurrent();
      fieldState[f].Increment();
    }

    /** The loop of Next over the field states. */
    method StepFields(ghost was: map<string, Range>) returns (fields: map<string, string>)
      requires Valid() && Amid(was, fieldState.Keys)
      modifies fieldState.Values
      ensures Amid(was, {}) && fields == map f <- was.Keys :: was[f].GetCurrent()
    {
      hide Range.Incremented, Range.GetCurrent;
      fields := map[];
      var left := fieldState.Keys;
      while left != {}
        invariant left <= fieldState.Keys && Amid(was, left)
        invariant fields.Keys == was.Keys - left && forall f <- fields.Keys :: fields[f] == was[f].GetCurrent()
        decreases left
      {
        var f :| f in left;
        var val := StepField(f, was, left);
        fields := fields[f := val];
        left := left - {f};
      }
    }

    /** Answers with the values and the page to search for, and moves on. */
    method Next() returns (fields: map<string, string>, page: nat)
      requires Valid()
      modifies this`currentPage, fieldState.Values
      ensures Valid() && View() == old(View()).Stepped()
      ensures page == old(currentPage) && fields == old(View()).Shown()
    {
      hide Range.Incremented, Range.GetCurrent, Amid;
      ghost var was := View().fields;
      page := currentPage;
      NothingStepped(was);
      fields := StepFields(was);
      currentPage := currentPage + 1;
      AllStepped(was);
    }

    lemma NothingStepped(was: map<string, Range>)
      requires was == View().fields
      ensures Amid(was, fieldState.Keys)
    {
    }

    lemma AllStepped(was: map<string, Range>)
      requires Amid(was, {})
      ensures View().fields == map f <- was.Keys :: was[f].Incremented()
    {
      hide Range.Incremented;
    }

    method UpdateIteratorState(isNew: seq<bool>)
      modifies this`discoveredItems, this`reachedStale
      ensures View() == old(View()).Updated(isNew) && discoveredItems == old(discoveredItems) + |isNew|
      ensures reachedStale <==> old(reachedStale) || (stopOnStale && exists i :: 0 <= i < |isNew| && !isNew[i])
    {
      discoveredItems := discoveredItems + |isNew|;
      if !stopOnStale {
        return;
      }
      var i := 0;
      while i < |isNew|
        invariant 0 <= i <= |isNew| && false !in isNew[..i]
        invariant reachedStale == old(reachedStale)
      {
        if !isNew[i] {
          reachedStale := true;
          break;
        }
        i := i + 1;
      }
    }

    method IsComplete() returns (b: bool)
      ensures b == View().Complete()
    {
      var hasNextFieldState := HasNextFieldState();
      var isPageLimited := pageCount != 0;
      var pagesTraversed := currentPage - startingPage;
      var hasExceededPages := isPageLimited && (pageCount != 0 && pageCount <= pagesTraversed && pagesTraversed != 0);
      var hasFields := |fieldState| > 0;
      assert View().fields.Keys == fieldState.Keys;
      assert |View().fields| == |fieldState|;
      if !hasFields && hasExceededPages {
        return true;
      } else if isPageLimited && hasExceededPages {
        return true;
      } else if hasFields && !hasNextFieldState {
        return true;
      } else if stopOnStale && reachedStale {
        return true;
      }
      return !hasNextFieldState && hasExceededPages;
    }
  }

  // ---------- the schedule ----------

  function Steps(it: Iterator, k: nat): Iterator {
    if k == 0 then it else Steps(it, k - 1).Stepped()
  }

  /** Fresh range fields whose ends fit 64 bits and lie above their starts. */
  ghost predicate Ascending(fields: map<string, Range>) {
    forall f <- fields.Keys ::
      var r := fields[f];
      r.current == "" && IsRange(r.start, r.end) && Value(r.start) < Value(r.end) <= MAX_INT
  }

  ghost function Span(r: Range): int
    requires IsRange(r.start, r.end)
  {
    Value(r.end) - Value(r.start)
  }

  lemma {:induction false} StepsFields(fields: map<string, Range>, page: nat, pages: nat, stop: bool, k: nat)
    requires forall f <- fields.Keys :: fields[f].current == ""
    ensures var it := Steps(Fresh(fields, page, pages, stop), k);
            && it.(fields := fields) == Fresh(fields, page, pages, stop).(currentPage := page + k)
            && it.fields.Keys == fields.Keys
            && forall f <- fields.Keys :: it.fields[f] == After(fields[f].start, fields[f].end, k)
  {
    hide Range.Incremented;
    if k > 0 {
      StepsFields(fields, page, pages, stop, k - 1);
    }
  }

  /** The k-th call of Next answers page start + k and, for each field, its start + k, padded, never past its end. */
  lemma Schedule(fields: map<string, Range>, page: nat, pages: nat, stop: bool, k: nat)
    requires Ascending(fields)
    ensures var it := Steps(Fresh(fields, page, pages, stop), k);
            && it.currentPage == page + k
            && it.Shown().Keys == fields.Keys
            && forall f <- fields.Keys :: it.Shown()[f] == Padded(|fields[f].end|, Value(fields[f].start) + Min(k, Span(fields[f])))
  {
    hide Value, Padded, Range.GetCurrent, AllDigits, Steps, After, Itoa, Atoi, Range.Incremented;
    StepsFields(fields, page, pages, stop, k);
    forall f | f in fields.Keys
      ensures ShowsAfter(fields[f].start, fields[f].end, k, Value(fields[f].start) + Min(k, Span(fields[f])))
    {
      Ascends(fields[f].start, fields[f].end, k);
    }
  }

  /** Without stale results the search is complete from the call on that reaches the page limit, or that
      has taken every field to its end, whichever comes first. */
  lemma CompletesExactly(fields: map<string, Range>, page: nat, pages: nat, stop: bool, k: nat)
    requires Ascending(fields)
    ensures Steps(Fresh(fields, page, pages, stop), k).Complete()
            <==> (pages != 0 && k >= pages) || (|fields| > 0 && forall f <- fields.Keys :: k >= Span(fields[f]))
  {
    hide Value, Padded, Range.GetCurrent, AllDigits, Steps, After, Itoa, Atoi, Range.Incremented;
    StepsFields(fields, page, pages, stop, k);
    var it := Steps(Fresh(fields, page, pages, stop), k);
    assert |it.fields| == |it.fields.Keys| == |fields|;
    forall f | f in fields.Keys ensures it.fields[f].HasNext() <==> k < Span(fields[f]) {
      Ascends(fields[f].start, fields[f].end, k);
    }
  }

  /** Whatever the iterator, once complete it stays complete. */
  lemma CompleteStays(it: Iterator, isNew: seq<bool>)
    requires it.Complete() && it.startingPage <= it.currentPage
    ensures it.Stepped().Complete() && it.Updated(isNew).Complete()
  {
    hide Padded, Atoi, Range.GetCurrent;
    var next := it.Stepped();
    assert next.fields.Keys == it.fields.Keys;
    assert |next.fields| == |next.fields.Keys| == |it.fields|;
    if next.HasNextField() {
      var f :| f in next.fields.Keys && next.fields[f].HasNext();
      assert it.fields[f].HasNext();
    }
  }

  // ---------- searches with their results ----------

  /** What is done with an iterator: a job is made, or the results of a job are counted, given which of them were new. */
  datatype Call = MakeJob | Count(isNew: seq<bool>)

  function Called(it: Iterator, call: Call): Iterator {
    if call.MakeJob? then it.Stepped() else it.Updated(call.isNew)
  }

  function Calls(it: Iterator, calls: seq<Call>): Iterator {
    if calls == [] then it else Called(Calls(it, calls[..|calls| - 1]), calls[|calls| - 1])
  }

  function JobsIn(calls: seq<Call>): nat {
    if calls == [] then 0 else JobsIn(calls[..|calls| - 1]) + (if calls[|calls| - 1].MakeJob? then 1 else 0)
  }

  function ResultsIn(calls: seq<Call>): nat {
    if calls == [] then 0
    else ResultsIn(calls[..|calls| - 1]) + (if calls[|calls| - 1].Count? then |calls[|calls| - 1].isNew| else 0)
  }

  predicate HasStale(call: Call) {
    call.Count? && exists i :: 0 <= i < |call.isNew| && !call.isNew[i]
  }

  /** Results end a search exactly if searches stop on stale results and one of them is not new. */
  lemma ResultsEndExactly(it: Iterator, isNew: seq<bool>)
    ensures it.Updated(isNew).Complete() <==> it.Complete() || (it.stopOnStale && exists i :: 0 <= i < |isNew| && !isNew[i])
    ensures it.Updated(isNew).discovered == it.discovered + |isNew|
  {
    if it.stopOnStale {
      assert it.Updated(isNew).ExceededPages() == it.ExceededPages();
      assert it.Updated(isNew).HasNextField() == it.HasNextField();
      assert false in isNew <==> exists i :: 0 <= i < |isNew| && !isNew[i];
    }
  }

  lemma StaleNext(calls: seq<Call>)
    requires calls != []
    ensures (exists c <- calls :: HasStale(c)) <==>
            (exists c <- calls[..|calls| - 1] :: HasStale(c)) || HasStale(calls[|calls| - 1])
  {
    assert calls == calls[..|calls| - 1] + [calls[|calls| - 1]];
  }

  /** Jobs move the iterator on whatever is counted between them; what is counted adds up, and is stale from the first batch on
      that is. */
  lemma {:induction false} CallsAre(it: Iterator, calls: seq<Call>)
    ensures Calls(it, calls) == Steps(it, JobsIn(calls)).(
                                  discovered := it.discovered + ResultsIn(calls),
                                  reachedStale := it.reachedStale || (it.stopOnStale && exists c <- calls :: HasStale(c)))
  {
    hide Iterator.Stepped;
    StepsKeep(it, JobsIn(calls));
    if calls == [] {
      assert Calls(it, calls) == it;
    } else {
      var init, last := calls[..|calls| - 1], calls[|calls| - 1];
      CallsAre(it, init);
      StaleNext(calls);
      StepsKeep(it, JobsIn(init));
      StepsApart(Steps(it, JobsIn(init)), it.discovered + ResultsIn(init),
                 it.reachedStale || (it.stopOnStale && exists c <- init :: HasStale(c)));
      if last.Count? {
        assert false in last.isNew <==> HasStale(last);
      }
    }
  }

  lemma StepsApart(it: Iterator, discovered: nat, reachedStale: bool)
    ensures it.(discovered := discovered, reachedStale := reachedStale).Stepped() ==
            it.Stepped().(discovered := discovered, reachedStale := reachedStale)
  {
  }

  lemma {:induction false} StepsKeep(it: Iterator, k: nat)
    ensures Steps(it, k) == it.(fields := Steps(it, k).fields, currentPage := Steps(it, k).currentPage)
  {
    if k > 0 {
      StepsKeep(it, k - 1);
    }
  }

  /** For any mix of jobs and results: the search is complete exactly if it has made as many jobs as the page limit, or as the
      longest field is long, or if it stops on stale results and some result was not new. */
  lemma SearchEndsExactly(fields: map<string, Range>, page: nat, pages: nat, stop: bool, calls: seq<Call>)
    requires Ascending(fields)
    ensures Calls(Fresh(fields, page, pages, stop), calls).Complete() <==>
            || (pages != 0 && JobsIn(calls) >= pages)
            || (|fields| > 0 && forall f <- fields.Keys :: JobsIn(calls) >= Span(fields[f]))
            || (stop && exists c <- calls :: c.Count? && exists i :: 0 <= i < |c.isNew| && !c.isNew[i])
  {
    hide Ascending, Span, Range.HasNext, Steps;
    var it := Fresh(fields, page, pages, stop);
    CallsAre(it, calls);
    CompletesExactly(fields, page, pages, stop, JobsIn(calls));
    StepsKeep(it, JobsIn(calls));
    assert (exists c <- calls :: HasStale(c)) <==> exists c <- calls :: c.Count? && exists i :: 0 <= i < |c.isNew| && !c.isNew[i];
  }

  /** And the next job is for page start + k and shows start + min(k, end - start) of each field after k jobs, whatever results came
      between. */
  lemma NextJob(fields: map<string, Range>, page: nat, pages: nat, stop: bool, calls: seq<Call>)
    requires Ascending(fields)
    ensures var it, k := Calls(Fresh(fields, page, pages, stop), calls), JobsIn(calls);
            && it.currentPage == page + k && it.discovered == ResultsIn(calls)
            && it.Shown().Keys == fields.Keys
            && forall f <- fields.Keys :: it.Shown()[f] == Padded(|fields[f].end|, Value(fields[f].start) + Min(k, Span(fields[f])))
  {
    hide Value, Padded, Steps, Span, Min, Ascending;
    CallsAre(Fresh(fields, page, pages, stop), calls);
    Schedule(fields, page, pages, stop, JobsIn(calls));
  }
}
