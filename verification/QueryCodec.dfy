/** Queries as URL parameters: writing the parameters of a query, and reading a query from parameters. */
module QueryCodec {
  import opened Options
  import opened Decimal
  import opened Joins

  /** The parameters by name, with all the values given for each. */
  type Values = map<string, seq<string>>

  /** What is searched for. */
  datatype Terms = Terms(queryString: string, series: string, ep: string, season: string, movie: string, year: string)

  /** The identifiers of what is searched for. */
  datatype Ids = Ids(tvdb: string, tvRage: string, imdb: string, tvMaze: string, trakt: string)

  /** What a search is told beside the parameters that are written. */
  datatype Extras = Extras(fields: map<string, seq<string>>, stopOnStale: bool, pagesToFetch: int, page: int)

  datatype Query = Query(kind: string, terms: Terms, limit: int, offset: int, extended: bool, categories: seq<int>,
                         apiKey: string, ids: Ids, extras: Extras)

  const DEFAULT_LIMIT := 20

  // ---------- unsigned numbers ----------

  predicate IsUint(u: int) {
    0 <= u < TWO_64
  }

  /** int(u) */
  function ToInt(u: int): (i: int)
    requires IsUint(u)
    ensures IsInt(i)
  {
    if u > MAX_INT then u - TWO_64 else u
  }

  /** uint(i) */
  function ToUint(i: int): (u: int)
    requires IsInt(i)
    ensures IsUint(u)
  {
    if i < 0 then i + TWO_64 else i
  }

  lemma UintRoundTrip(u: int)
    requires IsUint(u)
    ensures Atoi(Itoa(ToInt(u))) == (ToInt(u), true) && ToUint(ToInt(u)) == u
  {
    AtoiOfItoa(ToInt(u));
  }

  // ---------- lists of numbers ----------

  /** strings.Split by one character: there is always at least one part. */
  function Split(s: string, delim: char): (parts: seq<string>)
    ensures parts != []
  {
    if s == "" then [""]
    else
      var rest := Split(s[1..], delim);
      if s[0] == delim then [""] + rest else [[s[0]] + rest[0]] + rest[1..]
  }

  lemma {:induction false} SplitOne(part: string, delim: char)
    requires delim !in part
    ensures Split(part, delim) == [part]
  {
    if part == "" {
      assert Split(part, delim) == [""];
    } else {
      SplitOne(part[1..], delim);
      assert part == [part[0]] + part[1..];
    }
  }

  lemma {:induction false} SplitFirst(part: string, rest: string, delim: char)
    requires delim !in part
    ensures Split(part + [delim] + rest, delim) == [part] + Split(rest, delim)
  {
    var s := part + [delim] + rest;
    if part == "" {
      assert s[1..] == rest;
    } else {
      SplitFirst(part[1..], rest, delim);
      assert s[1..] == part[1..] + [delim] + rest;
      assert part == [part[0]] + part[1..];
    }
  }

  /** Splitting undoes joining, for parts without the separator. */
  lemma {:induction false} SplitOfJoin(parts: seq<string>, delim: char)
    requires parts != [] && forall i :: 0 <= i < |parts| ==> delim !in parts[i]
    ensures Split(Join(parts, [delim]), delim) == parts
  {
    hide Split;
    if |parts| == 1 {
      SplitOne(parts[0], delim);
      assert parts == [parts[0]];
    } else {
      assert parts == [parts[0]] + parts[1..];
      SplitOfJoin(parts[1..], delim);
      SplitFirst(parts[0], Join(parts[1..], [delim]), delim);
    }
  }

  predicate AllNumbers(parts: seq<string>) {
    forall i :: 0 <= i < |parts| ==> Atoi(parts[i]).1
  }

  function NumbersOf(parts: seq<string>): (r: seq<int>)
    ensures |r| == |parts| && forall i :: 0 <= i < |parts| ==> r[i] == Atoi(parts[i]).0
  {
    seq(|parts|, i requires 0 <= i < |parts| => Atoi(parts[i]).0)
  }

  /** The numbers in front of the first part that is none, and whether there was no such part. */
  method SplitInts(s: string, delim: char) returns (ints: seq<int>, ok: bool)
    ensures ok <==> AllNumbers(Split(s, delim))
    ensures ints <= NumbersOf(Split(s, delim))
    ensures if ok then |ints| == |Split(s, delim)| else |ints| < |Split(s, delim)| && !Atoi(Split(s, delim)[|ints|]).1
  {
    ints := [];
    var parts := Split(s, delim);
    var i := 0;
    while i < |parts|
      invariant 0 <= i <= |parts| && ints == NumbersOf(parts)[..i]
      invariant forall j :: 0 <= j < i ==> Atoi(parts[j]).1
    {
      var v := Atoi(parts[i]);
      if !v.1 {
        return ints, false;
      }
      ints := ints + [v.0];
      i := i + 1;
    }
    return ints, true;
  }

  lemma NoComma(i: int)
    ensures ',' !in Itoa(i)
  {
    assert AllDigits(Digits(if i < 0 then -i else i));
  }

  lemma NumbersRoundTrip(numbers: seq<int>)
    requires numbers != [] && forall i :: 0 <= i < |numbers| ==> IsInt(numbers[i])
    ensures var parts := Split(Join(Numerals(numbers), ","), ','); AllNumbers(parts) && NumbersOf(parts) == numbers
  {
    forall i | 0 <= i < |numbers| ensures ',' !in Numerals(numbers)[i] && Atoi(Numerals(numbers)[i]) == (numbers[i], true) {
      NoComma(numbers[i]);
      AtoiOfItoa(numbers[i]);
    }
    SplitOfJoin(Numerals(numbers), ',');
  }

  /** The numbers of all the values given for a parameter. */
  function AllNumbersOf(vals: seq<string>): seq<int> {
    if vals == [] then [] else AllNumbersOf(vals[..|vals| - 1]) + NumbersOf(Split(vals[|vals| - 1], ','))
  }

  predicate AllLists(vals: seq<string>) {
    forall i :: 0 <= i < |vals| ==> AllNumbers(Split(vals[i], ','))
  }

  method ParseCategories(vals: seq<string>) returns (categories: seq<int>, ok: bool)
    ensures ok <==> AllLists(vals)
    ensures ok ==> categories == AllNumbersOf(vals)
  {
    categories := [];
    var i := 0;
    while i < |vals|
      invariant 0 <= i <= |vals| && categories == AllNumbersOf(vals[..i])
      invariant forall j :: 0 <= j < i ==> AllNumbers(Split(vals[j], ','))
    {
      var ints, good := SplitInts(vals[i], ',');
      if !good {
        return categories, false;
      }
      assert vals[..i + 1][..i] == vals[..i];
      categories := categories + ints;
      i := i + 1;
    }
    assert vals[..i] == vals;
    return categories, true;
  }

  // ---------- names of parameters ----------

  datatype Name = Kind | Pages | Search | Series | Movie | Year | Ep | Season | ApiKey | Limit | Offset | Extended | Cat
                | TvdbId | Rid | TvMazeId | ImdbId | TraktId

  function KeyOf(n: Name): string {
    match n
    case Kind => "t"
    case Pages => "p"
    case Search => "q"
    case Series => "series"
    case Movie => "movie"
    case Year => "year"
    case Ep => "ep"
    case Season => "season"
    case ApiKey => "apikey"
    case Limit => "limit"
    case Offset => "offset"
    case Extended => "extended"
    case Cat => "cat"
    case TvdbId => "tvdbid"
    case Rid => "rid"
    case TvMazeId => "tvmazeid"
    case ImdbId => "imdbid"
    case TraktId => "traktid"
  }

  /** The parameter a key stands for; "l", "format" and all others stand for none. */
  function NameOf(k: string): Option<Name> {
    match k
    case "t" => Some(Kind)
    case "p" => Some(Pages)
    case "q" => Some(Search)
    case "series" => Some(Series)
    case "movie" => Some(Movie)
    case "year" => Some(Year)
    case "ep" => Some(Ep)
    case "season" => Some(Season)
    case "apikey" => Some(ApiKey)
    case "limit" => Some(Limit)
    case "offset" => Some(Offset)
    case "extended" => Some(Extended)
    case "cat" => Some(Cat)
    case "tvdbid" => Some(TvdbId)
    case "rid" => Some(Rid)
    case "tvmazeid" => Some(TvMazeId)
    case "imdbid" => Some(ImdbId)
    case "traktid" => Some(TraktId)
    case _ => None
  }

  lemma NamesDiffer(n: Name)
    ensures NameOf(KeyOf(n)) == Some(n)
  {
  }

  lemma NameHasKey(k: string)
    ensures NameOf(k).Some? ==> KeyOf(NameOf(k).value) == k
  {
  }

  lemma KeysStandForNames()
    ensures forall n :: NameOf(KeyOf(n)) == Some(n)
    ensures forall k :: NameOf(k).Some? ==> KeyOf(NameOf(k).value) == k
  {
    forall n ensures NameOf(KeyOf(n)) == Some(n) {
      NamesDiffer(n);
    }
    forall k ensures NameOf(k).Some? ==> KeyOf(NameOf(k).value) == k {
      NameHasKey(k);
    }
  }

  // ---------- writing ----------

  function Text(s: string): Option<string> {
    if s != "" then Some(s) else None
  }

  function Count(u: int): Option<string>
    requires IsUint(u)
  {
    if u != 0 then Some(Itoa(ToInt(u))) else None
  }

  function FlagText(flag: bool): Option<string> {
    if flag then Some("1") else None
  }

  function ListText(numbers: seq<int>): Option<string> {
    if |numbers| > 0 then Some(Join(Numerals(numbers), ",")) else None
  }

  /** The numbers of a query fit their types. */
  ghost predicate Typed(q: Query) {
    && IsUint(q.limit) && IsUint(q.offset) && IsUint(q.extras.pagesToFetch) && IsUint(q.extras.page)
    && forall i :: 0 <= i < |q.categories| ==> IsInt(q.categories[i])
  }

  /** The value that a query gives a parameter. */
  ghost function Written(q: Query, n: Name): Option<string>
    requires Typed(q)
  {
    match n
    case Kind => Some(if q.kind != "" then q.kind else "search")
    case Pages => None
    case Search => Text(q.terms.queryString)
    case Series => Text(q.terms.series)
    case Movie => Text(q.terms.movie)
    case Year => Text(q.terms.year)
    case Ep => Text(q.terms.ep)
    case Season => Text(q.terms.season)
    case ApiKey => Text(q.apiKey)
    case Limit => Count(q.limit)
    case Offset => Count(q.offset)
    case Extended => FlagText(q.extended)
    case Cat => ListText(q.categories)
    case TvdbId => Text(q.ids.tvdb)
    case Rid => Text(q.ids.tvRage)
    case TvMazeId => Text(q.ids.tvMaze)
    case ImdbId => Text(q.ids.imdb)
    case TraktId => Text(q.ids.trakt)
  }

  function Given(v: Values, n: Name): Option<seq<string>> {
    if KeyOf(n) in v then Some(v[KeyOf(n)]) else None
  }

  /** The order in which the parameters are written. */
  function Turn(n: Name): nat {
    match n
    case Kind => 0
    case Search => 1
    case Ep => 2
    case Season => 3
    case Movie => 4
    case Year => 5
    case Series => 6
    case Offset => 7
    case Limit => 8
    case Extended => 9
    case ApiKey => 10
    case Cat => 11
    case TvdbId => 12
    case Rid => 13
    case TvMazeId => 14
    case TraktId => 15
    case ImdbId => 16
    case Pages => 17
  }

  lemma TurnsDiffer(n: Name, m: Name)
    ensures Turn(n) == Turn(m) <==> n == m
  {
  }

  /** The values are those of the query for the first parameters, and no others. */
  ghost predicate EncodesFirst(v: Values, q: Query, turn: nat)
    requires Typed(q)
  {
    && (forall k <- v :: NameOf(k).Some?)
    && forall n :: Given(v, n) == if Turn(n) < turn && Written(q, n).Some? then Some([Written(q, n).value]) else None
  }

  ghost predicate Encodes(v: Values, q: Query)
    requires Typed(q)
  {
    && (forall k <- v :: NameOf(k).Some?)
    && forall n :: Given(v, n) == if Written(q, n).Some? then Some([Written(q, n).value]) else None
  }

  /** Sets the next parameter if it has a value. */
  method Set(v: Values, n: Name, value: Option<string>, ghost q: Query) returns (r: Values)
    requires Typed(q) && EncodesFirst(v, q, Turn(n)) && value == Written(q, n)
    ensures EncodesFirst(r, q, Turn(n) + 1)
  {
    hide KeyOf, NameOf, Written, Turn;
    KeysStandForNames();
    r := if value.Some? then v[KeyOf(n) := [value.value]] else v;
    forall m ensures (KeyOf(m) == KeyOf(n) ==> m == n) && (Turn(m) == Turn(n) <==> m == n) {
      assert NameOf(KeyOf(m)) == Some(m);
      TurnsDiffer(m, n);
    }
  }

  method Encode(q: Query) returns (v: Values)
    requires Typed(q)
    ensures Encodes(v, q)
  {
    hide EncodesFirst, Text, Count, FlagText, ListText, Written;
    v := EncodeSearch(q);
    WrittenRest(q);
    v := Set(v, Extended, FlagText(q.extended), q);
    v := Set(v, ApiKey, Text(q.apiKey), q);
    v := Set(v, Cat, ListText(q.categories), q);
    v := Set(v, TvdbId, Text(q.ids.tvdb), q);
    v := Set(v, Rid, Text(q.ids.tvRage), q);
    v := Set(v, TvMazeId, Text(q.ids.tvMaze), q);
    v := Set(v, TraktId, Text(q.ids.trakt), q);
    v := Set(v, ImdbId, Text(q.ids.imdb), q);
    AllWritten(v, q);
  }

  /** The first half of the parameters. */
  method EncodeSearch(q: Query) returns (v: Values)
    requires Typed(q)
    ensures EncodesFirst(v, q, Turn(Extended))
  {
    hide EncodesFirst, Text, Count, Written;
    NothingWritten(q);
    WrittenSearch(q);
    v := map[];
    v := Set(v, Kind, Some(if q.kind != "" then q.kind else "search"), q);
    v := Set(v, Search, Text(q.terms.queryString), q);
    v := Set(v, Ep, Text(q.terms.ep), q);
    v := Set(v, Season, Text(q.terms.season), q);
    v := Set(v, Movie, Text(q.terms.movie), q);
    v := Set(v, Year, Text(q.terms.year), q);
    v := Set(v, Series, Text(q.terms.series), q);
    v := Set(v, Offset, Count(q.offset), q);
    v := Set(v, Limit, Count(q.limit), q);
  }

  lemma NothingWritten(q: Query)
    requires Typed(q)
    ensures EncodesFirst(map[], q, 0)
  {
  }

  lemma WrittenSearch(q: Query)
    requires Typed(q)
    ensures Written(q, Kind) == Some(if q.kind != "" then q.kind else "search")
    ensures Written(q, Search) == Text(q.terms.queryString)
    ensures Written(q, Ep) == Text(q.terms.ep) && Written(q, Season) == Text(q.terms.season)
    ensures Written(q, Movie) == Text(q.terms.movie) && Written(q, Year) == Text(q.terms.year)
    ensures Written(q, Series) == Text(q.terms.series)
    ensures Written(q, Offset) == Count(q.offset) && Written(q, Limit) == Count(q.limit)
  {
  }

  lemma WrittenRest(q: Query)
    requires Typed(q)
    ensures Written(q, Extended) == FlagText(q.extended)
    ensures Written(q, ApiKey) == Text(q.apiKey)
    ensures Written(q, Cat) == ListText(q.categories)
    ensures Written(q, TvdbId) == Text(q.ids.tvdb) && Written(q, Rid) == Text(q.ids.tvRage)
    ensures Written(q, TvMazeId) == Text(q.ids.tvMaze) && Written(q, TraktId) == Text(q.ids.trakt)
    ensures Written(q, ImdbId) == Text(q.ids.imdb)
  {
  }

  lemma AllWritten(v: Values, q: Query)
    requires Typed(q) && EncodesFirst(v, q, Turn(Pages))
    ensures Encodes(v, q)
  {
  }

  // ---------- reading ----------

  function BoolOf(s: string): Option<bool> {
    if s in ["1", "t", "T", "TRUE", "true", "True"] then Some(true)
    else if s in ["0", "f", "F", "FALSE", "false", "False"] then Some(false)
    else None
  }

  /** The first value of these parameters is looked at, so there has to be one. */
  predicate TakesFirst(n: Name) {
    !(n.Search? || n.Series? || n.Movie? || n.Cat? || n.TraktId?)
  }

  ghost predicate NoneEmpty(v: Values) {
    forall n :: TakesFirst(n) && Given(v, n).Some? ==> Given(v, n).value != []
  }

  /** Whether the values given for a parameter are accepted. Broken page numbers are. */
  predicate Accepts(n: Name, vals: seq<string>)
    requires TakesFirst(n) ==> vals != []
  {
    if n.Cat? then AllLists(vals)
    else if !TakesFirst(n) || n.Pages? then true
    else |vals| == 1 && (n.Limit? || n.Offset? ==> Atoi(vals[0]).1) && (n.Extended? ==> BoolOf(vals[0]).Some?)
  }

  ghost predicate AcceptsAll(v: Values)
    requires NoneEmpty(v)
  {
    forall n :: Given(v, n).Some? ==> Accepts(n, Given(v, n).value)
  }

  function FirstOf(vals: seq<string>): string {
    if vals != [] then vals[0] else ""
  }

  function First(v: Values, n: Name): string {
    if Given(v, n).Some? then FirstOf(Given(v, n).value) else ""
  }

  function Joined(v: Values, n: Name): string {
    var vals := Given(v, n);
    if vals.Some? then Join(vals.value, " ") else ""
  }

  function Number(v: Values, n: Name, default: int): int {
    if Given(v, n).Some? then ToUint(Atoi(First(v, n)).0) else default
  }

  function Numbers(v: Values, n: Name): seq<int> {
    if Given(v, n).Some? then AllNumbersOf(Given(v, n).value) else []
  }

  function TermsOf(v: Values): Terms {
    Terms(Joined(v, Search), Joined(v, Series), First(v, Ep), First(v, Season), Joined(v, Movie), First(v, Year))
  }

  function GivenIds(v: Values): Ids {
    Ids(First(v, TvdbId), First(v, Rid), First(v, ImdbId), First(v, TvMazeId), "")
  }

  /** The query that accepted parameters stand for. */
  function Decoded(v: Values): Query {
    Query(First(v, Kind), TermsOf(v), Number(v, Limit, DEFAULT_LIMIT), Number(v, Offset, 0),
          BoolOf(First(v, Extended)) == Some(true), Numbers(v, Cat), First(v, ApiKey), GivenIds(v),
          Extras(map[], false, Number(v, Pages, 0), 0))
  }

  function ReadTerms(t: Terms, n: Name, first: string, joined: string): Terms {
    match n
    case Search => t.(queryString := joined)
    case Series => t.(series := joined)
    case Movie => t.(movie := joined)
    case Year => t.(year := first)
    case Ep => t.(ep := first)
    case Season => t.(season := first)
    case _ => t
  }

  function ReadIds(ids: Ids, n: Name, first: string): Ids {
    match n
    case TvdbId => ids.(tvdb := first)
    case Rid => ids.(tvRage := first)
    case TvMazeId => ids.(tvMaze := first)
    case ImdbId => ids.(imdb := first)
    case _ => ids
  }

  /** The query after one parameter was read. */
  function Read(q: Query, n: Name, vals: seq<string>): Query
    requires TakesFirst(n) ==> vals != []
  {
    var first := FirstOf(vals);
    match n
    case Kind => q.(kind := first)
    case Limit => q.(limit := ToUint(Atoi(first).0))
    case Offset => q.(offset := ToUint(Atoi(first).0))
    case Extended => q.(extended := BoolOf(first) == Some(true))
    case Cat => q.(categories := AllNumbersOf(vals))
    case ApiKey => q.(apiKey := first)
    case Pages => q.(extras := q.extras.(pagesToFetch := ToUint(Atoi(first).0)))
    case _ => q.(terms := ReadTerms(q.terms, n, first, Join(vals, " ")), ids := ReadIds(q.ids, n, first))
  }

  lemma GivenAfter(v: Values, k: string, vals: seq<string>, n: Name)
    ensures Given(v[k := vals], n) == if NameOf(k) == Some(n) then Some(vals) else Given(v, n)
  {
    NamesDiffer(n);
    NameHasKey(k);
  }

  /** One parameter more is one more read, so the order in which they are read does not matter. */
  lemma ReadOneMore(v: Values, k: string, vals: seq<string>)
    requires NameOf(k).Some? && TakesFirst(NameOf(k).value) ==> vals != []
    ensures Decoded(v[k := vals]) == if NameOf(k).Some? then Read(Decoded(v), NameOf(k).value, vals) else Decoded(v)
  {
    hide NameOf, KeyOf, Given, First, FirstOf, Joined, Number, Numbers, ToUint, Join, AllNumbersOf, BoolOf, Atoi, TermsOf, GivenIds,
      ReadTerms, ReadIds;
    TermsAfter(v, k, vals);
    IdsAfter(v, k, vals);
    TextAfter(v, k, vals, Kind);
    TextAfter(v, k, vals, Extended);
    TextAfter(v, k, vals, ApiKey);
    TextAfter(v, k, vals, Cat);
    NumberAfter(v, k, vals, Limit, DEFAULT_LIMIT);
    NumberAfter(v, k, vals, Offset, 0);
    NumberAfter(v, k, vals, Pages, 0);
    OtherParts(TermsOf(v), GivenIds(v), NameOf(k), FirstOf(vals), Join(vals, " "));
  }

  lemma OtherParts(t: Terms, ids: Ids, n: Option<Name>, first: string, joined: string)
    ensures n in {Some(Kind), Some(Limit), Some(Offset), Some(Extended), Some(Cat), Some(ApiKey), Some(Pages)} ==>
              ReadTerms(t, n.value, first, joined) == t && ReadIds(ids, n.value, first) == ids
  {
  }

  lemma TermsAfter(v: Values, k: string, vals: seq<string>)
    ensures TermsOf(v[k := vals]) ==
            if NameOf(k).Some? then ReadTerms(TermsOf(v), NameOf(k).value, FirstOf(vals), Join(vals, " ")) else TermsOf(v)
  {
    hide NameOf, KeyOf, Given, First, FirstOf, Joined, Join, Numbers, AllNumbersOf;
    TextAfter(v, k, vals, Search);
    TextAfter(v, k, vals, Series);
    TextAfter(v, k, vals, Movie);
    TextAfter(v, k, vals, Year);
    TextAfter(v, k, vals, Ep);
    TextAfter(v, k, vals, Season);
  }

  lemma IdsAfter(v: Values, k: string, vals: seq<string>)
    ensures GivenIds(v[k := vals]) == if NameOf(k).Some? then ReadIds(GivenIds(v), NameOf(k).value, FirstOf(vals)) else GivenIds(v)
  {
    hide NameOf, KeyOf, Given, First, FirstOf, Joined, Join, Numbers, AllNumbersOf;
    TextAfter(v, k, vals, TvdbId);
    TextAfter(v, k, vals, Rid);
    TextAfter(v, k, vals, TvMazeId);
    TextAfter(v, k, vals, ImdbId);
  }

  lemma TextAfter(v: Values, k: string, vals: seq<string>, n: Name)
    ensures First(v[k := vals], n) == if NameOf(k) == Some(n) then FirstOf(vals) else First(v, n)
    ensures Joined(v[k := vals], n) == if NameOf(k) == Some(n) then Join(vals, " ") else Joined(v, n)
    ensures Numbers(v[k := vals], n) == if NameOf(k) == Some(n) then AllNumbersOf(vals) else Numbers(v, n)
  {
    hide NameOf, KeyOf, Given, Join, AllNumbersOf;
    GivenAfter(v, k, vals, n);
  }

  lemma NumberAfter(v: Values, k: string, vals: seq<string>, n: Name, default: int)
    ensures Number(v[k := vals], n, default) ==
            if NameOf(k) == Some(n) then ToUint(Atoi(FirstOf(vals)).0) else Number(v, n, default)
  {
    hide NameOf, KeyOf, Given, First, Atoi, Numbers, AllNumbersOf, Join, Joined;
    GivenAfter(v, k, vals, n);
    TextAfter(v, k, vals, n);
  }

  /** Reads one parameter into the query. */
  method ReadParameter(query: Query, n: Name, vals: seq<string>) returns (r: Query, ok: bool)
    requires TakesFirst(n) ==> vals != []
    ensures ok <==> Accepts(n, vals)
    ensures r == if ok then Read(query, n, vals) else query
  {
    r := query;
    if n.Cat? {
      var categories: seq<int>;
      categories, ok := ParseCategories(vals);
      if !ok {
        return query, false;
      }
      return query.(categories := categories), true;
    }
    if TakesFirst(n) && !n.Pages? && |vals| > 1 {
      return query, false;
    }
    if n.Limit? || n.Offset? {
      var number := Atoi(vals[0]);
      if !number.1 {
        return query, false;
      }
    }
    if n.Extended? && BoolOf(vals[0]).None? {
      return query, false;
    }
    return Read(query, n, vals), true;
  }

  /** What a failure answers: some parameters were read and accepted before the one that is not; broken categories
      take the query away, anything else leaves it half filled. */
  ghost predicate StoppedAt(v: Values, seen: Values, n: Name, query: Option<Query>) {
    && (forall k <- seen :: k in v && seen[k] == v[k]) && NoneEmpty(seen) && AcceptsAll(seen)
    && KeyOf(n) !in seen && Given(v, n).Some? && (TakesFirst(n) ==> Given(v, n).value != []) && !Accepts(n, Given(v, n).value)
    && query == if n.Cat? then None else Some(Decoded(seen))
  }

  /** The parameters are read in any order. */
  method NewQueryFromUrl(v: Values) returns (query: Option<Query>, ok: bool)
    requires NoneEmpty(v)
    ensures ok <==> AcceptsAll(v)
    ensures ok ==> query == Some(Decoded(v))
    ensures !ok ==> exists seen: Values, n :: StoppedAt(v, seen, n, query)
  {
    hide NameOf, KeyOf, Accepts, Decoded, Read, TakesFirst, StoppedAt;
    KeysStandForNames();
    var q := DefaultQuery();
    var left := v.Keys;
    ghost var seen: Values := map[];
    while left != {}
      invariant left <= v.Keys && seen.Keys == v.Keys - left && forall k <- seen :: seen[k] == v[k]
      invariant q == Decoded(seen)
      invariant forall n :: Given(v, n).Some? && KeyOf(n) in seen ==> Accepts(n, Given(v, n).value)
      decreases left
    {
      var k :| k in left;
      var n := NameOf(k);
      if n.Some? {
        assert Given(v, n.value) == Some(v[k]);
        q, ok := ReadParameter(q, n.value, v[k]);
        if !ok {
          query := if n.value.Cat? then None else Some(q);
          StopsThere(v, seen, n.value, query);
          return;
        }
      }
      ReadOneMore(seen, k, v[k]);
      seen := seen[k := v[k]];
      left := left - {k};
    }
    assert seen == v;
    return Some(q), true;
  }

  lemma StopsThere(v: Values, seen: Values, n: Name, query: Option<Query>)
    requires NoneEmpty(v) && (forall k <- seen :: k in v && seen[k] == v[k])
    requires forall m :: Given(v, m).Some? && KeyOf(m) in seen ==> Accepts(m, Given(v, m).value)
    requires KeyOf(n) !in seen && Given(v, n).Some? && !Accepts(n, Given(v, n).value)
    requires query == if n.Cat? then None else Some(Decoded(seen))
    ensures StoppedAt(v, seen, n, query)
  {
    hide KeyOf, Accepts, Decoded, TakesFirst;
    forall m | Given(seen, m).Some? ensures Given(v, m) == Given(seen, m) && KeyOf(m) in seen {
    }
  }

  function DefaultQuery(): (q: Query)
    ensures q == Decoded(map[])
  {
    Query("", Terms("", "", "", "", "", ""), DEFAULT_LIMIT, 0, false, [], "", Ids("", "", "", "", ""), Extras(map[], false, 0, 0))
  }

  // ---------- both ways ----------

  function Single(value: Option<string>): Option<seq<string>> {
    if value.Some? then Some([value.value]) else None
  }

  lemma GivenIsWritten(v: Values, q: Query, n: Name)
    requires Typed(q) && Encodes(v, q)
    ensures Given(v, n) == Single(Written(q, n))
  {
  }

  lemma DecodedText(v: Values, n: Name, s: string)
    requires Given(v, n) == Single(Text(s))
    ensures First(v, n) == Joined(v, n) == s
  {
  }

  lemma DecodedNumber(v: Values, n: Name, u: int, default: int)
    requires IsUint(u) && Given(v, n) == Single(Count(u))
    ensures Number(v, n, default) == if u != 0 then u else default
    ensures Given(v, n).Some? ==> Atoi(FirstOf(Given(v, n).value)).1
  {
    UintRoundTrip(u);
  }

  lemma DecodedCategories(v: Values, categories: seq<int>)
    requires forall i :: 0 <= i < |categories| ==> IsInt(categories[i])
    requires Given(v, Cat) == Single(ListText(categories))
    ensures Numbers(v, Cat) == categories
    ensures Given(v, Cat).Some? ==> AllLists(Given(v, Cat).value)
  {
    if |categories| > 0 {
      NumbersRoundTrip(categories);
      var vals := Given(v, Cat).value;
      assert vals[..0] == [];
      assert AllNumbersOf(vals[..0]) == [];
    }
  }

  lemma DecodedTerms(v: Values, q: Query)
    requires Typed(q) && Encodes(v, q)
    ensures TermsOf(v) == q.terms
  {
    hide Encodes, Written, Given, First, Joined, Text, Single;
    WrittenSearch(q);
    GivenIsWritten(v, q, Search);
    GivenIsWritten(v, q, Series);
    GivenIsWritten(v, q, Ep);
    GivenIsWritten(v, q, Season);
    GivenIsWritten(v, q, Movie);
    GivenIsWritten(v, q, Year);
    DecodedText(v, Search, q.terms.queryString);
    DecodedText(v, Series, q.terms.series);
    DecodedText(v, Ep, q.terms.ep);
    DecodedText(v, Season, q.terms.season);
    DecodedText(v, Movie, q.terms.movie);
    DecodedText(v, Year, q.terms.year);
  }

  lemma DecodedIds(v: Values, q: Query)
    requires Typed(q) && Encodes(v, q)
    ensures GivenIds(v) == q.ids.(trakt := "")
  {
    hide Encodes, Written, Given, First, Joined, Text, Single;
    WrittenRest(q);
    GivenIsWritten(v, q, TvdbId);
    GivenIsWritten(v, q, Rid);
    GivenIsWritten(v, q, TvMazeId);
    GivenIsWritten(v, q, ImdbId);
    DecodedText(v, TvdbId, q.ids.tvdb);
    DecodedText(v, Rid, q.ids.tvRage);
    DecodedText(v, TvMazeId, q.ids.tvMaze);
    DecodedText(v, ImdbId, q.ids.imdb);
  }

  lemma DecodedTexts(v: Values, q: Query)
    requires Typed(q) && Encodes(v, q)
    ensures First(v, Kind) == if q.kind != "" then q.kind else "search"
    ensures First(v, ApiKey) == q.apiKey && First(v, Extended) == if q.extended then "1" else ""
  {
    hide Encodes, Written, Given, First, Joined, Single;
    WrittenSearch(q);
    WrittenRest(q);
    GivenIsWritten(v, q, Kind);
    GivenIsWritten(v, q, ApiKey);
    GivenIsWritten(v, q, Extended);
    DecodedText(v, Kind, if q.kind != "" then q.kind else "search");
    DecodedText(v, ApiKey, q.apiKey);
    DecodedText(v, Extended, if q.extended then "1" else "");
  }

  lemma DecodedNumbers(v: Values, q: Query)
    requires Typed(q) && Encodes(v, q)
    ensures Number(v, Limit, DEFAULT_LIMIT) == if q.limit != 0 then q.limit else DEFAULT_LIMIT
    ensures Number(v, Offset, 0) == q.offset && Number(v, Pages, 0) == 0 && Numbers(v, Cat) == q.categories
  {
    assert Count(0) == None == Written(q, Pages);
    hide Encodes, Written, Given, Number, Numbers, Count, ListText, AllLists, Single, Atoi;
    WrittenSearch(q);
    WrittenRest(q);
    GivenIsWritten(v, q, Limit);
    GivenIsWritten(v, q, Offset);
    GivenIsWritten(v, q, Pages);
    GivenIsWritten(v, q, Cat);
    DecodedNumber(v, Limit, q.limit, DEFAULT_LIMIT);
    DecodedNumber(v, Offset, q.offset, 0);
    DecodedNumber(v, Pages, 0, 0);
    DecodedCategories(v, q.categories);
  }

  /** What was written is accepted. */
  lemma EncodedIsAccepted(v: Values, q: Query)
    requires Typed(q) && Encodes(v, q)
    ensures NoneEmpty(v) && AcceptsAll(v)
  {
    hide Given, Encodes, Itoa, Atoi, Join, Numerals, AllNumbersOf, AllLists, Text, BoolOf;
    forall n | Given(v, n).Some? ensures Given(v, n).value != [] && Accepts(n, Given(v, n).value) {
      GivenIsWritten(v, q, n);
      if n.Limit? {
        DecodedNumber(v, Limit, q.limit, DEFAULT_LIMIT);
      } else if n.Offset? {
        DecodedNumber(v, Offset, q.offset, 0);
      } else if n.Cat? {
        DecodedCategories(v, q.categories);
      } else if n.Extended? {
        OneIsTrue();
      }
    }
  }

  lemma OneIsTrue()
    ensures BoolOf("1") == Some(true) && BoolOf("") == None
  {
  }

  /** Reading what was written gives the query with its defaults, and without what is not written. */
  lemma DecodedOfEncoded(v: Values, q: Query)
    requires Typed(q) && Encodes(v, q)
    ensures NoneEmpty(v) && AcceptsAll(v)
    ensures Decoded(v) == Query(if q.kind != "" then q.kind else "search", q.terms, if q.limit != 0 then q.limit else DEFAULT_LIMIT,
                                q.offset, q.extended, q.categories, q.apiKey, q.ids.(trakt := ""), Extras(map[], false, 0, 0))
  {
    OneIsTrue();
    hide Encodes, NoneEmpty, AcceptsAll, TermsOf, GivenIds, First, Number, Numbers, BoolOf;
    EncodedIsAccepted(v, q);
    DecodedTerms(v, q);
    DecodedIds(v, q);
    DecodedTexts(v, q);
    DecodedNumbers(v, q);
  }

  /** A query that can be told by its parameters: it has a kind and a limit, and none of what is not written or not
      read back. */
  predicate Restorable(q: Query) {
    q.kind != "" && q.limit != 0 && q.ids.trakt == "" && q.extras == Extras(map[], false, 0, 0)
  }

  /** Reading what was written gives the same query exactly for these queries. */
  lemma RoundTripExactly(v: Values, q: Query)
    requires Typed(q) && Encodes(v, q)
    ensures NoneEmpty(v) && AcceptsAll(v) && (Decoded(v) == q <==> Restorable(q))
  {
    hide Decoded, Encodes, NoneEmpty, AcceptsAll;
    DecodedOfEncoded(v, q);
  }

  lemma SameGiven(v: Values, w: Values)
    requires (forall k <- v :: NameOf(k).Some?) && (forall k <- w :: NameOf(k).Some?)
    requires forall n :: Given(v, n) == Given(w, n)
    ensures v == w
  {
    hide NameOf, KeyOf;
    KeysStandForNames();
    forall k ensures (k in v <==> k in w) && (k in v ==> v[k] == w[k]) {
      if NameOf(k).Some? {
        assert Given(v, NameOf(k).value) == Given(w, NameOf(k).value);
      }
    }
  }

  /** Two queries have the same parameters exactly if they agree in all that is written. */
  lemma SameParametersExactly(a: Query, b: Query, v: Values, w: Values)
    requires Typed(a) && Typed(b) && Encodes(v, a) && Encodes(w, b)
    ensures v == w <==>
            && (if a.kind != "" then a.kind else "search") == (if b.kind != "" then b.kind else "search")
            && a.terms == b.terms && a.limit == b.limit && a.offset == b.offset && a.extended == b.extended
            && a.categories == b.categories && a.apiKey == b.apiKey && a.ids == b.ids
  {
    if v == w {
      GivenIsWritten(v, a, Limit);
      GivenIsWritten(w, b, Limit);
      GivenIsWritten(v, a, TraktId);
      GivenIsWritten(w, b, TraktId);
      DecodedText(v, TraktId, a.ids.trakt);
      DecodedText(w, TraktId, b.ids.trakt);
      hide Decoded, Encodes, Itoa;
      DecodedOfEncoded(v, a);
      DecodedOfEncoded(w, b);
    }
    if (if a.kind != "" then a.kind else "search") == (if b.kind != "" then b.kind else "search")
       && a.terms == b.terms && a.limit == b.limit && a.offset == b.offset && a.extended == b.extended
       && a.categories == b.categories && a.apiKey == b.apiKey && a.ids == b.ids {
      forall n ensures Given(v, n) == Given(w, n) {
        GivenIsWritten(v, a, n);
        GivenIsWritten(w, b, n);
      }
      SameGiven(v, w);
    }
  }

  // ---------- by the names in the URL ----------

  /** The value of a parameter that is given once, and nothing where it is missing. */
  function Sole(v: Values, k: string): string {
    if k in v && v[k] != [] then v[k][0] else ""
  }

  lemma FirstByName(v: Values)
    ensures First(v, Kind) == Sole(v, "t") && First(v, ApiKey) == Sole(v, "apikey") && First(v, Year) == Sole(v, "year")
    ensures First(v, Ep) == Sole(v, "ep") && First(v, Season) == Sole(v, "season")
  {
  }

  lemma FirstIdByName(v: Values)
    ensures First(v, TvdbId) == Sole(v, "tvdbid")
    ensures First(v, Rid) == Sole(v, "rid") && First(v, TvMazeId) == Sole(v, "tvmazeid") && First(v, ImdbId) == Sole(v, "imdbid")
  {
  }

  /** What is read for each name: texts, and what is joined from several values. */
  lemma TextsByName(v: Values)
    ensures var q := Decoded(v);
            && q.kind == Sole(v, "t") && q.apiKey == Sole(v, "apikey")
            && q.terms.year == Sole(v, "year") && q.terms.ep == Sole(v, "ep") && q.terms.season == Sole(v, "season")
            && q.terms.queryString == (if "q" in v then Join(v["q"], " ") else "")
            && q.terms.series == (if "series" in v then Join(v["series"], " ") else "")
            && q.terms.movie == (if "movie" in v then Join(v["movie"], " ") else "")
            && q.ids.tvdb == Sole(v, "tvdbid") && q.ids.tvRage == Sole(v, "rid") && q.ids.tvMaze == Sole(v, "tvmazeid")
            && q.ids.imdb == Sole(v, "imdbid") && q.ids.trakt == ""
  {
    hide Join, Number, Numbers, BoolOf, Sole, First;
    FirstByName(v);
    FirstIdByName(v);
  }

  /** The unsigned number that a text stands for; the sign wraps around. */
  function Unsigned(s: string): int {
    if Atoi(s).0 < 0 then Atoi(s).0 + 0x1_0000_0000_0000_0000 else Atoi(s).0
  }

  /** Numbers, the flag, the categories, and what is taken where they are missing. */
  lemma NumbersByName(v: Values)
    ensures var q := Decoded(v);
            && q.limit == (if "limit" in v then Unsigned(Sole(v, "limit")) else 20)
            && q.offset == (if "offset" in v then Unsigned(Sole(v, "offset")) else 0)
            && q.extras == Extras(map[], false, if "p" in v then Unsigned(Sole(v, "p")) else 0, 0)
            && (q.extended <==> "extended" in v && Sole(v, "extended") in ["1", "t", "T", "TRUE", "true", "True"])
            && q.categories == (if "cat" in v then AllNumbersOf(v["cat"]) else [])
  {
    hide Atoi, AllNumbersOf, TermsOf, GivenIds;
  }

  /** The lists of several values are put one behind the other; a list that was written is read as it was. */
  lemma {:induction false} ListsAppend(a: seq<string>, b: seq<string>)
    ensures AllNumbersOf(a + b) == AllNumbersOf(a) + AllNumbersOf(b)
  {
    if b == [] {
      assert a + b == a;
    } else {
      var init, last := b[..|b| - 1], b[|b| - 1];
      ListsAppend(a, init);
      assert (a + b)[..|a + b| - 1] == a + init && (a + b)[|a + b| - 1] == last;
      var numbers := NumbersOf(Split(last, ','));
      hide Split, NumbersOf;
      assert AllNumbersOf(a + b) == AllNumbersOf(a + init) + numbers;
      assert AllNumbersOf(b) == AllNumbersOf(init) + numbers;
      assert AllNumbersOf(a) + AllNumbersOf(init) + numbers == AllNumbersOf(a) + (AllNumbersOf(init) + numbers);
    }
  }

  lemma ListIsRead(numbers: seq<int>)
    requires numbers != [] && forall i :: 0 <= i < |numbers| ==> IsInt(numbers[i])
    ensures AllNumbersOf([Join(Numerals(numbers), ",")]) == numbers && AllLists([Join(Numerals(numbers), ",")])
  {
    hide Split, NumbersOf, Join;
    NumbersRoundTrip(numbers);
    var vals := [Join(Numerals(numbers), ",")];
    assert vals[..0] == [];
    assert AllNumbersOf(vals[..0]) == [];
  }

  /** The words for a flag. */
  lemma FlagWords(s: string)
    ensures BoolOf(s) == Some(true) <==> s in ["1", "t", "T", "TRUE", "true", "True"]
    ensures BoolOf(s) == Some(false) <==> s in ["0", "f", "F", "FALSE", "false", "False"]
  {
  }

  /** The parameter is given once, if at all. */
  predicate GivenOnce(v: Values, k: string) {
    k in v ==> |v[k]| == 1
  }

  /** What is demanded of each parameter. */
  ghost predicate Fits(v: Values, n: Name) {
    match n
    case Limit => GivenOnce(v, "limit") && ("limit" in v ==> Atoi(v["limit"][0]).1)
    case Offset => GivenOnce(v, "offset") && ("offset" in v ==> Atoi(v["offset"][0]).1)
    case Extended => GivenOnce(v, "extended") && ("extended" in v ==> BoolOf(v["extended"][0]).Some?)
    case Cat => "cat" in v ==> AllLists(v["cat"])
    case Kind => GivenOnce(v, "t")
    case Year => GivenOnce(v, "year")
    case Ep => GivenOnce(v, "ep")
    case Season => GivenOnce(v, "season")
    case ApiKey => GivenOnce(v, "apikey")
    case TvdbId => GivenOnce(v, "tvdbid")
    case Rid => GivenOnce(v, "rid")
    case TvMazeId => GivenOnce(v, "tvmazeid")
    case ImdbId => GivenOnce(v, "imdbid")
    case _ => true
  }

  lemma AcceptedIfFits(v: Values, n: Name)
    requires NoneEmpty(v)
    ensures (Given(v, n).Some? ==> Accepts(n, Given(v, n).value)) <==> Fits(v, n)
  {
    hide Atoi, AllLists, BoolOf;
  }

  lemma AllFit(v: Values)
    requires NoneEmpty(v)
    ensures AcceptsAll(v) <==> forall n :: Fits(v, n)
  {
    hide KeyOf, Fits, Accepts, TakesFirst, Given;
    forall n ensures (Given(v, n).Some? ==> Accepts(n, Given(v, n).value)) <==> Fits(v, n) {
      AcceptedIfFits(v, n);
    }
  }

  /** The parameters are accepted exactly if these are given once, with a number or a flag where one is expected, and
      all categories are lists of numbers. */
  lemma AcceptedByName(v: Values)
    requires NoneEmpty(v)
    ensures AcceptsAll(v) <==>
            && GivenOnce(v, "t") && GivenOnce(v, "year") && GivenOnce(v, "ep") && GivenOnce(v, "season") && GivenOnce(v, "apikey")
            && GivenOnce(v, "limit") && GivenOnce(v, "offset") && GivenOnce(v, "extended") && GivenOnce(v, "tvdbid")
            && GivenOnce(v, "rid") && GivenOnce(v, "tvmazeid") && GivenOnce(v, "imdbid")
            && ("limit" in v ==> Atoi(v["limit"][0]).1) && ("offset" in v ==> Atoi(v["offset"][0]).1)
            && ("extended" in v ==> BoolOf(v["extended"][0]).Some?)
            && ("cat" in v ==> AllLists(v["cat"]))
  {
    AllFit(v);
    hide AcceptsAll, Atoi, AllLists, NoneEmpty, BoolOf, GivenOnce;
    if forall n :: Fits(v, n) {
      assert Fits(v, Kind) && Fits(v, Year) && Fits(v, Ep) && Fits(v, Season) && Fits(v, ApiKey) && Fits(v, Limit) && Fits(v, Offset);
      assert Fits(v, Extended) && Fits(v, TvdbId) && Fits(v, Rid) && Fits(v, TvMazeId) && Fits(v, ImdbId) && Fits(v, Cat);
    }
  }

  /** The parameter has just the text, or is missing where there is none. */
  predicate HasText(v: Values, k: string, s: string) {
    if s != "" then k in v && v[k] == [s] else k !in v
  }

  predicate HasNumber(v: Values, k: string, u: int) {
    if u != 0 then k in v && v[k] == [Itoa(if u > MAX_INT then u - 0x1_0000_0000_0000_0000 else u)] else k !in v
  }

  lemma WrittenText(v: Values, q: Query, n: Name, s: string)
    requires Typed(q) && Encodes(v, q) && Written(q, n) == Text(s)
    ensures HasText(v, KeyOf(n), s)
  {
    hide KeyOf, NameOf, Written;
    GivenIsWritten(v, q, n);
  }

  lemma WrittenNumber(v: Values, q: Query, n: Name, u: int)
    requires Typed(q) && Encodes(v, q) && IsUint(u) && Written(q, n) == Count(u)
    ensures HasNumber(v, KeyOf(n), u)
  {
    hide KeyOf, NameOf, Written, Itoa;
    GivenIsWritten(v, q, n);
  }

  /** What is written under each name. */
  lemma TermsWrittenByName(v: Values, q: Query)
    requires Typed(q) && Encodes(v, q)
    ensures HasText(v, "t", if q.kind != "" then q.kind else "search")
    ensures HasText(v, "q", q.terms.queryString) && HasText(v, "ep", q.terms.ep) && HasText(v, "season", q.terms.season)
    ensures HasText(v, "movie", q.terms.movie) && HasText(v, "year", q.terms.year) && HasText(v, "series", q.terms.series)
  {
    WrittenSearch(q);
    hide Encodes, Written, HasText;
    WrittenText(v, q, Kind, if q.kind != "" then q.kind else "search");
    WrittenText(v, q, Search, q.terms.queryString);
    WrittenText(v, q, Ep, q.terms.ep);
    WrittenText(v, q, Season, q.terms.season);
    WrittenText(v, q, Movie, q.terms.movie);
    WrittenText(v, q, Year, q.terms.year);
    WrittenText(v, q, Series, q.terms.series);
  }

  lemma RestOfNames()
    ensures KeyOf(Offset) == "offset" && KeyOf(Limit) == "limit" && KeyOf(Extended) == "extended" && KeyOf(ApiKey) == "apikey"
    ensures KeyOf(Cat) == "cat" && KeyOf(TvdbId) == "tvdbid" && KeyOf(Rid) == "rid" && KeyOf(TvMazeId) == "tvmazeid"
    ensures KeyOf(TraktId) == "traktid" && KeyOf(ImdbId) == "imdbid"
  {
  }

  lemma NumbersWrittenByName(v: Values, q: Query)
    requires Typed(q) && Encodes(v, q)
    ensures HasNumber(v, "offset", q.offset) && HasNumber(v, "limit", q.limit)
    ensures HasText(v, "extended", if q.extended then "1" else "") && HasText(v, "apikey", q.apiKey)
    ensures HasText(v, "cat", if q.categories != [] then Join(Numerals(q.categories), ",") else "")
  {
    WrittenSearch(q);
    WrittenRest(q);
    ListIsText(q);
    RestOfNames();
    assert FlagText(q.extended) == Text(if q.extended then "1" else "");
    hide Encodes, Written, HasText, HasNumber, Join, Numerals, KeyOf, Text, Count, ListText, FlagText;
    WrittenNumber(v, q, Offset, q.offset);
    WrittenNumber(v, q, Limit, q.limit);
    WrittenText(v, q, Extended, if q.extended then "1" else "");
    WrittenText(v, q, ApiKey, q.apiKey);
    WrittenText(v, q, Cat, if q.categories != [] then Join(Numerals(q.categories), ",") else "");
  }

  lemma IdsWrittenByName(v: Values, q: Query)
    requires Typed(q) && Encodes(v, q)
    ensures HasText(v, "tvdbid", q.ids.tvdb) && HasText(v, "rid", q.ids.tvRage) && HasText(v, "tvmazeid", q.ids.tvMaze)
    ensures HasText(v, "traktid", q.ids.trakt) && HasText(v, "imdbid", q.ids.imdb)
  {
    WrittenRest(q);
    RestOfNames();
    hide Encodes, Written, HasText, KeyOf, Text, Count, ListText, FlagText;
    WrittenText(v, q, TvdbId, q.ids.tvdb);
    WrittenText(v, q, Rid, q.ids.tvRage);
    WrittenText(v, q, TvMazeId, q.ids.tvMaze);
    WrittenText(v, q, TraktId, q.ids.trakt);
    WrittenText(v, q, ImdbId, q.ids.imdb);
  }

  /** A list of numbers is not written as nothing. */
  lemma ListIsText(q: Query)
    requires Typed(q)
    ensures ListText(q.categories) == Text(if q.categories != [] then Join(Numerals(q.categories), ",") else "")
  {
    if q.categories != [] {
      assert Numerals(q.categories)[0] == Itoa(q.categories[0]) != "";
    }
  }

  lemma OnlyWritten(v: Values, q: Query)
    requires Typed(q) && Encodes(v, q)
    ensures forall k <- v ::
              k in {"t", "q", "ep", "season", "movie", "year", "series", "offset", "limit", "extended", "apikey", "cat", "tvdbid", "rid",
                    "tvmazeid", "traktid", "imdbid"}
  {
    forall k | k in v ensures NameOf(k).Some? && !NameOf(k).value.Pages? {
      NameHasKey(k);
      GivenIsWritten(v, q, NameOf(k).value);
    }
    hide Encodes, Written;
  }
}
