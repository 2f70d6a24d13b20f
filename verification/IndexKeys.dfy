/** Keys, the queries made from them, and the names and values they give in indexes. */
module IndexKeys {
  import opened Options
  import opened Fields
  import opened Joins
  import opened Sequences

  // ---------- items as reflection sees them ----------

  /** Struct fields and methods without parameters by name, and the free fields. */
  datatype Item = Item(fields: map<string, Field>, methods: map<string, Field>, data: map<string, Field>)

  const MODEL_DATA := "ModelData."

  predicate IsExtra(name: string) {
    MODEL_DATA <= name
  }

  function Parsed(name: string): string {
    if IsExtra(name) then name[|MODEL_DATA|..] else name
  }

  /** No name of a struct field has a dot in it. */
  ghost predicate PlainNames(names: set<string>) {
    forall n <- names :: !IsExtra(n)
  }

  // ---------- joined values ----------

  const NUL: char := 0 as char
  const ZERO: string := [NUL]

  ghost predicate ZeroFree(parts: seq<string>) {
    forall i :: 0 <= i < |parts| ==> NUL !in parts[i]
  }

  lemma FirstZeroAt(a: string, x: string)
    requires NUL !in a
    ensures var s := a + ZERO + x;
            s[|a|] == NUL && (forall i :: 0 <= i < |a| ==> s[i] != NUL) && s[..|a|] == a && s[|a| + 1..] == x
  {
  }

  lemma FirstZero(a: string, x: string, b: string, y: string)
    requires NUL !in a && NUL !in b && a + ZERO + x == b + ZERO + y
    ensures a == b && x == y
  {
    FirstZeroAt(a, x);
    FirstZeroAt(b, y);
    assert |a| == |b|;
  }

  lemma NoZeroInside(a: string, b: string, y: string)
    requires NUL !in a
    ensures a != b + ZERO + y
  {
    assert (b + ZERO + y)[|b|] == NUL;
  }

  /** Joining with the zero byte is injective on parts without it. */
  lemma {:induction false} JoinInjective(a: seq<string>, b: seq<string>)
    requires a != [] && b != [] && ZeroFree(a) && ZeroFree(b)
    ensures Join(a, ZERO) == Join(b, ZERO) ==> a == b
  {
    assert NUL !in a[0] && NUL !in b[0];
    if |a| == 1 && |b| == 1 {
      assert a == [a[0]] && b == [b[0]];
    } else if |a| == 1 {
      NoZeroInside(a[0], b[0], Join(b[1..], ZERO));
    } else if |b| == 1 {
      NoZeroInside(b[0], a[0], Join(a[1..], ZERO));
    } else if Join(a, ZERO) == Join(b, ZERO) {
      FirstZero(a[0], Join(a[1..], ZERO), b[0], Join(b[1..], ZERO));
      JoinInjective(a[1..], b[1..]);
      assert a == [a[0]] + a[1..] && b == [b[0]] + b[1..];
    }
  }

  ghost predicate OtherCut(x: string, y: string, u: string, v: string) {
    x + ZERO + y == u + ZERO + v && |x| != |u|
  }

  /** Two neighbouring parts that are cut elsewhere give the same value. */
  lemma CutElsewhere(a: seq<string>, i: nat, u: string, v: string)
    requires i + 1 < |a| && OtherCut(a[i], a[i + 1], u, v)
    ensures Join(a[i := u][i + 1 := v], ZERO) == Join(a, ZERO)
    ensures a[i := u][i + 1 := v] != a
  {
    hide Join;
    JoinMerge(a[..i], a[i], a[i + 1], a[i + 2..], ZERO);
    JoinMerge(a[..i], u, v, a[i + 2..], ZERO);
    assert a == a[..i] + [a[i], a[i + 1]] + a[i + 2..];
    assert a[i := u][i + 1 := v] == a[..i] + [u, v] + a[i + 2..];
    assert a[i := u][i + 1 := v][i] == u;
  }

  lemma ZeroCuts(x: string, y: string)
    requires NUL in x || NUL in y
    ensures exists u, v :: OtherCut(x, y, u, v)
  {
    var s := x + ZERO + y;
    var p: nat;
    if NUL in x {
      p :| 0 <= p < |x| && x[p] == NUL;
      assert s[p] == NUL;
    } else {
      var q :| 0 <= q < |y| && y[q] == NUL;
      p := |x| + 1 + q;
      assert s[p] == NUL;
    }
    assert s == s[..p] + ZERO + s[p + 1..];
    assert OtherCut(x, y, s[..p], s[p + 1..]);
  }

  /** Joining is injective on nothing more: with a zero byte in a part, other parts give the same value. */
  lemma ZeroConfuses(a: seq<string>)
    requires |a| >= 2 && !ZeroFree(a)
    ensures exists b :: |b| == |a| && b != a && Join(b, ZERO) == Join(a, ZERO)
  {
    hide Join, OtherCut;
    var i :| 0 <= i < |a| && NUL in a[i];
    var j := if i + 1 < |a| then i else i - 1;
    ZeroCuts(a[j], a[j + 1]);
    var u, v :| OtherCut(a[j], a[j + 1], u, v);
    CutElsewhere(a, j, u, v);
  }

  // ---------- keys ----------

  function With(names: seq<string>, name: string): seq<string> {
    if name in names then names else names + [name]
  }

  function WithAll(names: seq<string>, more: seq<string>): seq<string> {
    if more == [] then names else With(WithAll(names, more[..|more| - 1]), more[|more| - 1])
  }

  /** Adding names keeps the old ones in front, adds every name once, and adding them again changes nothing. */
  lemma {:induction false} AddedOnce(names: seq<string>, more: seq<string>)
    requires NoRepeats(names)
    ensures NoRepeats(WithAll(names, more)) && names <= WithAll(names, more)
    ensures forall n :: n in WithAll(names, more) <==> n in names || n in more
  {
    if more == [] {
      assert WithAll(names, more) == names;
    } else {
      AddedOnce(names, more[..|more| - 1]);
      assert more == more[..|more| - 1] + [more[|more| - 1]];
    }
  }

  lemma {:induction false} AddedTwice(names: seq<string>, more: seq<string>)
    requires forall n <- more :: n in names
    ensures WithAll(names, more) == names
  {
    if more == [] {
      assert WithAll(names, more) == names;
    } else {
      AddedTwice(names, more[..|more| - 1]);
    }
  }

  /** Names that are not known, each once, behind the fields. */
  function Appended(fields: seq<string>, known: set<string>, more: seq<string>): seq<string> {
    if more == [] then fields
    else
      var init, last := more[..|more| - 1], more[|more| - 1];
      Appended(fields, known, init) + (if last in known || last in init then [] else [last])
  }

  /** When the known names are the fields, appending is adding. */
  lemma {:induction false} AppendedIsAdded(fields: seq<string>, known: set<string>, more: seq<string>)
    requires NoRepeats(fields) && forall n :: n in known <==> n in fields
    ensures Appended(fields, known, more) == WithAll(fields, more)
  {
    if more == [] {
      assert Appended(fields, known, more) == fields;
    } else {
      AppendedIsAdded(fields, known, more[..|more| - 1]);
      AddedOnce(fields, more[..|more| - 1]);
    }
  }

  lemma {:induction false} AppendedMembers(fields: seq<string>, known: set<string>, more: seq<string>, n: string)
    ensures n in Appended(fields, known, more) <==> n in fields || (n in more && n !in known)
  {
    if more == [] {
      assert Appended(fields, known, more) == fields;
    } else {
      AppendedMembers(fields, known, more[..|more| - 1], n);
      assert more == more[..|more| - 1] + [more[|more| - 1]];
    }
  }

  /** Appending repeats no field exactly if every field among the names is known. */
  lemma {:induction false} AppendedOnceExactly(fields: seq<string>, known: set<string>, more: seq<string>)
    requires NoRepeats(fields)
    ensures NoRepeats(Appended(fields, known, more)) <==> forall n <- more :: n in fields ==> n in known
  {
    if more == [] {
      assert Appended(fields, known, more) == fields;
    } else {
      var init, last := more[..|more| - 1], more[|more| - 1];
      var before, after := Appended(fields, known, init), Appended(fields, known, more);
      AppendedOnceExactly(fields, known, init);
      AppendedMembers(fields, known, init, last);
      assert more == init + [last];
      if last in known || last in init {
        assert after == before;
      } else {
        RepeatsBehind(before, last);
      }
    }
  }

  lemma RepeatsBehind(names: seq<string>, last: string)
    ensures NoRepeats(names + [last]) <==> NoRepeats(names) && last !in names
  {
    var all := names + [last];
    if NoRepeats(all) {
      forall i, j | 0 <= i < j < |names| ensures names[i] != names[j] {
        assert all[i] == names[i] && all[j] == names[j];
      }
      forall i | 0 <= i < |names| ensures names[i] != last {
        assert all[i] == names[i] && all[|names|] == last;
      }
    }
  }

  class Key {
    var fields: seq<string>
    /** The names that are in; missing in a Key that was not made by NewKey. */
    var fieldsCache: Option<set<string>>

    /** The cache holds the fields, and no field is there twice. */
    ghost predicate Valid()
      reads this
    {
      NoRepeats(fields) && forall n :: n in Known() <==> n in fields
    }

    ghost function Known(): set<string>
      reads this
    {
      if fieldsCache.Some? then fieldsCache.value else {}
    }

    /** A key that is written out with its fields. */
    constructor Literal(fields: seq<string>)
      ensures this.fields == fields && fieldsCache == None
    {
      this.fields, fieldsCache := fields, None;
    }

    constructor (fieldNames: seq<string>)
      ensures Valid() && fieldsCache.Some? && fields == WithAll([], fieldNames)
    {
      fields, fieldsCache := [], Some({});
      new;
      AddEach(fieldNames);
      AppendedIsAdded([], {}, fieldNames);
      AddedOnce([], fieldNames);
    }

    predicate IsEmpty()
      reads this
    {
      |fields| == 0
    }

    /** Without a cache nothing is known, not even the fields. */
    method AddKeys(newKeys: Key)
      modifies this
      ensures fields == Appended(old(fields), old(Known()), old(newKeys.fields))
      ensures fieldsCache == Some(old(Known()) + Elements(old(newKeys.fields)))
    {
      var names := newKeys.fields;
      if fieldsCache.None? {
        fieldsCache := Some({});
      }
      AddEach(names);
    }

    /** Without a cache there is nothing to write to. */
    method Add(s: string)
      requires fieldsCache.Some?
      modifies this
      ensures fields == (if s in old(Known()) then old(fields) else old(fields) + [s])
      ensures fieldsCache == Some(old(Known()) + {s})
    {
      if s in fieldsCache.value {
        assert fieldsCache.value + {s} == fieldsCache.value;
        return;
      }
      fields := fields + [s];
      fieldsCache := Some(fieldsCache.value + {s});
    }

    method AddEach(names: seq<string>)
      requires fieldsCache.Some?
      modifies this
      ensures fields == Appended(old(fields), old(Known()), names)
      ensures fieldsCache == Some(old(Known()) + Elements(names))
    {
      var i := 0;
      assert fieldsCache.value + Elements(names[..0]) == fieldsCache.value;
      while i < |names|
        invariant 0 <= i <= |names|
        invariant fields == Appended(old(fields), old(Known()), names[..i])
        invariant fieldsCache == Some(old(Known()) + Elements(names[..i]))
      {
        assert names[..i + 1] == names[..i] + [names[i]];
        ElementsBehind(names[..i], names[i]);
        Add(names[i]);
        assert fieldsCache.value == old(Known()) + Elements(names[..i + 1]);
        i := i + 1;
      }
      assert names[..i] == names;
    }
  }

  // ---------- queries ----------

  /** A map that keeps the order in which its keys came. */
  class Query {
    var keys: seq<string>
    var values: map<string, Field>

    constructor ()
      ensures Valid() && keys == []
    {
      keys, values := [], map[];
    }

    ghost predicate Valid()
      reads this
    {
      NoRepeats(keys) && forall k :: k in keys <==> k in values
    }

    method Put(k: string, v: Field)
      requires Valid()
      modifies this
      ensures Valid() && keys == With(old(keys), k) && values == old(values)[k := v]
    {
      keys := With(keys, k);
      values := values[k := v];
    }
  }

  /** What a query takes from an item for a key field: a struct field before a free one. */
  function QueryField(name: string, item: Item): Option<Field> {
    var n := Parsed(name);
    if n in item.fields then Some(item.fields[n])
    else if n in item.data then Some(item.data[n])
    else None
  }

  predicate HasPart(name: string, item: Item) {
    var f := QueryField(name, item);
    f.Some? && f.value.Text? && f.value.text != ""
  }

  /** The fields that are looked at up to the first one without a value are texts or nil; others do not convert. */
  predicate Inspectable(names: seq<string>, item: Item) {
    names == [] ||
    (var f := QueryField(names[0], item);
     (f.None? || f.value.Nil? || f.value.Text?) && (HasPart(names[0], item) ==> Inspectable(names[1..], item)))
  }

  /** All the key fields of the item have a value. */
  method KeyHasValue(names: seq<string>, item: Item) returns (has: bool)
    requires Inspectable(names, item)
    ensures has <==> forall n <- names :: HasPart(n, item)
  {
    var i := 0;
    while i < |names|
      invariant 0 <= i <= |names| && Inspectable(names[i..], item)
      invariant forall j :: 0 <= j < i ==> HasPart(names[j], item)
    {
      assert names[i..][0] == names[i] && names[i..][1..] == names[i + 1..];
      var f := QueryField(names[i], item);
      if f.None? || f.value.Nil? || f.value.text == "" {
        return false;
      }
      i := i + 1;
    }
    return true;
  }

  /** The key fields that the item has. */
  function Found(names: seq<string>, item: Item): seq<string> {
    if names == [] then []
    else
      var last := names[|names| - 1];
      Found(names[..|names| - 1], item) + (if QueryField(last, item).Some? then [last] else [])
  }

  lemma {:induction false} FoundIs(names: seq<string>, item: Item)
    ensures forall n :: n in Found(names, item) <==> n in names && QueryField(n, item).Some?
    ensures (forall n <- names :: QueryField(n, item).Some?) ==> Found(names, item) == names
  {
    if names == [] {
      assert Found(names, item) == [];
    } else {
      FoundIs(names[..|names| - 1], item);
      assert names == names[..|names| - 1] + [names[|names| - 1]];
    }
  }

  /** The names that a query has: a name that comes again keeps its place. */
  function QueryNames(names: seq<string>, item: Item): seq<string> {
    WithAll([], Found(names, item))
  }

  lemma NoQueryNames(item: Item)
    ensures QueryNames([], item) == []
  {
  }

  lemma QueryNamesNext(names: seq<string>, i: nat, item: Item)
    requires i < |names|
    ensures QueryNames(names[..i + 1], item) ==
            if QueryField(names[i], item).Some? then With(QueryNames(names[..i], item), names[i]) else QueryNames(names[..i], item)
  {
    assert names[..i + 1][..i] == names[..i];
    var found := Found(names[..i], item);
    assert (found + [names[i]])[..|found|] == found && found + [] == found;
  }

  lemma {:induction false} AddedToNothing(names: seq<string>)
    requires NoRepeats(names)
    ensures WithAll([], names) == names
  {
    if names == [] {
      assert WithAll([], names) == [];
    } else {
      var init := names[..|names| - 1];
      AddedToNothing(init);
      assert names == init + [names[|names| - 1]] && names[|names| - 1] !in init;
    }
  }

  method GetKeyQueryFromItem(names: seq<string>, item: Item) returns (query: Query)
    ensures fresh(query) && query.Valid()
    ensures query.keys == QueryNames(names, item)
    ensures forall k <- query.keys :: QueryField(k, item) == Some(query.values[k])
  {
    hide NoRepeats, QueryField, QueryNames;
    NoQueryNames(item);
    query := new Query();
    var i := 0;
    assert names[..0] == [];
    while i < |names|
      invariant 0 <= i <= |names| && query.Valid()
      invariant query.keys == QueryNames(names[..i], item)
      invariant forall k <- query.keys :: QueryField(k, item) == Some(query.values[k])
    {
      QueryNamesNext(names, i, item);
      var f := QueryField(names[i], item);
      if f.Some? {
        query.Put(names[i], f.value);
      }
      i := i + 1;
    }
    assert names[..i] == names;
  }

  // ---------- names of indexes ----------

  /** The name of the index that belongs to a key. */
  function KeyIndexName(names: seq<string>): string {
    Join(names, "_")
  }

  function Suffixed(names: seq<string>): string {
    if names == [] then "" else Suffixed(names[..|names| - 1]) + names[|names| - 1] + "_"
  }

  /** The name of the index for a query. The counter stays at 0, so every key of several gets its underscore. */
  method GetIndexNameFromQuery(query: Query) returns (name: string)
    ensures name == QueryIndexName(query.keys)
  {
    name := "";
    var querySize := |query.keys|;
    var ix := 0;
    var i := 0;
    while i < |query.keys|
      invariant 0 <= i <= |query.keys| && ix == 0
      invariant name == if querySize == 1 && i == 1 then query.keys[0] else Suffixed(query.keys[..i])
    {
      assert query.keys[..i + 1][..i] == query.keys[..i];
      name := name + query.keys[i];
      if ix < querySize - 1 {
        name := name + "_";
      }
      i := i + 1;
    }
    assert query.keys[..i] == query.keys;
    NameOfQuery(query.keys);
  }

  function QueryIndexName(names: seq<string>): string {
    KeyIndexName(names) + if |names| >= 2 then "_" else ""
  }

  lemma {:induction false} NameOfQuery(names: seq<string>)
    ensures names != [] ==> Suffixed(names) == Join(names, "_") + "_"
  {
    if |names| > 1 {
      var init := names[..|names| - 1];
      NameOfQuery(init);
      JoinLast(init, names[|names| - 1], "_");
      assert names == init + [names[|names| - 1]];
    } else if |names| == 1 {
      assert names[..0] == [];
      assert Suffixed(names) == "" + names[0] + "_";
    }
  }

  /** The names of both indexes, field by field. */
  lemma NamesJoin(names: seq<string>, name: string)
    ensures KeyIndexName([name]) == QueryIndexName([name]) == name
    ensures names != [] ==>
              && KeyIndexName(names + [name]) == KeyIndexName(names) + "_" + name
              && QueryIndexName(names + [name]) == KeyIndexName(names) + "_" + name + "_"
  {
    if names != [] {
      JoinLast(names, name, "_");
    }
  }

  /** A query of a key looks into the index of the key exactly for keys of at most one field. */
  lemma SameIndexExactly(names: seq<string>)
    ensures QueryIndexName(names) == KeyIndexName(names) <==> |names| <= 1
  {
    assert |QueryIndexName(names)| == |KeyIndexName(names)| + if |names| >= 2 then 1 else 0;
  }

  // ---------- values in indexes ----------

  /** What an item gives for a key field: a struct field under the full name, then a method, then a free field. */
  function ItemField(name: string, item: Item): Field {
    var n := Parsed(name);
    if name in item.fields then item.fields[name]
    else if n in item.methods then item.methods[n]
    else if n in item.data then item.data[n]
    else Text("")
  }

  ghost predicate ItemPrintable(names: seq<string>, item: Item) {
    forall n <- names :: Printable(ItemField(n, item))
  }

  ghost function ItemParts(names: seq<string>, item: Item): (parts: seq<string>)
    requires ItemPrintable(names, item)
    ensures |parts| == |names| && forall i :: 0 <= i < |names| ==> parts[i] == Printed(ItemField(names[i], item))
  {
    seq(|names|, i requires 0 <= i < |names| => Printed(ItemField(names[i], item)))
  }

  ghost function ItemValue(names: seq<string>, item: Item): string
    requires ItemPrintable(names, item)
  {
    Join(ItemParts(names, item), ZERO)
  }

  method GetIndexValueFromItem(names: seq<string>, item: Item) returns (value: string)
    requires ItemPrintable(names, item)
    ensures value == ItemValue(names, item)
  {
    var valueParts := new string[|names|];
    var i := 0;
    while i < |names|
      invariant 0 <= i <= |names|
      invariant forall j :: 0 <= j < i ==> valueParts[j] == Printed(ItemField(names[j], item))
    {
      valueParts[i] := Printed(ItemField(names[i], item));
      i := i + 1;
    }
    assert valueParts[..] == ItemParts(names, item);
    value := Join(valueParts[..], ZERO);
  }

  ghost predicate QueryPrintable(names: seq<string>, item: Item) {
    forall n <- names :: var f := QueryField(n, item); f.Some? && Printable(f.value)
  }

  ghost function QueryParts(names: seq<string>, item: Item): (parts: seq<string>)
    requires QueryPrintable(names, item)
    ensures |parts| == |names| && forall i :: 0 <= i < |names| ==> parts[i] == Printed(QueryField(names[i], item).value)
  {
    seq(|names|, i requires 0 <= i < |names| => Printed(QueryField(names[i], item).value))
  }

  ghost function QueryValue(names: seq<string>, item: Item): string
    requires QueryPrintable(names, item)
  {
    Join(QueryParts(names, item), ZERO)
  }

  function PartsOfPairs(keys: seq<string>, values: map<string, Field>): (parts: seq<string>)
    requires forall k <- keys :: k in values && Printable(values[k])
    ensures |parts| == |keys| && forall i :: 0 <= i < |keys| ==> parts[i] == Printed(values[keys[i]])
  {
    seq(|keys|, i requires 0 <= i < |keys| => Printed(values[keys[i]]))
  }

  /** The values of a query in its order, joined. */
  function ValueOfPairs(keys: seq<string>, values: map<string, Field>): string
    requires forall k <- keys :: k in values && Printable(values[k])
  {
    Join(PartsOfPairs(keys, values), ZERO)
  }

  method GetIndexValueFromQuery(query: Query) returns (value: string)
    requires query.Valid() && forall k <- query.keys :: Printable(query.values[k])
    ensures value == ValueOfPairs(query.keys, query.values)
  {
    var valueParts := new string[|query.keys|];
    var i := 0;
    while i < |query.keys|
      invariant 0 <= i <= |query.keys|
      invariant forall j :: 0 <= j < i ==> valueParts[j] == Printed(query.values[query.keys[j]])
    {
      valueParts[i] := Printed(query.values[query.keys[i]]);
      i := i + 1;
    }
    assert valueParts[..] == PartsOfPairs(query.keys, query.values);
    value := Join(valueParts[..], ZERO);
  }

  /** A query made from an item holds the fields the item gives to queries. */
  lemma PairsOfItem(keys: seq<string>, values: map<string, Field>, item: Item)
    requires QueryPrintable(keys, item) && forall k <- keys :: k in values && QueryField(k, item) == Some(values[k])
    ensures ValueOfPairs(keys, values) == QueryValue(keys, item)
  {
    assert PartsOfPairs(keys, values) == QueryParts(keys, item);
  }

  /** Where the value of a key field comes from: behind the prefix it is a free field, for the item unless a method, and
      for the query unless a struct field has the name; without the prefix struct fields come first. */
  lemma FieldsByName(n: string, item: Item)
    requires PlainNames(item.fields.Keys)
    ensures ItemField("ModelData." + n, item) ==
            if n in item.methods then item.methods[n] else if n in item.data then item.data[n] else Text("")
    ensures QueryField("ModelData." + n, item) ==
            if n in item.fields then Some(item.fields[n]) else if n in item.data then Some(item.data[n]) else None
    ensures !("ModelData." <= n) ==>
              && ItemField(n, item) == (if n in item.fields then item.fields[n] else if n in item.methods then item.methods[n]
                                        else if n in item.data then item.data[n] else Text(""))
              && QueryField(n, item) == (if n in item.fields then Some(item.fields[n]) else if n in item.data then Some(item.data[n])
                                         else None)
  {
    assert ("ModelData." + n)[|MODEL_DATA|..] == n;
    assert "ModelData." + n !in item.fields.Keys;
  }

  /** The value of an item in an index, field by field: the printed fields with a zero byte between them. */
  lemma ItemValueJoins(names: seq<string>, name: string, item: Item)
    requires ItemPrintable(names + [name], item)
    ensures ItemPrintable(names, item) && ItemPrintable([name], item) && Printable(ItemField(name, item))
    ensures ItemValue([name], item) == Printed(ItemField(name, item))
    ensures names != [] ==> ItemValue(names + [name], item) == ItemValue(names, item) + [0 as char] + Printed(ItemField(name, item))
  {
    hide ItemField, Printable, Printed;
    forall n | n in names ensures n in names + [name] {
    }
    assert name in names + [name] && name in [name];
    assert ItemParts([name], item) == [Printed(ItemField(name, item))];
    assert ItemParts(names + [name], item) == ItemParts(names, item) + [Printed(ItemField(name, item))];
    if names != [] {
      JoinLast(ItemParts(names, item), Printed(ItemField(name, item)), ZERO);
    }
  }

  /** The name means something else to the item than to the query: behind the prefix it names a struct field or
      a method, or without the prefix it names a method that is no struct field. */
  predicate Clashes(name: string, fields: set<string>, methods: set<string>) {
    if IsExtra(name) then Parsed(name) in fields || Parsed(name) in methods
    else name !in fields && name in methods
  }

  ghost predicate OfShape(item: Item, fields: set<string>, methods: set<string>) {
    item.fields.Keys == fields && item.methods.Keys == methods
  }

  /** The item has all its key fields and can be indexed by them. */
  ghost predicate Keyed(names: seq<string>, item: Item) {
    (forall n <- names :: HasPart(n, item)) && ItemPrintable(names, item)
  }

  lemma KeyedIsPrintable(names: seq<string>, item: Item)
    requires Keyed(names, item)
    ensures QueryPrintable(names, item) && Found(names, item) == names
  {
    FoundIs(names, item);
  }

  lemma NoClashAgrees(names: seq<string>, item: Item)
    requires PlainNames(item.fields.Keys)
    requires forall n <- names :: HasPart(n, item) && !Clashes(n, item.fields.Keys, item.methods.Keys)
    ensures Keyed(names, item) && QueryPrintable(names, item)
    ensures ItemValue(names, item) == QueryValue(names, item)
  {
    forall n | n in names ensures QueryField(n, item) == Some(ItemField(n, item)) {
      assert HasPart(n, item);
    }
    assert ItemParts(names, item) == QueryParts(names, item);
  }

  function ParsedNames(names: seq<string>): set<string> {
    set k | k in names :: Parsed(k)
  }

  function Witness(names: seq<string>, fields: set<string>, methods: set<string>): Item {
    Item(map f | f in fields :: Text("x"),
         map m | m in methods :: Text(""),
         map n | n in ParsedNames(names) && n !in fields :: Text("x"))
  }

  lemma WitnessField(name: string, names: seq<string>, fields: set<string>, methods: set<string>)
    requires PlainNames(fields) && name in names
    ensures var item := Witness(names, fields, methods);
            && QueryField(name, item) == Some(Text("x"))
            && ItemField(name, item) == Text(if Clashes(name, fields, methods) then "" else "x")
  {
    assert Parsed(name) in ParsedNames(names);
  }

  lemma ClashDisagrees(names: seq<string>, fields: set<string>, methods: set<string>)
    requires PlainNames(fields) && exists n <- names :: Clashes(n, fields, methods)
    ensures var item := Witness(names, fields, methods);
            Keyed(names, item) && QueryPrintable(names, item) && ItemValue(names, item) != QueryValue(names, item)
  {
    hide Join, Clashes, QueryField, ItemField, Witness, PlainNames;
    var item := Witness(names, fields, methods);
    forall n | n in names
      ensures QueryField(n, item) == Some(Text("x"))
      ensures ItemField(n, item) == Text(if Clashes(n, fields, methods) then "" else "x")
    {
      WitnessField(n, names, fields, methods);
    }
    var i :| 0 <= i < |names| && Clashes(names[i], fields, methods);
    JoinInjective(ItemParts(names, item), QueryParts(names, item));
    assert ItemParts(names, item)[i] != QueryParts(names, item)[i];
  }

  /** The index value of an item is the one of the query made from it, for all items with these struct fields and
      methods that have the key, exactly if no name of the key clashes. */
  lemma ValuesAgreeExactly(names: seq<string>, fields: set<string>, methods: set<string>)
    requires PlainNames(fields)
    ensures (forall n <- names :: !Clashes(n, fields, methods))
            <==> (forall item :: OfShape(item, fields, methods) && Keyed(names, item) ==>
                    QueryPrintable(names, item) && ItemValue(names, item) == QueryValue(names, item))
  {
    if forall n <- names :: !Clashes(n, fields, methods) {
      forall item | OfShape(item, fields, methods) && Keyed(names, item)
        ensures QueryPrintable(names, item) && ItemValue(names, item) == QueryValue(names, item)
      {
        NoClashAgrees(names, item);
      }
    } else {
      ClashDisagrees(names, fields, methods);
      assert OfShape(Witness(names, fields, methods), fields, methods);
    }
  }
}
