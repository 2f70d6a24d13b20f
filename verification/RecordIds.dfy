/** Record ids as bucket keys: 32-bit numbers, big-endian. */
module RecordIds {
  import opened ByteStrings

  const TWO_32 := 0x1_0000_0000

  function BigEndian(n: nat, width: nat): (b: Bytes)
    ensures |b| == width
  {
    if width == 0 then "" else BigEndian(n / 256, width - 1) + [(n % 256) as char]
  }

  function IdBytes(id: nat): (b: Bytes)
    requires id < TWO_32
    ensures |b| == 4
  {
    BigEndian(id, 4)
  }

  function Power256(width: nat): nat {
    if width == 0 then 1 else 256 * Power256(width - 1)
  }

  lemma {:induction false} LessByPrefix(a: Bytes, b: Bytes, x: char, y: char)
    requires |a| == |b| && Less(a, b)
    ensures Less(a + [x], b + [y])
  {
    assert (a + [x])[0] == a[0] && (b + [y])[0] == b[0];
    if a[0] == b[0] {
      LessByPrefix(a[1..], b[1..], x, y);
      assert (a + [x])[1..] == a[1..] + [x] && (b + [y])[1..] == b[1..] + [y];
    }
  }

  /** Big-endian numbers of one width are ordered as numbers. */
  lemma {:induction false} OrderKept(n: nat, m: nat, width: nat)
    requires n < m < Power256(width)
    ensures Less(BigEndian(n, width), BigEndian(m, width))
  {
    if n / 256 < m / 256 {
      OrderKept(n / 256, m / 256, width - 1);
      LessByPrefix(BigEndian(n / 256, width - 1), BigEndian(m / 256, width - 1), (n % 256) as char, (m % 256) as char);
    } else {
      LessUnderPrefix(BigEndian(n / 256, width - 1), [(n % 256) as char], [(m % 256) as char]);
    }
  }

  lemma IdsAreOrdered(n: nat, m: nat)
    requires n < TWO_32 && m < TWO_32
    ensures n < m <==> Less(IdBytes(n), IdBytes(m))
    ensures n == m <==> IdBytes(n) == IdBytes(m)
  {
    assert Power256(4) == 256 * (256 * (256 * (256 * 1)));
    LessTotal(IdBytes(n), IdBytes(m));
    if n < m {
      OrderKept(n, m, 4);
    } else if m < n {
      OrderKept(m, n, 4);
    }
  }

  /** The largest id whose key sorts below the names of the index buckets. */
  const LAST_BELOW_INDEXES: nat := 0x5F5F_696E

  lemma LastBelow()
    ensures IdBytes(LAST_BELOW_INDEXES) == "__in"
  {
    assert BigEndian(0x5F, 1) == ['_'];
    assert BigEndian(0x5F5F, 2) == ['_', '_'];
    assert BigEndian(0x5F_5F69, 3) == ['_', '_', 'i'];
  }

  /** Records come before an index bucket in the order of the keys exactly up to that id. */
  lemma BelowIndexes(id: nat, name: Bytes)
    requires id < TWO_32 && "__index_" <= name
    ensures Less(IdBytes(id), name) <==> id <= LAST_BELOW_INDEXES
    ensures IdBytes(id) != name
  {
    var b := IdBytes(id);
    LastBelow();
    IdsAreOrdered(id, LAST_BELOW_INDEXES);
    var rest := name[4..];
    assert name == "__in" + rest && rest != "";
    if id == LAST_BELOW_INDEXES {
      PrefixFirst("__in", name);
    } else if id < LAST_BELOW_INDEXES {
      PrefixFirst("__in", name);
      LessTransitive(b, "__in", name);
    } else {
      IdsAreOrdered(LAST_BELOW_INDEXES, id);
      LongerStaysBelow("__in", rest, b);
      LessTotal(b, name);
    }
  }

  lemma {:induction false} LongerStaysBelow(a: Bytes, rest: Bytes, b: Bytes)
    requires |a| == |b| && Less(a, b)
    ensures Less(a + rest, b)
  {
    assert (a + rest)[0] == a[0];
    if a[0] == b[0] {
      LongerStaysBelow(a[1..], rest, b[1..]);
      assert (a + rest)[1..] == a[1..] + rest;
    }
  }
}
