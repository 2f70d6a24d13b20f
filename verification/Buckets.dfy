/** A bolt bucket inside a writable transaction: values under keys, one level of nested buckets, and a sequence. */
module Buckets {
  import opened Options
  import opened ByteStrings

  const MAX_KEY_SIZE: nat := 32768

  /** What bolt demands of a key that is put. */
  predicate IsKey(k: Bytes) {
    0 < |k| <= MAX_KEY_SIZE
  }

  /** The rows of a flat bucket after Put, or None where Put fails. */
  function PutRow(rows: map<Bytes, Bytes>, k: Bytes, v: Bytes): Option<map<Bytes, Bytes>> {
    if IsKey(k) then Some(rows[k := v]) else None
  }

  class Bucket<V> {
    var values: map<Bytes, V>
    var nested: map<Bytes, map<Bytes, Bytes>>
    var sequence: nat

    constructor (values: map<Bytes, V>, nested: map<Bytes, map<Bytes, Bytes>>, sequence: nat)
      ensures this.values == values && this.nested == nested && this.sequence == sequence
    {
      this.values, this.nested, this.sequence := values, nested, sequence;
    }

    /** Nothing under a key that holds a nested bucket. */
    function Get(k: Bytes): Option<V>
      reads this
    {
      if k in values && k !in nested then Some(values[k]) else None
    }

    method Put(k: Bytes, v: V) returns (ok: bool)
      modifies this`values
      ensures ok <==> IsKey(k) && k !in nested
      ensures values == if ok then old(values)[k := v] else old(values)
    {
      ok := IsKey(k) && k !in nested;
      if ok {
        values := values[k := v];
      }
    }

    /** Deleting a missing key is no error, deleting a nested bucket this way is. */
    method Delete(k: Bytes) returns (ok: bool)
      modifies this`values
      ensures ok <==> k !in nested
      ensures values == if ok then old(values) - {k} else old(values)
    {
      ok := k !in nested;
      if ok {
        values := values - {k};
      }
    }

    method NextSequence() returns (n: nat)
      modifies this`sequence
      ensures n == sequence == old(sequence) + 1
    {
      sequence := sequence + 1;
      n := sequence;
    }

    method CreateBucketIfNotExists(name: Bytes) returns (ok: bool)
      modifies this`nested
      ensures ok <==> name in old(nested) || (name != "" && name !in values)
      ensures nested == if ok && name !in old(nested) then old(nested)[name := map[]] else old(nested)
    {
      ok := name in nested || (name != "" && name !in values);
      if ok && name !in nested {
        nested := nested[name := map[]];
      }
    }
  }
}
