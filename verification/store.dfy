/**
 * The key/value store as the benchmark sees it: a finite map from byte-string
 * keys to byte-string values, ordered by the bytewise comparator, and the
 * iterator's `SeekForPrev` positioning.
 */
module Store {
  import opened Wrappers
  import opened ByteCodec
  import opened ByteOrder

  type Store = map<ByteString, ByteString>

  /** `k` is the greatest key of `keys` that sorts at or before `target`. */
  ghost predicate IsFloor(keys: set<ByteString>, target: ByteString, k: ByteString)
  {
    && k in keys
    && LexLe(k, target)
    && forall k' :: k' in keys && LexLe(k', target) ==> LexLe(k', k)
  }

  /** At most one key is the floor of a target. */
  lemma FloorUnique(keys: set<ByteString>, target: ByteString, k1: ByteString, k2: ByteString)
    requires IsFloor(keys, target, k1) && IsFloor(keys, target, k2)
    ensures k1 == k2
  {
    LexLeAntisymmetric(k1, k2);
  }

  /**
   * Where `SeekForPrev(target)` leaves a valid iterator: on the greatest key at
   * or before `target`, or nowhere when every key sorts after it.
   */
  ghost function Floor(keys: set<ByteString>, target: ByteString): (r: Option<ByteString>)
    ensures r.None? <==> forall k :: k in keys ==> !LexLe(k, target)
    ensures r.Some? ==> IsFloor(keys, target, r.value)
    decreases keys
  {
    if keys == {} then None
    else
      var x :| x in keys;
      var rest := Floor(keys - {x}, target);
      if !LexLe(x, target) then
        rest
      else if rest.Some? && LexLe(x, rest.value) then
        assert forall k' :: k' in keys && LexLe(k', target) ==> LexLe(k', rest.value);
        rest
      else if rest.Some? then
        LexLeTotal(x, rest.value);
        assert forall k' :: k' in keys - {x} && LexLe(k', target) ==> LexLe(k', x) by {
          forall k' | k' in keys - {x} && LexLe(k', target)
            ensures LexLe(k', x)
          {
            LexLeTransitive(k', rest.value, x);
          }
        }
        LexLeReflexive(x);
        Some(x)
      else
        LexLeReflexive(x);
        Some(x)
  }

  /** The iterator's `SeekForPrev`: a scan of the key set keeping the best candidate. */
  method SeekForPrev(keys: set<ByteString>, target: ByteString) returns (found: Option<ByteString>)
    ensures found.None? <==> forall k :: k in keys ==> !LexLe(k, target)
    ensures found.Some? ==> IsFloor(keys, target, found.value)
    ensures found == Floor(keys, target)
  {
    found := None;
    var rest := keys;
    while rest != {}
      invariant rest <= keys
      invariant found.None? ==> forall k :: k in keys - rest ==> !LexLe(k, target)
      invariant found.Some? ==> IsFloor(keys - rest, target, found.value)
      decreases rest
    {
      var k :| k in rest;
      if LexLe(k, target) {
        if found.None? {
          LexLeReflexive(k);
          found := Some(k);
        } else if LexLe(found.value, k) {
          forall k' | k' in keys - (rest - {k}) && LexLe(k', target)
            ensures LexLe(k', k)
          {
            if k' != k {
              LexLeTransitive(k', found.value, k);
            } else {
              LexLeReflexive(k);
            }
          }
          found := Some(k);
        } else {
          LexLeTotal(k, found.value);
        }
      }
      rest := rest - {k};
    }
    assert keys - rest == keys;
    var f := Floor(keys, target);
    if found.Some? {
      FloorUnique(keys, target, found.value, f.value);
    }
  }
}
