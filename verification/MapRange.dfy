/** Ranging over a Go map: the keys come in any order. */
module MapRange {

  /** The next key of a range loop: any of those left. */
  method NextKey<K>(left: set<K>) returns (key: K, left': set<K>)
    requires left != {}
    ensures key in left && left' == left - {key}
    ensures left' < left
  {
    assert |left| > 0;
    key :| key in left;
    left' := left - {key};
  }

  lemma SameMap<K, V>(a: map<K, V>, b: map<K, V>)
    requires a.Keys == b.Keys && forall k :: k in a ==> a[k] == b[k]
    ensures a == b
  {
  }

  /** Copying a map entry by entry. */
  method CopyMap<K(==), V>(source: map<K, V>) returns (copy: map<K, V>)
    ensures copy == source
  {
    copy := map[];
    var left := source.Keys;
    while left != {}
      invariant left <= source.Keys && copy.Keys == source.Keys - left
      invariant forall k :: k in copy ==> copy[k] == source[k]
      decreases left
    {
      var k;
      k, left := NextKey(left);
      copy := copy[k := source[k]];
    }
    SameMap(copy, source);
  }
}
