/** What several components share. */
module Common {
  datatype Option<+T> = None | Some(value: T)

  type Byte = b: int | 0 <= b < 256

  /** The keys whose values satisfy `which`. */
  ghost function Those<K(!new), V>(m: map<K, V>, which: V -> bool): (r: set<K>) {
    set k | k in m && which(m[k])
  }

  lemma WithoutOne<T>(s: set<T>, x: T)
    ensures |s - {x}| == |s| - (if x in s then 1 else 0)
  {
    assert x !in s ==> s - {x} == s;
  }

  /** How their number changes when one key gets a new value. */
  lemma ThoseAfter<K(!new), V>(m: map<K, V>, k: K, v: V, which: V -> bool)
    ensures |Those(m[k := v], which)| ==
      |Those(m, which)| - (if k in m && which(m[k]) then 1 else 0) + (if which(v) then 1 else 0)
  {
    var was, now := Those(m, which), Those(m[k := v], which);
    assert now - {k} == was - {k};
    assert k in was <==> k in m && which(m[k]);
    assert k in now <==> which(v);
    WithoutOne(was, k);
    WithoutOne(now, k);
  }
}
