/**
 * Python dictionaries with string keys. A Python `dict` remembers the order in
 * which keys were first inserted: iterating it, or taking `.values()`, follows
 * that order, and assigning to a key that is already present keeps its place.
 */
module OrderedDict {

  predicate Distinct(s: seq<string>) {
    forall i, j :: 0 <= i < j < |s| ==> s[i] != s[j]
  }

  /** `keys` is the insertion order, `vals` the contents. */
  datatype ODict<V> = ODict(keys: seq<string>, vals: map<string, V>) {

    ghost predicate Valid() {
      Distinct(keys) && forall k :: k in vals <==> k in keys
    }

    /** `d[k] = v`. */
    function Put(k: string, v: V): (d: ODict<V>)
      requires Valid()
      ensures d.Valid()
    {
      if k in vals then ODict(keys, vals[k := v]) else ODict(keys + [k], vals[k := v])
    }

    /** `list(d.values())`. */
    function Values(): (vs: seq<V>)
      requires Valid()
      ensures |vs| == |keys|
    {
      seq(|keys|, i requires 0 <= i < |keys| => vals[keys[i]])
    }
  }

  function Empty<V>(): (d: ODict<V>)
    ensures d.Valid() && d.keys == []
  {
    ODict([], map[])
  }

  /**
   * The distinct elements of `s` in order of first appearance: the key order
   * of a dict into which the elements of `s` are inserted one after another.
   */
  function FirstAppearances(s: seq<string>): (r: seq<string>)
    ensures Distinct(r)
    ensures forall x :: x in r <==> x in s
  {
    if s == [] then []
    else
      var p := FirstAppearances(s[..|s| - 1]);
      assert forall x :: x in s <==> x in s[..|s| - 1] || x == s[|s| - 1] by {
        assert s == s[..|s| - 1] + [s[|s| - 1]];
      }
      if s[|s| - 1] in p then p else p + [s[|s| - 1]]
  }

  /** Elements seen first keep their positions when more elements follow. */
  lemma {:induction false} FirstAppearancesPrefix(a: seq<string>, b: seq<string>)
    ensures FirstAppearances(a) <= FirstAppearances(a + b)
    decreases |b|
  {
    if b != [] {
      var ab := a + b;
      FirstAppearancesPrefix(a, b[..|b| - 1]);
      assert ab[..|ab| - 1] == a + b[..|b| - 1];
    } else {
      assert a + b == a;
    }
  }

  /** One more insertion: a new key goes to the end, a key already present keeps its place. */
  lemma FirstAppearancesStep(s: seq<string>, x: string)
    ensures FirstAppearances(s + [x]) == if x in FirstAppearances(s) then FirstAppearances(s) else FirstAppearances(s) + [x]
  {
    assert (s + [x])[..|s|] == s;
  }
}

/** Properties of first-appearance order. */
module OrderedDictProperties {
  import opened OrderedDict

  /** An element listed before another was seen before the other's first occurrence. */
  lemma {:induction false} FirstAppearancesOrder(s: seq<string>, i: int, j: int, p: int)
    requires 0 <= i < j < |FirstAppearances(s)|
    requires 0 <= p < |s| && s[p] == FirstAppearances(s)[j]
    ensures FirstAppearances(s)[i] in s[..p]
  {
    var n := |s| - 1;
    var prefix := s[..n];
    var r := FirstAppearances(s);
    var q := FirstAppearances(prefix);
    assert s == prefix + [s[n]];
    FirstAppearancesStep(prefix, s[n]);
    if j < |q| {
      if p < n {
        assert prefix[p] == q[j];
        FirstAppearancesOrder(prefix, i, j, p);
        assert prefix[..p] == s[..p];
      } else {
        assert q[j] in prefix;
        var p' :| 0 <= p' < n && prefix[p'] == q[j];
        FirstAppearancesOrder(prefix, i, j, p');
        assert prefix[..p'] <= s[..p];
      }
    } else {
      assert r[j] == s[n] && s[n] !in q;
      assert r[j] !in prefix;
      assert p == n;
      assert q[i] in prefix;
      assert s[..p] == prefix;
    }
  }
}
