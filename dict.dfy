/**
 * A string-keyed Dictionary as the converters use it: a map together with
 * the order in which its keys were first added. Enumeration follows that
 * order; overwriting a value keeps the key where it was.
 */
module Dict {

  predicate Distinct<T(==)>(s: seq<T>) {
    forall i, j :: 0 <= i < j < |s| ==> s[i] != s[j]
  }

  datatype Dict<V> = Dict(keys: seq<string>, values: map<string, V>)

  /** The keys listed once each, and exactly the keys of the map. */
  ghost predicate Valid<V>(d: Dict<V>) {
    Distinct(d.keys) && forall k :: k in d.values <==> k in d.keys
  }

  function Empty<V>(): (d: Dict<V>)
    ensures Valid(d) && d.keys == [] && d.values == map[]
  {
    Dict([], map[])
  }

  /** dictionary[k] = v: a new key goes last, an existing key keeps its place. */
  function Put<V>(d: Dict<V>, k: string, v: V): (r: Dict<V>)
    requires Valid(d)
    ensures Valid(r)
    ensures r.values == d.values[k := v]
    ensures k in d.values ==> r.keys == d.keys
    ensures k !in d.values ==> r.keys == d.keys + [k]
  {
    if k in d.values then Dict(d.keys, d.values[k := v])
    else Dict(d.keys + [k], d.values[k := v])
  }

  /** Dictionary.Count. */
  function Count<V>(d: Dict<V>): nat {
    |d.keys|
  }

  /** Writing a key twice is writing the second value, in the first write's place. */
  lemma PutPut<V>(d: Dict<V>, k: string, v1: V, v2: V)
    requires Valid(d)
    ensures Put(Put(d, k, v1), k, v2) == Put(d, k, v2)
  {
  }

  /** Count is the number of distinct keys stored. */
  lemma CountIsCardinality<V>(d: Dict<V>)
    requires Valid(d)
    ensures Count(d) == |d.values.Keys|
  {
    DistinctCard(d.keys);
    assert d.values.Keys == set x | x in d.keys;
  }

  lemma {:induction false} DistinctCard(s: seq<string>)
    requires Distinct(s)
    ensures |set x | x in s| == |s|
  {
    if s != [] {
      var init := s[..|s| - 1];
      DistinctCard(init);
      var last := s[|s| - 1];
      assert (set x | x in s) == (set x | x in init) + {last};
      assert last !in (set x | x in init);
    }
  }

  lemma {:induction false} CardAtMostLength(s: seq<string>)
    ensures |set x | x in s| <= |s|
  {
    if s != [] {
      var init := s[..|s| - 1];
      CardAtMostLength(init);
      assert (set x | x in s) == (set x | x in init) + {s[|s| - 1]};
    }
  }

  /** Pigeonhole: a repetition-free sequence drawn from b is no longer than b. */
  lemma DistinctWithin(a: seq<string>, b: seq<string>)
    requires Distinct(a) && forall x :: x in a ==> x in b
    ensures |a| <= |b|
  {
    DistinctCard(a);
    CardAtMostLength(b);
    var sa := set x | x in a;
    var sb := set x | x in b;
    SubsetCard(sa, sb);
  }

  lemma {:induction false} SubsetCard(a: set<string>, b: set<string>)
    requires a <= b
    ensures |a| <= |b|
    decreases |a|
  {
    if a != {} {
      var x :| x in a;
      assert |a - {x}| == |a| - 1;
      assert |b - {x}| == |b| - 1;
      SubsetCard(a - {x}, b - {x});
    }
  }
}
