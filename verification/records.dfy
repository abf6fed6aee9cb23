/** JavaScript objects used as dictionaries (`Record<string, V>`): a map
    together with the order in which its keys were first inserted, which is
    the order `Object.entries` enumerates them in. */
module Records {

  datatype Dict<V> = Dict(keys: seq<string>, vals: map<string, V>)

  predicate Distinct(s: seq<string>) {
    forall i, j :: 0 <= i < j < |s| ==> s[i] != s[j]
  }

  /** Every key is listed once, and the listed keys are exactly the map's. */
  ghost predicate Valid<V>(d: Dict<V>) {
    && Distinct(d.keys)
    && (forall k :: k in d.vals <==> k in d.keys)
  }

  function Empty<V>(): (d: Dict<V>)
    ensures Valid(d) && d.keys == []
  {
    Dict([], map[])
  }

  /** `d[k] = v`: a new key goes to the end of the enumeration order, an
      existing key keeps its place. */
  function Put<V>(d: Dict<V>, k: string, v: V): (r: Dict<V>)
    ensures Valid(d) ==> Valid(r)
    ensures r.vals == d.vals[k := v]
    ensures r.keys == if k in d.vals then d.keys else d.keys + [k]
  {
    if k in d.vals then Dict(d.keys, d.vals[k := v]) else Dict(d.keys + [k], d.vals[k := v])
  }

  /** `d[k] || dflt` for a dictionary whose values are never falsy. */
  function Get<V>(d: Dict<V>, k: string, dflt: V): V {
    if k in d.vals then d.vals[k] else dflt
  }

  /** `d[k] = (d[k] || 0) + 1`. */
  function Increment(d: Dict<nat>, k: string): (r: Dict<nat>)
    ensures Valid(d) ==> Valid(r)
    ensures r.vals == d.vals[k := Get(d, k, 0) + 1]
  {
    Put(d, k, Get(d, k, 0) + 1)
  }

  function SumOver(keys: seq<string>, vals: map<string, nat>): nat
    requires forall i :: 0 <= i < |keys| ==> keys[i] in vals
  {
    if keys == [] then 0 else SumOver(keys[..|keys| - 1], vals) + vals[keys[|keys| - 1]]
  }

  /** `Object.values(d).reduce((a, b) => a + b, 0)`. */
  function Sum(d: Dict<nat>): nat
    requires Valid(d)
  {
    SumOver(d.keys, d.vals)
  }

  lemma {:induction false} SumOverUnchanged(keys: seq<string>, vals: map<string, nat>, k: string, v: nat)
    requires forall i :: 0 <= i < |keys| ==> keys[i] in vals
    requires k !in keys
    ensures SumOver(keys, vals[k := v]) == SumOver(keys, vals)
  {
    if keys != [] {
      SumOverUnchanged(keys[..|keys| - 1], vals, k, v);
    }
  }

  lemma {:induction false} SumOverBump(keys: seq<string>, vals: map<string, nat>, k: string)
    requires forall i :: 0 <= i < |keys| ==> keys[i] in vals
    requires Distinct(keys) && k in keys
    ensures SumOver(keys, vals[k := vals[k] + 1]) == SumOver(keys, vals) + 1
  {
    var last := keys[|keys| - 1];
    var init := keys[..|keys| - 1];
    if last == k {
      assert k !in init;
      SumOverUnchanged(init, vals, k, vals[k] + 1);
    } else {
      assert k in init;
      SumOverBump(init, vals, k);
    }
  }

  lemma SumOverNew(keys: seq<string>, vals: map<string, nat>, k: string)
    requires forall i :: 0 <= i < |keys| ==> keys[i] in vals
    requires k !in keys
    ensures SumOver(keys + [k], vals[k := 1]) == SumOver(keys, vals) + 1
  {
    assert (keys + [k])[..|keys|] == keys;
    SumOverUnchanged(keys, vals, k, 1);
  }

  /** Counting one more occurrence of `k` adds one to the total. */
  lemma SumIncrement(d: Dict<nat>, k: string)
    requires Valid(d)
    ensures Sum(Increment(d, k)) == Sum(d) + 1
  {
    if k in d.vals {
      assert Increment(d, k) == Dict(d.keys, d.vals[k := d.vals[k] + 1]);
      SumOverBump(d.keys, d.vals, k);
    } else {
      SumOverNew(d.keys, d.vals, k);
    }
  }

  /** Position of a key in the enumeration order. */
  function IndexOfKey(keys: seq<string>, k: string): (i: nat)
    requires k in keys
    ensures i < |keys| && keys[i] == k && k !in keys[..i]
  {
    if keys[0] == k then 0 else 1 + IndexOfKey(keys[1..], k)
  }

  /** The key listed first among those with the largest value among
      `keys`: the first entry after a stable descending sort by value. */
  function TopOf(keys: seq<string>, vals: map<string, nat>): (t: string)
    requires keys != []
    requires forall i :: 0 <= i < |keys| ==> keys[i] in vals
    ensures t in keys && t in vals
    ensures forall i :: 0 <= i < |keys| ==> vals[keys[i]] <= vals[t]
    ensures forall i :: 0 <= i < |keys| && keys[i] != t && vals[keys[i]] == vals[t] ==>
              exists j :: 0 <= j < i && keys[j] == t
  {
    if |keys| == 1 then keys[0]
    else
      var t := TopOf(keys[..|keys| - 1], vals);
      var last := keys[|keys| - 1];
      if vals[last] > vals[t] then last else t
  }

  /** `Object.entries(d).sort((a, b) => b[1] - a[1])[0]`, by key. */
  function Top(d: Dict<nat>): (t: string)
    requires Valid(d) && d.keys != []
    ensures t in d.vals
    ensures forall k :: k in d.vals ==> d.vals[k] <= d.vals[t]
  {
    TopOf(d.keys, d.vals)
  }

  /** Any one value is at most the sum of all of them. */
  lemma {:induction false} ValueAtMostSum(keys: seq<string>, vals: map<string, nat>, k: string)
    requires forall i :: 0 <= i < |keys| ==> keys[i] in vals
    requires k in keys
    ensures vals[k] <= SumOver(keys, vals)
  {
    if keys[|keys| - 1] != k {
      assert k in keys[..|keys| - 1];
      ValueAtMostSum(keys[..|keys| - 1], vals, k);
    }
  }

  /** A non-empty dictionary of counts with no zero count has a positive sum. */
  lemma {:induction false} SumPositive(keys: seq<string>, vals: map<string, nat>)
    requires forall i :: 0 <= i < |keys| ==> keys[i] in vals && vals[keys[i]] > 0
    ensures SumOver(keys, vals) > 0 <==> keys != []
  {
    if keys != [] {
      SumPositive(keys[..|keys| - 1], vals);
    }
  }
}
