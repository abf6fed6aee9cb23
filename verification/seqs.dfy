/** The array operations the code calls: `filter`, counting, a stable
    `sort` by a descending two-part key (what `Array.prototype.sort` does
    with a comparator such as `b.x - a.x || b.y - a.y`), and the
    keep-the-first-row-per-key pass of the upload loops. */
module Seqs {

  /** `s.filter(p)`. */
  function Filter<T>(s: seq<T>, p: T -> bool): (r: seq<T>)
    ensures |r| <= |s|
  {
    if s == [] then [] else if p(s[0]) then [s[0]] + Filter(s[1..], p) else Filter(s[1..], p)
  }

  /** `Filter` keeps exactly the elements that satisfy the predicate. */
  lemma {:induction false} FilterIn<T>(s: seq<T>, p: T -> bool, x: T)
    ensures x in Filter(s, p) <==> x in s && p(x)
  {
    if s != [] {
      FilterIn(s[1..], p, x);
      assert s == [s[0]] + s[1..];
    }
  }

  lemma {:induction false} FilterNone<T>(s: seq<T>, p: T -> bool)
    requires forall x :: x in s ==> !p(x)
    ensures Filter(s, p) == []
  {
    if s != [] {
      FilterNone(s[1..], p);
    }
  }

  lemma InLast<T>(s: seq<T>, x: T)
    requires s != []
    ensures x in s <==> x in s[..|s| - 1] || x == s[|s| - 1]
  {
    assert s == s[..|s| - 1] + [s[|s| - 1]];
  }

  /** A non-empty sequence is its prefix followed by its last element. */
  lemma SplitLast<T>(s: seq<T>)
    requires s != []
    ensures s == s[..|s| - 1] + [s[|s| - 1]]
  {
  }

  lemma PrefixSnoc<T>(s: seq<T>, i: nat)
    requires i < |s|
    ensures s[..i + 1] == s[..i] + [s[i]]
  {
  }

  lemma AppendAssoc<T>(a: seq<T>, b: seq<T>, c: seq<T>)
    ensures a + (b + c) == (a + b) + c
  {
  }

  function Count<T>(s: seq<T>, p: T -> bool): nat {
    |Filter(s, p)|
  }

  lemma {:induction false} FilterAppend<T>(a: seq<T>, b: seq<T>, p: T -> bool)
    ensures Filter(a + b, p) == Filter(a, p) + Filter(b, p)
  {
    if a != [] {
      assert (a + b)[0] == a[0];
      assert (a + b)[1..] == a[1..] + b;
      FilterAppend(a[1..], b, p);
      if p(a[0]) {
        assert Filter(a + b, p) == [a[0]] + (Filter(a[1..], p) + Filter(b, p));
      } else {
        assert Filter(a + b, p) == Filter(a[1..], p) + Filter(b, p);
      }
    } else {
      assert a + b == b;
    }
  }

  /** Filtering keeps the order: the kept elements of a prefix come first. */
  lemma FilterSnoc<T>(s: seq<T>, x: T, p: T -> bool)
    ensures Filter(s + [x], p) == if p(x) then Filter(s, p) + [x] else Filter(s, p)
  {
    FilterAppend(s, [x], p);
  }

  /** `s.map(f)`. */
  function Map<A, B>(s: seq<A>, f: A -> B): (r: seq<B>)
    ensures |r| == |s|
  {
    if s == [] then [] else [f(s[0])] + Map(s[1..], f)
  }

  lemma {:induction false} MapAppend<A, B>(a: seq<A>, b: seq<A>, f: A -> B)
    ensures Map(a + b, f) == Map(a, f) + Map(b, f)
  {
    if a != [] {
      assert (a + b)[1..] == a[1..] + b;
      MapAppend(a[1..], b, f);
    } else {
      assert a + b == b;
    }
  }

  lemma {:induction false} MapAt<A, B>(s: seq<A>, f: A -> B, k: nat)
    requires k < |s|
    ensures Map(s, f)[k] == f(s[k])
  {
    if k > 0 {
      MapAt(s[1..], f, k - 1);
    }
  }

  /** A filter every element passes keeps the sequence as it is. */
  lemma {:induction false} FilterAll<T>(s: seq<T>, p: T -> bool)
    requires forall x :: x in s ==> p(x)
    ensures Filter(s, p) == s
  {
    if s != [] {
      FilterAll(s[1..], p);
      assert s == [s[0]] + s[1..];
    }
  }

  /** Filtering twice is filtering once by both predicates. */
  lemma {:induction false} FilterFilter<T>(s: seq<T>, p: T -> bool, q: T -> bool, both: T -> bool)
    requires forall x :: both(x) == (p(x) && q(x))
    ensures Filter(Filter(s, p), q) == Filter(s, both)
  {
    if s != [] {
      FilterFilter(s[1..], p, q, both);
      if p(s[0]) {
        var t := [s[0]] + Filter(s[1..], p);
        assert t[0] == s[0] && t[1..] == Filter(s[1..], p);
      }
    }
  }

  /** Two filters whose predicates exclude each other together keep at
      most all the elements. */
  lemma {:induction false} CountDisjoint<T>(s: seq<T>, p: T -> bool, q: T -> bool)
    requires forall x :: x in s ==> !(p(x) && q(x))
    ensures Count(s, p) + Count(s, q) <= |s|
  {
    if s != [] {
      CountDisjoint(s[1..], p, q);
    }
  }

  /** Two complementary filters split the sequence. */
  lemma {:induction false} CountComplement<T>(s: seq<T>, p: T -> bool, q: T -> bool)
    requires forall x :: x in s ==> (p(x) <==> !q(x))
    ensures Count(s, p) + Count(s, q) == |s|
  {
    if s != [] {
      CountComplement(s[1..], p, q);
    }
  }

  /** A weaker predicate keeps at least as much. */
  lemma {:induction false} CountMono<T>(s: seq<T>, p: T -> bool, q: T -> bool)
    requires forall x :: x in s && p(x) ==> q(x)
    ensures Count(s, p) <= Count(s, q)
  {
    if s != [] {
      CountMono(s[1..], p, q);
    }
  }

  /** `Filter` keeps exactly the elements satisfying the predicate, as a
      multiset. */
  lemma {:induction false} FilterMultiset<T>(s: seq<T>, p: T -> bool, x: T)
    ensures multiset(Filter(s, p))[x] == if p(x) then multiset(s)[x] else 0
  {
    if s != [] {
      FilterMultiset(s[1..], p, x);
      assert s == [s[0]] + s[1..];
    }
  }

  // ---------------------------------------------------------------------
  // Stable sort by a descending key (primary, then secondary).

  /** `a` strictly precedes `b`: larger primary key, or equal primary key
      and larger secondary key. */
  predicate Outranks(a: (int, int), b: (int, int)) {
    a.0 > b.0 || (a.0 == b.0 && a.1 > b.1)
  }

  ghost predicate SortedDesc<T>(s: seq<T>, key: T -> (int, int)) {
    forall i, j :: 0 <= i < j < |s| ==> !Outranks(key(s[j]), key(s[i]))
  }

  /** Inserts `x` after every element it does not strictly outrank. */
  function Insert<T>(x: T, s: seq<T>, key: T -> (int, int)): (r: seq<T>)
    ensures multiset(r) == multiset(s) + multiset{x}
  {
    if s == [] then [x]
    else if Outranks(key(x), key(s[0])) then [x] + s
    else
      assert s == [s[0]] + s[1..];
      [s[0]] + Insert(x, s[1..], key)
  }

  /** Insertion keeps a descending sequence descending. */
  lemma {:induction false} InsertSorted<T>(x: T, s: seq<T>, key: T -> (int, int))
    requires SortedDesc(s, key)
    ensures SortedDesc(Insert(x, s, key), key)
  {
    if s != [] && !Outranks(key(x), key(s[0])) {
      var t := Insert(x, s[1..], key);
      assert SortedDesc(s[1..], key);
      InsertSorted(x, s[1..], key);
      assert multiset(t) == multiset(s[1..]) + multiset{x};
      forall y | y in multiset(t) ensures !Outranks(key(y), key(s[0])) {
        if y != x {
          assert y in s[1..];
          var m :| 0 <= m < |s[1..]| && s[1..][m] == y;
          assert s[m + 1] == y;
        }
      }
      SortedCons(s[0], t, key);
    }
  }

  /** A head no later element outranks, before a descending sequence. */
  lemma SortedCons<T>(a: T, t: seq<T>, key: T -> (int, int))
    requires SortedDesc(t, key)
    requires forall y | y in multiset(t) :: !Outranks(key(y), key(a))
    ensures SortedDesc([a] + t, key)
  {
    var r := [a] + t;
    forall i, j | 0 <= i < j < |r| ensures !Outranks(key(r[j]), key(r[i])) {
      assert r[j] == t[j - 1];
      assert t[j - 1] in multiset(t);
      if i > 0 {
        assert r[i] == t[i - 1];
      }
    }
  }

  /** `s.sort(cmp)` with a comparator ordering by `key` descending: sorted,
      a permutation of the input (stability is `SortStable`). */
  function Sort<T>(s: seq<T>, key: T -> (int, int)): (r: seq<T>)
    ensures multiset(r) == multiset(s)
    ensures |r| == |s|
    ensures SortedDesc(r, key)
  {
    if s == [] then []
    else
      var init, last := s[..|s| - 1], s[|s| - 1];
      assert s == init + [last];
      var r := Insert(last, Sort(init, key), key);
      InsertSorted(last, Sort(init, key), key);
      assert multiset(r) == multiset(init) + multiset{last};
      assert |r| == |multiset(r)|;
      r
  }

  /** The elements whose key is `k`. */
  function KeyIs<T>(key: T -> (int, int), k: (int, int)): T -> bool {
    y => key(y) == k
  }

  /** Inserting `x` into a sorted sequence puts it after every element of
      the same key. */
  lemma {:induction false} FilterInsert<T>(x: T, s: seq<T>, key: T -> (int, int), k: (int, int))
    requires SortedDesc(s, key)
    ensures Filter(Insert(x, s, key), KeyIs(key, k))
         == if key(x) == k then Filter(s, KeyIs(key, k)) + [x] else Filter(s, KeyIs(key, k))
  {
    var p := KeyIs(key, k);
    if s == [] {
      assert Insert(x, s, key) == [x];
      assert Filter([x], p) == if p(x) then [x] else [];
    } else if Outranks(key(x), key(s[0])) {
      assert Insert(x, s, key) == [x] + s;
      FilterAppend([x], s, p);
      assert Filter([x], p) == if p(x) then [x] else [];
      if key(x) == k {
        BelowHeadFiltered(s, key, k);
      }
    } else {
      var t := Insert(x, s[1..], key);
      assert Insert(x, s, key) == [s[0]] + t;
      assert SortedDesc(s[1..], key);
      FilterInsert(x, s[1..], key, k);
      FilterAppend([s[0]], t, p);
      FilterAppend([s[0]], s[1..], p);
      assert s == [s[0]] + s[1..];
    }
  }

  /** No element of a descending sequence has a key that strictly outranks
      the head's. */
  lemma BelowHeadFiltered<T>(s: seq<T>, key: T -> (int, int), k: (int, int))
    requires SortedDesc(s, key) && s != [] && Outranks(k, key(s[0]))
    ensures Filter(s, KeyIs(key, k)) == []
  {
    forall y | y in s ensures !KeyIs(key, k)(y) {
      var i :| 0 <= i < |s| && s[i] == y;
      if i > 0 { assert !Outranks(key(s[i]), key(s[0])); }
    }
    FilterNone(s, KeyIs(key, k));
  }

  lemma FilterLast<T>(s: seq<T>, p: T -> bool)
    requires s != []
    ensures Filter(s, p) == if p(s[|s| - 1]) then Filter(s[..|s| - 1], p) + [s[|s| - 1]] else Filter(s[..|s| - 1], p)
  {
    FilterAppend(s[..|s| - 1], [s[|s| - 1]], p);
    assert s[..|s| - 1] + [s[|s| - 1]] == s;
  }

  lemma SortSnoc<T>(s: seq<T>, key: T -> (int, int))
    requires s != []
    ensures Sort(s, key) == Insert(s[|s| - 1], Sort(s[..|s| - 1], key), key)
  {
  }

  /** Sorting is stable: the elements sharing any one key keep their input
      order. */
  lemma {:induction false} SortStable<T>(s: seq<T>, key: T -> (int, int), k: (int, int))
    ensures Filter(Sort(s, key), KeyIs(key, k)) == Filter(s, KeyIs(key, k))
  {
    if s != [] {
      var init := s[..|s| - 1];
      SortStable(init, key, k);
      SortSnoc(s, key);
      FilterInsert(s[|s| - 1], Sort(init, key), key, k);
      FilterLast(s, KeyIs(key, k));
    }
  }

  /** Filtering a descending sequence leaves it descending. */
  lemma {:induction false} FilterSorted<T>(s: seq<T>, key: T -> (int, int), p: T -> bool)
    requires SortedDesc(s, key)
    ensures SortedDesc(Filter(s, p), key)
  {
    if s != [] {
      assert SortedDesc(s[1..], key);
      FilterSorted(s[1..], key, p);
      if p(s[0]) {
        var t := Filter(s[1..], p);
        var r := [s[0]] + t;
        forall i, j | 0 <= i < j < |r| ensures !Outranks(key(r[j]), key(r[i])) {
          assert r[j] == t[j - 1];
          if i == 0 {
            FilterIn(s[1..], p, t[j - 1]);
            var m :| 0 <= m < |s[1..]| && s[1..][m] == t[j - 1];
            assert s[m + 1] == t[j - 1];
          } else {
            assert r[i] == t[i - 1];
          }
        }
      }
    }
  }

  /** Two filters can be applied in either order. */
  lemma {:induction false} FilterCommute<T>(s: seq<T>, p: T -> bool, q: T -> bool)
    ensures Filter(Filter(s, p), q) == Filter(Filter(s, q), p)
  {
    if s != [] {
      FilterCommute(s[1..], p, q);
      var x := s[0];
      var fp, fq := Filter(s[1..], p), Filter(s[1..], q);
      assert ([x] + fp)[0] == x && ([x] + fp)[1..] == fp;
      assert ([x] + fq)[0] == x && ([x] + fq)[1..] == fq;
    }
  }

  // ---------------------------------------------------------------------
  // Keeping the first row for each key.

  /** The rows kept by a pass that skips a row whose key is empty or already
      in `seen`, and otherwise keeps it and adds its key to `seen`. */
  function KeepFirstFrom<T>(rows: seq<T>, key: T -> string, seen: set<string>): seq<T>
  {
    if rows == [] then []
    else
      var k := key(rows[0]);
      if k == "" || k in seen then KeepFirstFrom(rows[1..], key, seen)
      else [rows[0]] + KeepFirstFrom(rows[1..], key, seen + {k})
  }

  function KeepFirst<T>(rows: seq<T>, key: T -> string): seq<T> {
    KeepFirstFrom(rows, key, {})
  }

  /** One step of the pass. */
  lemma KeepFirstFromCons<T>(x: T, rest: seq<T>, key: T -> string, seen: set<string>)
    ensures KeepFirstFrom([x] + rest, key, seen)
         == if key(x) == "" || key(x) in seen then KeepFirstFrom(rest, key, seen)
            else [x] + KeepFirstFrom(rest, key, seen + {key(x)})
  {
    assert ([x] + rest)[0] == x && ([x] + rest)[1..] == rest;
  }

  /** The pass seen from a loop that has kept `out` and is at row `j`. */
  lemma KeepFirstStep<T>(rows: seq<T>, key: T -> string, j: nat, out: seq<T>, seen: set<string>)
    requires j < |rows|
    ensures var k := key(rows[j]);
            var skip := k == "" || k in seen;
            && out + KeepFirstFrom(rows[j..], key, seen)
               == (if skip then out else out + [rows[j]]) + KeepFirstFrom(rows[j + 1..], key, if skip then seen else seen + {k})
            && SeenAfter(rows[j..], key, seen) == SeenAfter(rows[j + 1..], key, if skip then seen else seen + {k})
  {
    assert rows[j..] == [rows[j]] + rows[j + 1..];
    KeepFirstFromCons(rows[j], rows[j + 1..], key, seen);
    var k := key(rows[j]);
    if k != "" && k in seen {
      assert seen + {k} == seen;
    }
  }

  /** The keys a pass started with `seen` has seen after `rows`. */
  function SeenAfter<T>(rows: seq<T>, key: T -> string, seen: set<string>): set<string> {
    if rows == [] then seen
    else SeenAfter(rows[1..], key, if key(rows[0]) == "" then seen else seen + {key(rows[0])})
  }

  /** A pass over `a + b` is a pass over `a` followed by a pass over `b`. */
  lemma {:induction false} KeepFirstFromAppend<T>(a: seq<T>, b: seq<T>, key: T -> string, seen: set<string>)
    ensures KeepFirstFrom(a + b, key, seen)
         == KeepFirstFrom(a, key, seen) + KeepFirstFrom(b, key, SeenAfter(a, key, seen))
  {
    if a == [] {
      assert a + b == b;
    } else {
      assert a + b == [a[0]] + (a[1..] + b);
      KeepFirstFromCons(a[0], a[1..] + b, key, seen);
      var k := key(a[0]);
      var seen' := if k == "" then seen else seen + {k};
      if k == "" || k in seen {
        assert seen' == seen;
        KeepFirstFromAppend(a[1..], b, key, seen);
      } else {
        KeepFirstFromAppend(a[1..], b, key, seen');
      }
    }
  }

  /** Every kept row has a non-empty key not seen before, and is the first
      row of the input with that key. */
  lemma {:induction false} KeepFirstFromFirst<T>(rows: seq<T>, key: T -> string, seen: set<string>, m: nat)
    requires m < |KeepFirstFrom(rows, key, seen)|
    ensures var o := KeepFirstFrom(rows, key, seen)[m];
            && key(o) != "" && key(o) !in seen
            && exists i :: 0 <= i < |rows| && rows[i] == o
                           && forall j :: 0 <= j < i ==> key(rows[j]) != key(o)
  {
    var k := key(rows[0]);
    var o := KeepFirstFrom(rows, key, seen)[m];
    if k == "" || k in seen {
      KeepFirstFromFirst(rows[1..], key, seen, m);
      FirstInTail(rows, key, o);
    } else if m == 0 {
      assert rows[0] == o;
    } else {
      KeepFirstFromFirst(rows[1..], key, seen + {k}, m - 1);
      FirstInTail(rows, key, o);
    }
  }

  /** The first row of the tail with a key the head lacks is the first row
      of the whole with that key. */
  lemma FirstInTail<T>(rows: seq<T>, key: T -> string, o: T)
    requires rows != [] && key(rows[0]) != key(o)
    requires exists i :: 0 <= i < |rows[1..]| && rows[1..][i] == o
                         && forall j :: 0 <= j < i ==> key(rows[1..][j]) != key(o)
    ensures exists i :: 0 <= i < |rows| && rows[i] == o
                        && forall j :: 0 <= j < i ==> key(rows[j]) != key(o)
  {
    var i :| 0 <= i < |rows[1..]| && rows[1..][i] == o
             && forall j :: 0 <= j < i ==> key(rows[1..][j]) != key(o);
    assert rows[i + 1] == o;
    forall j | 0 <= j < i + 1 ensures key(rows[j]) != key(o) {
      if j > 0 { assert rows[j] == rows[1..][j - 1]; }
    }
  }

  /** Kept rows have pairwise different keys. */
  lemma {:induction false} KeepFirstFromDistinct<T>(rows: seq<T>, key: T -> string, seen: set<string>, a: nat, b: nat)
    requires a < b < |KeepFirstFrom(rows, key, seen)|
    ensures key(KeepFirstFrom(rows, key, seen)[a]) != key(KeepFirstFrom(rows, key, seen)[b])
  {
    var k := key(rows[0]);
    if k == "" || k in seen {
      KeepFirstFromDistinct(rows[1..], key, seen, a, b);
    } else if a == 0 {
      KeepFirstFromFirst(rows[1..], key, seen + {k}, b - 1);
    } else {
      KeepFirstFromDistinct(rows[1..], key, seen + {k}, a - 1, b - 1);
    }
  }

  /** Every row with a non-empty key that was not seen before is
      represented by a kept row with the same key. */
  lemma {:induction false} KeepFirstFromCovers<T>(rows: seq<T>, key: T -> string, seen: set<string>, i: nat)
    requires i < |rows| && key(rows[i]) != "" && key(rows[i]) !in seen
    ensures exists m :: 0 <= m < |KeepFirstFrom(rows, key, seen)|
                        && key(KeepFirstFrom(rows, key, seen)[m]) == key(rows[i])
  {
    var k := key(rows[0]);
    var out := KeepFirstFrom(rows, key, seen);
    if i == 0 {
      assert key(out[0]) == k;
    } else if k == "" || k in seen {
      KeepFirstFromCovers(rows[1..], key, seen, i - 1);
    } else if k == key(rows[i]) {
      assert key(out[0]) == k;
    } else {
      KeepFirstFromCovers(rows[1..], key, seen + {k}, i - 1);
      var m :| 0 <= m < |KeepFirstFrom(rows[1..], key, seen + {k})|
               && key(KeepFirstFrom(rows[1..], key, seen + {k})[m]) == key(rows[i]);
      assert out[m + 1] == KeepFirstFrom(rows[1..], key, seen + {k})[m];
    }
  }

  /** Rows whose keys are all empty are all skipped and mark nothing as
      seen. */
  lemma {:induction false} KeepFirstFromBlank<T>(rows: seq<T>, key: T -> string, seen: set<string>)
    requires forall i :: 0 <= i < |rows| ==> key(rows[i]) == ""
    ensures KeepFirstFrom(rows, key, seen) == []
    ensures SeenAfter(rows, key, seen) == seen
  {
    if rows != [] {
      KeepFirstFromBlank(rows[1..], key, seen);
    }
  }

  /** The rows kept from `rows` by a pass started with `seen`, summarised:
      distinct non-empty keys, each row the first of its key, and every
      non-empty key present. */
  lemma KeepFirstProperties<T>(rows: seq<T>, key: T -> string)
    ensures var out := KeepFirst(rows, key);
            && (forall a, b :: 0 <= a < b < |out| ==> key(out[a]) != key(out[b]))
            && (forall m :: 0 <= m < |out| ==>
                  key(out[m]) != "" &&
                  exists i :: 0 <= i < |rows| && rows[i] == out[m]
                              && forall j :: 0 <= j < i ==> key(rows[j]) != key(out[m]))
            && (forall i :: 0 <= i < |rows| && key(rows[i]) != "" ==>
                  exists m :: 0 <= m < |out| && key(out[m]) == key(rows[i]))
  {
    var out := KeepFirst(rows, key);
    forall a, b | 0 <= a < b < |out| ensures key(out[a]) != key(out[b]) {
      KeepFirstFromDistinct(rows, key, {}, a, b);
    }
    forall m | 0 <= m < |out|
      ensures key(out[m]) != "" &&
              exists i :: 0 <= i < |rows| && rows[i] == out[m]
                          && forall j :: 0 <= j < i ==> key(rows[j]) != key(out[m])
    {
      KeepFirstFromFirst(rows, key, {}, m);
    }
    forall i | 0 <= i < |rows| && key(rows[i]) != ""
      ensures exists m :: 0 <= m < |out| && key(out[m]) == key(rows[i])
    {
      KeepFirstFromCovers(rows, key, {}, i);
    }
  }
}
