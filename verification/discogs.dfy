/** The vendor analysis of the Discogs route (`PUT`): up to five of a
    vendor's products are looked up, their genres, styles and decades are
    counted, and the most frequent genre and decade are compared with the
    values the tagging page proposes. The lookups themselves are network
    calls; here their results are a parameter, one per sampled product. */
module Discogs {
  import opened Wrappers
  import opened Text
  import opened Seqs
  import opened Records
  import opened Numbers

  /** What a lookup returns (`DiscogsData`); a missing year is `None`. */
  datatype DiscogsData = DiscogsData(
    year: Option<nat>,
    genre: Option<string>,
    style: Option<string>,
    genres: seq<string>,
    styles: seq<string>)

  /** A product of the request body. */
  datatype Item = Item(handle: string, title: string)

  /** How many products are looked up at most. */
  const SampleLimit: nat := 5

  /** A string field that is set and not empty (what `if (x)` accepts). */
  predicate Truthy(o: Option<string>) {
    o.Some? && o.value != ""
  }

  /** A year that is set and not zero. */
  predicate HasYear(r: DiscogsData) {
    r.year.Some? && r.year.value != 0
  }

  /** `Math.floor(year / 10) * 10`. */
  function DecadeOf(year: nat): (d: nat)
    ensures d % 10 == 0 && d <= year < d + 10
  {
    (year / 10) * 10
  }

  // ---------------------------------------------------------------------
  // What is counted

  /** The genre names one result contributes: its primary genre when set,
      then every entry of its genre list. */
  function ResultGenres(r: DiscogsData): seq<string> {
    Present(r.genre) + r.genres
  }

  function ResultStyles(r: DiscogsData): seq<string> {
    Present(r.style) + r.styles
  }

  /** The name a field holds, when it is set. */
  function Present(o: Option<string>): seq<string> {
    if Truthy(o) then [o.value] else []
  }

  /** The genre names of all results, in the order they are counted. */
  function GenreTokens(rs: seq<DiscogsData>): seq<string> {
    if rs == [] then [] else GenreTokens(rs[..|rs| - 1]) + ResultGenres(rs[|rs| - 1])
  }

  function StyleTokens(rs: seq<DiscogsData>): seq<string> {
    if rs == [] then [] else StyleTokens(rs[..|rs| - 1]) + ResultStyles(rs[|rs| - 1])
  }

  /** The `decades` array: one decade per result with a year. */
  function Decades(rs: seq<DiscogsData>): seq<nat> {
    if rs == [] then []
    else
      var init, r := rs[..|rs| - 1], rs[|rs| - 1];
      Decades(init) + (if HasYear(r) then [DecadeOf(r.year.value)] else [])
  }

  // ---------------------------------------------------------------------
  // Counting dictionaries

  /** How often each element occurs. */
  function Occurrences<T(==,!new)>(s: seq<T>): (m: map<T, nat>)
    ensures forall x :: x in m <==> x in s
    ensures forall x :: x in m ==> m[x] == multiset(s)[x] > 0
  {
    map x | x in s :: multiset(s)[x]
  }

  /** The elements in the order of their first occurrence. */
  function FirstSeen(ts: seq<string>): (r: seq<string>)
    ensures Distinct(r)
    ensures forall x :: x in r <==> x in ts
  {
    if ts == [] then []
    else
      var init, t := ts[..|ts| - 1], ts[|ts| - 1];
      var f := FirstSeen(init);
      InLast(ts, t);
      forall x ensures x in ts <==> x in init || x == t {
        InLast(ts, x);
      }
      if t in init then f else f + [t]
  }

  /** The dictionary that counting `ts` one by one builds, each step
      `counts[t] = (counts[t] || 0) + 1`. */
  function Tally(ts: seq<string>): Dict<nat> {
    if ts == [] then Empty() else Increment(Tally(ts[..|ts| - 1]), ts[|ts| - 1])
  }

  lemma TallySnoc(ts: seq<string>, t: string)
    ensures Tally(ts + [t]) == Increment(Tally(ts), t)
  {
    assert (ts + [t])[..|ts|] == ts;
  }

  lemma OccurrencesSnoc<T(!new)>(s: seq<T>, x: T)
    ensures Occurrences(s + [x]) == Occurrences(s)[x := multiset(s)[x] + 1]
  {
    var a, b := Occurrences(s + [x]), Occurrences(s)[x := multiset(s)[x] + 1];
    assert multiset(s + [x]) == multiset(s) + multiset{x};
    forall y ensures y in a <==> y in b {
      InLast(s + [x], y);
      assert (s + [x])[..|s|] == s;
    }
    forall y | y in a ensures a[y] == b[y] {
    }
  }

  /** The counting dictionary lists every name once, in the order first
      seen, with its number of occurrences. */
  lemma {:induction false} TallyCounts(ts: seq<string>)
    ensures Tally(ts) == Dict(FirstSeen(ts), Occurrences(ts))
  {
    if ts != [] {
      var init, t := ts[..|ts| - 1], ts[|ts| - 1];
      var f, o := FirstSeen(init), Occurrences(init);
      assert Tally(init) == Dict(f, o) by {
        TallyCounts(init);
      }
      assert Occurrences(ts) == o[t := multiset(init)[t] + 1] by {
        SplitLast(ts);
        OccurrencesSnoc(init, t);
      }
      assert Get(Dict(f, o), t, 0) == multiset(init)[t];
      calc {
        Tally(ts);
        Increment(Dict(f, o), t);
        Put(Dict(f, o), t, multiset(init)[t] + 1);
        Dict(FirstSeen(ts), Occurrences(ts));
      }
    }
  }

  /** The counting dictionary is well formed. */
  lemma TallyValid(ts: seq<string>)
    ensures Valid(Tally(ts))
  {
    TallyCounts(ts);
  }

  /** The counts of the `decades` array, counted one by one. */
  function DecadeCounts(ds: seq<nat>): map<nat, nat> {
    if ds == [] then map[]
    else
      var counts := DecadeCounts(ds[..|ds| - 1]);
      var d := ds[|ds| - 1];
      counts[d := (if d in counts then counts[d] else 0) + 1]
  }

  lemma DecadeCountsSnoc(ds: seq<nat>, d: nat)
    ensures var counts := DecadeCounts(ds);
            DecadeCounts(ds + [d]) == counts[d := (if d in counts then counts[d] else 0) + 1]
  {
    assert (ds + [d])[..|ds|] == ds;
  }

  /** Each decade is counted by its number of occurrences. */
  lemma {:induction false} DecadeCountsAre(ds: seq<nat>)
    ensures DecadeCounts(ds) == Occurrences(ds)
  {
    if ds != [] {
      var init, d := ds[..|ds| - 1], ds[|ds| - 1];
      DecadeCountsAre(init);
      SplitLast(ds);
      OccurrencesSnoc(init, d);
      assert d !in init ==> multiset(init)[d] == 0;
    }
  }

  // ---------------------------------------------------------------------
  // The counting loops

  /** `for (const g of list) counts[g] = (counts[g] || 0) + 1`. */
  method CountAll(counts: Dict<nat>, ghost seen: seq<string>, list: seq<string>) returns (r: Dict<nat>)
    requires counts == Tally(seen)
    ensures r == Tally(seen + list)
  {
    r := counts;
    assert seen + list[..0] == seen;
    for j := 0 to |list|
      invariant r == Tally(seen + list[..j])
    {
      ghost var before := seen + list[..j];
      assert seen + list[..j + 1] == before + [list[j]];
      TallySnoc(before, list[j]);
      r := Increment(r, list[j]);
    }
    assert list[..|list|] == list;
  }

  /** `counts[x] = (counts[x] || 0) + 1` when `x` is set, for one result's
      primary genre or style. */
  method CountOne(counts: Dict<nat>, ghost seen: seq<string>, x: Option<string>) returns (r: Dict<nat>)
    requires counts == Tally(seen)
    ensures r == Tally(seen + Present(x))
  {
    r := counts;
    if x.Some? && x.value != "" {
      TallySnoc(seen, x.value);
      r := Increment(r, x.value);
    } else {
      assert seen + [] == seen;
    }
  }

  /** One result's primary name, then its list. */
  method CountNames(counts: Dict<nat>, ghost seen: seq<string>, primary: Option<string>, list: seq<string>)
    returns (r: Dict<nat>)
    requires counts == Tally(seen)
    ensures r == Tally(seen + (Present(primary) + list))
  {
    r := CountOne(counts, seen, primary);
    r := CountAll(r, seen + Present(primary), list);
    AppendAssoc(seen, Present(primary), list);
  }

  lemma TokensSnoc(done: seq<DiscogsData>, r: DiscogsData)
    ensures GenreTokens(done + [r]) == GenreTokens(done) + ResultGenres(r)
    ensures StyleTokens(done + [r]) == StyleTokens(done) + ResultStyles(r)
    ensures Decades(done + [r]) == Decades(done) + (if HasYear(r) then [DecadeOf(r.year.value)] else [])
  {
    var all := done + [r];
    assert all[..|all| - 1] == done && all[|all| - 1] == r;
  }

  /** The body of the analysis loop for one result. */
  method CountResult(genreCounts: Dict<nat>, styleCounts: Dict<nat>, decades: seq<nat>,
                     ghost done: seq<DiscogsData>, result: DiscogsData)
    returns (genreCounts': Dict<nat>, styleCounts': Dict<nat>, decades': seq<nat>)
    requires genreCounts == Tally(GenreTokens(done))
    requires styleCounts == Tally(StyleTokens(done))
    requires decades == Decades(done)
    ensures genreCounts' == Tally(GenreTokens(done + [result]))
    ensures styleCounts' == Tally(StyleTokens(done + [result]))
    ensures decades' == Decades(done + [result])
  {
    TokensSnoc(done, result);
    genreCounts' := CountNames(genreCounts, GenreTokens(done), result.genre, result.genres);
    styleCounts' := CountNames(styleCounts, StyleTokens(done), result.style, result.styles);
    decades' := decades;
    if result.year.Some? && result.year.value != 0 {
      decades' := decades' + [DecadeOf(result.year.value)];
    }
  }

  /** The analysis loop over the lookup results. */
  method CountResults(results: seq<DiscogsData>) returns (genreCounts: Dict<nat>, styleCounts: Dict<nat>, decades: seq<nat>)
    ensures genreCounts == Tally(GenreTokens(results))
    ensures styleCounts == Tally(StyleTokens(results))
    ensures decades == Decades(results)
  {
    genreCounts, styleCounts, decades := Empty(), Empty(), [];
    assert results[..0] == [];
    for i := 0 to |results|
      invariant genreCounts == Tally(GenreTokens(results[..i]))
      invariant styleCounts == Tally(StyleTokens(results[..i]))
      invariant decades == Decades(results[..i])
    {
      ghost var done := results[..i];
      genreCounts, styleCounts, decades := CountResult(genreCounts, styleCounts, decades, done, results[i]);
      PrefixSnoc(results, i);
    }
    assert results[..|results|] == results;
  }

  /** The loop building `decadeCounts`. */
  method CountDecades(decades: seq<nat>) returns (counts: map<nat, nat>)
    ensures counts == DecadeCounts(decades)
  {
    counts := map[];
    for j := 0 to |decades|
      invariant counts == DecadeCounts(decades[..j])
    {
      var d := decades[j];
      DecadeCountsSnoc(decades[..j], d);
      assert decades[..j + 1] == decades[..j] + [d];
      counts := counts[d := (if d in counts then counts[d] else 0) + 1];
    }
    assert decades[..|decades|] == decades;
  }

  // ---------------------------------------------------------------------
  // The most frequent values

  /** `Object.entries(counts).sort((a, b) => b[1] - a[1])[0]?.[0]`: the
      first key of largest count in insertion order, none when empty. */
  function TopKey(d: Dict<nat>): (t: Option<string>)
    requires Valid(d)
    ensures t.None? <==> d.keys == []
    ensures t.Some? ==> t.value in d.vals && forall k :: k in d.vals ==> d.vals[k] <= d.vals[t.value]
  {
    if d.keys == [] then None else Some(Top(d))
  }

  /** The decade of largest count; integer keys are enumerated in
      ascending order, so a tie goes to the smallest decade. */
  function TopDecadeOf(ds: seq<nat>, counts: map<nat, nat>): (t: nat)
    requires ds != []
    requires forall k :: 0 <= k < |ds| ==> ds[k] in counts
    ensures t in ds
    ensures forall k :: 0 <= k < |ds| ==>
              counts[ds[k]] < counts[t] || (counts[ds[k]] == counts[t] && t <= ds[k])
  {
    if |ds| == 1 then ds[0]
    else
      var t := TopDecadeOf(ds[..|ds| - 1], counts);
      var d := ds[|ds| - 1];
      InLast(ds, t);
      if counts[d] > counts[t] || (counts[d] == counts[t] && d < t) then d else t
  }

  function TopDecade(ds: seq<nat>): (t: Option<nat>)
    ensures t.None? <==> ds == []
    ensures t.Some? ==> t.value in ds && t.value in DecadeCounts(ds)
  {
    DecadeCountsAre(ds);
    if ds == [] then None else Some(TopDecadeOf(ds, DecadeCounts(ds)))
  }

  // ---------------------------------------------------------------------
  // Agreement with the proposed values

  /** The proposed genre and the top genre agree when, ignoring case, they
      are equal or one contains the other. */
  predicate GenresAgree(suggested: string, discogs: string) {
    var s := Lower(suggested);
    var g := Lower(discogs);
    s == g || Contains(s, g) || Contains(g, s)
  }

  /** The decade a proposed value names: its digits read as a number, a
      two-digit number taken as 19xx; none when it holds no digit (the
      `NaN` that never equals a decade). */
  function SuggestedDecade(s: string): (r: Option<nat>)
    ensures r.None? <==> forall k :: 0 <= k < |s| ==> !IsDigit(s[k])
  {
    var digits := KeepDigits(s);
    KeepDigitsEmpty(s);
    if digits == [] then None
    else
      var n := DigitsValue(digits);
      Some(if n < 100 then 1900 + n else n)
  }

  lemma {:induction false} KeepDigitsEmpty(s: string)
    ensures KeepDigits(s) == [] <==> forall k :: 0 <= k < |s| ==> !IsDigit(s[k])
  {
    if s != [] {
      KeepDigitsEmpty(s[1..]);
      if !IsDigit(s[0]) {
        forall k | 0 < k < |s| ensures s[k] == s[1..][k - 1] {
        }
      }
    }
  }

  /** Digits followed by a suffix without digits keep just the digits. */
  lemma {:induction false} KeepDigitsPrefix(d: string, suffix: string)
    requires forall k :: 0 <= k < |d| ==> IsDigit(d[k])
    requires forall k :: 0 <= k < |suffix| ==> !IsDigit(suffix[k])
    ensures KeepDigits(d + suffix) == d
  {
    if d == [] {
      KeepDigitsEmpty(suffix);
      assert d + suffix == suffix;
    } else {
      KeepDigitsPrefix(d[1..], suffix);
      assert (d + suffix)[1..] == d[1..] + suffix;
    }
  }

  /** A tag made of digits and then a suffix without digits names the
      number the digits spell, a two-digit number taken as 19xx. */
  lemma {:induction false} SuggestedDecadeDigits(d: string, suffix: string)
    requires d != [] && forall k :: 0 <= k < |d| ==> IsDigit(d[k])
    requires forall k :: 0 <= k < |suffix| ==> !IsDigit(suffix[k])
    ensures var n := DigitsValue(d);
            SuggestedDecade(d + suffix) == Some(if n < 100 then 1900 + n else n)
  {
    var digits := KeepDigits(d + suffix);
    assert digits == d by {
      KeepDigitsPrefix(d, suffix);
    }
  }

  /** The catalog's tag spellings map to the decades they name. */
  lemma SuggestedDecadeExamples()
    ensures SuggestedDecade("80C") == Some(1980)
    ensures SuggestedDecade("2000c") == Some(2000)
  {
    assert SuggestedDecade("80C") == Some(1980) by {
      assert "80"[..1] == "8" && "8"[..0] == "";
      assert DigitsValue("80") == 80;
      SuggestedDecadeDigits("80", "C");
      assert "80" + "C" == "80C";
    }
    assert SuggestedDecade("2000c") == Some(2000) by {
      assert "2000"[..3] == "200" && "200"[..2] == "20" && "20"[..1] == "2" && "2"[..0] == "";
      assert DigitsValue("2000") == 2000;
      SuggestedDecadeDigits("2000", "c");
      assert "2000" + "c" == "2000c";
    }
  }

  // ---------------------------------------------------------------------
  // The response

  datatype GenreAnalysis = GenreAnalysis(topGenre: Option<string>, count: nat, confidence: nat,
                                         allGenres: Dict<nat>, recommended: Option<string>)

  datatype StyleAnalysis = StyleAnalysis(topStyle: Option<string>, count: nat, allStyles: Dict<nat>)

  datatype DecadeAnalysis = DecadeAnalysis(topDecade: Option<string>, count: nat, confidence: nat,
                                           allDecades: map<nat, nat>, recommended: Option<string>)

  datatype Sampled = Sampled(handle: string, title: string, discogs: DiscogsData)

  datatype Analysis = Analysis(sampleSize: nat, genreAnalysis: GenreAnalysis, styleAnalysis: StyleAnalysis,
                               decadeAnalysis: DecadeAnalysis, products: seq<Sampled>)

  /** The error response: a status and a message. */
  datatype Failure = Failure(status: nat, error: string)

  /** `${decade}s`. */
  function DecadeLabel(d: nat): string {
    NatToString(d) + "s"
  }

  /** A name, or `null` when it is empty (`x || null`). */
  function OrNull(o: Option<string>): Option<string> {
    if o.Some? && o.value != "" then o else None
  }

  /** The genre part of the answer, for counts over `n` results. */
  function GenreAnalysisOf(counts: Dict<nat>, n: nat, suggested: string): GenreAnalysis
    requires Valid(counts) && (counts.keys != [] ==> n > 0)
  {
    var top := TopKey(counts);
    var count := if top.Some? then counts.vals[top.value] else 0;
    var confidence :=
      if suggested != "" && top.Some? && GenresAgree(suggested, top.value) then Percent(count, n) else 0;
    var recommended := if suggested != "" && top.Some? then top else None;
    GenreAnalysis(OrNull(top), count, confidence, counts, recommended)
  }

  function StyleAnalysisOf(counts: Dict<nat>): StyleAnalysis
    requires Valid(counts)
  {
    var top := TopKey(counts);
    StyleAnalysis(OrNull(top), if top.Some? then counts.vals[top.value] else 0, counts)
  }

  /** The decade part of the answer, for `decades` from `n` results. */
  function DecadeAnalysisOf(decades: seq<nat>, n: nat, suggested: string): DecadeAnalysis
    requires decades != [] ==> n > 0
  {
    var counts := DecadeCounts(decades);
    var top := TopDecade(decades);
    var count := if top.Some? then counts[top.value] else 0;
    var confidence :=
      if suggested != "" && top.Some? && SuggestedDecade(suggested) == Some(top.value) then Percent(count, n) else 0;
    var recommended := if suggested != "" && top.Some? then Some(DecadeLabel(top.value)) else None;
    DecadeAnalysis(if top.Some? then Some(DecadeLabel(top.value)) else None, count, confidence, counts, recommended)
  }

  /** The sampled products paired with their lookups. */
  function SampledOf(sample: seq<Item>, results: seq<DiscogsData>): seq<Sampled>
    requires |results| == |sample|
  {
    seq(|sample|, i requires 0 <= i < |sample| => Sampled(sample[i].handle, sample[i].title, results[i]))
  }

  /** The number of products looked up. */
  function SampleSize(products: seq<Item>): nat {
    Min(|products|, SampleLimit)
  }

  /** Counting anything needs at least one result. */
  lemma TokensNeedResults(rs: seq<DiscogsData>)
    ensures GenreTokens(rs) != [] ==> rs != []
    ensures StyleTokens(rs) != [] ==> rs != []
    ensures Decades(rs) != [] ==> rs != []
  {
  }

  /** What the route answers for `vendor`, its `products`, the lookups of
      the sampled products and the proposed genre and decade. */
  function AnalysisOf(vendor: string, products: Option<seq<Item>>, results: seq<DiscogsData>,
                      suggestedGenre: string, suggestedDecade: string): Result<Analysis, Failure>
    requires products.Some? ==> |results| == SampleSize(products.value)
  {
    if vendor == "" || products.None? then Err(Failure(400, "Missing vendor or products"))
    else
      var n := SampleSize(products.value);
      TokensNeedResults(results);
      TallyValid(GenreTokens(results));
      TallyValid(StyleTokens(results));
      Ok(Analysis(n,
        GenreAnalysisOf(Tally(GenreTokens(results)), n, suggestedGenre),
        StyleAnalysisOf(Tally(StyleTokens(results))),
        DecadeAnalysisOf(Decades(results), n, suggestedDecade),
        SampledOf(products.value[..n], results)))
  }

  /** The route's analysis, as the handler computes it. */
  method AnalyzeVendor(vendor: string, products: Option<seq<Item>>, results: seq<DiscogsData>,
                       suggestedGenre: string, suggestedDecade: string) returns (r: Result<Analysis, Failure>)
    requires products.Some? ==> |results| == SampleSize(products.value)
    ensures r == AnalysisOf(vendor, products, results, suggestedGenre, suggestedDecade)
  {
    if vendor == "" || products.None? {
      return Err(Failure(400, "Missing vendor or products"));
    }
    var sample := products.value[..Min(|products.value|, SampleLimit)];
    var genreCounts, styleCounts, decades := CountResults(results);
    var decadeCounts := CountDecades(decades);
    TokensNeedResults(results);
    TallyValid(GenreTokens(results));
    TallyValid(StyleTokens(results));
    var topGenre := TopKey(genreCounts);
    var topStyle := TopKey(styleCounts);
    var topDecade := TopDecade(decades);

    var genreConfidence, decadeConfidence := 0, 0;
    var recommendedGenre: Option<string> := None;
    var recommendedDecade: Option<string> := None;
    if suggestedGenre != "" && topGenre.Some? {
      if GenresAgree(suggestedGenre, topGenre.value) {
        genreConfidence := Percent(genreCounts.vals[topGenre.value], |sample|);
      }
      recommendedGenre := topGenre;
    }
    if suggestedDecade != "" && topDecade.Some? {
      if SuggestedDecade(suggestedDecade) == Some(topDecade.value) {
        decadeConfidence := Percent(decadeCounts[topDecade.value], |sample|);
      }
      recommendedDecade := Some(DecadeLabel(topDecade.value));
    }

    var genreCount := if topGenre.Some? then genreCounts.vals[topGenre.value] else 0;
    var styleCount := if topStyle.Some? then styleCounts.vals[topStyle.value] else 0;
    var decadeCount := if topDecade.Some? then decadeCounts[topDecade.value] else 0;
    r := Ok(Analysis(|sample|,
      GenreAnalysis(OrNull(topGenre), genreCount, genreConfidence, genreCounts, recommendedGenre),
      StyleAnalysis(OrNull(topStyle), styleCount, styleCounts),
      DecadeAnalysis(if topDecade.Some? then Some(DecadeLabel(topDecade.value)) else None,
                     decadeCount, decadeConfidence, decadeCounts, recommendedDecade),
      SampledOf(sample, results)));
  }

  // ---------------------------------------------------------------------
  // Properties of the analysis

  /** The request is refused exactly when the vendor or the product list is
      missing; otherwise at most five products are looked up, each paired
      with its own lookup. */
  lemma AnalysisSample(vendor: string, products: Option<seq<Item>>, results: seq<DiscogsData>, sg: string, sd: string)
    requires products.Some? ==> |results| == SampleSize(products.value)
    ensures var r := AnalysisOf(vendor, products, results, sg, sd);
            && (r.Err? <==> vendor == "" || products.None?)
            && (r.Err? ==> r.error.status == 400)
            && (r.Ok? ==>
                  && r.value.sampleSize <= 5
                  && r.value.sampleSize == |results|
                  && (|products.value| >= 5 ==> r.value.sampleSize == 5)
                  && (|products.value| < 5 ==> r.value.sampleSize == |products.value|)
                  && forall i :: 0 <= i < r.value.sampleSize ==>
                       r.value.products[i] == Sampled(products.value[i].handle, products.value[i].title, results[i]))
  {
  }

  /** Every genre name is counted once per result naming it as primary
      genre, plus once per entry of each result's genre list. */
  lemma {:induction false} GenreCount(rs: seq<DiscogsData>, g: string)
    ensures multiset(GenreTokens(rs))[g] ==
            Count(rs, (r: DiscogsData) => Truthy(r.genre) && r.genre.value == g) + ListCount(rs, g)
  {
    if rs != [] {
      var init, r := rs[..|rs| - 1], rs[|rs| - 1];
      GenreCount(init, g);
      SplitLast(rs);
      FilterSnoc(init, r, (r: DiscogsData) => Truthy(r.genre) && r.genre.value == g);
      assert multiset(GenreTokens(rs)) == multiset(GenreTokens(init)) + multiset(ResultGenres(r));
      assert multiset(ResultGenres(r)) ==
             multiset(if Truthy(r.genre) then [r.genre.value] else []) + multiset(r.genres);
    }
  }

  /** How often `g` appears in the genre lists of the results. */
  function ListCount(rs: seq<DiscogsData>, g: string): nat {
    if rs == [] then 0 else ListCount(rs[..|rs| - 1], g) + multiset(rs[|rs| - 1].genres)[g]
  }

  /** Each decade is counted once per result whose year falls in it;
      results without a year (or with year 0) are not counted. */
  lemma {:induction false} DecadeCount(rs: seq<DiscogsData>, d: nat)
    ensures multiset(Decades(rs))[d] ==
            Count(rs, (r: DiscogsData) => HasYear(r) && DecadeOf(r.year.value) == d)
  {
    if rs != [] {
      var init, r := rs[..|rs| - 1], rs[|rs| - 1];
      DecadeCount(init, d);
      SplitLast(rs);
      FilterSnoc(init, r, (r: DiscogsData) => HasYear(r) && DecadeOf(r.year.value) == d);
      assert multiset(Decades(rs)) == multiset(Decades(init)) + multiset(if HasYear(r) then [DecadeOf(r.year.value)] else []);
    }
  }

  /** The genre confidence: zero unless a genre is proposed, some genre was
      counted and the proposal agrees with the top genre; then the top
      genre's count as a rounded percentage of the sample size. The
      recommendation, given whenever a genre is proposed and counted, is a
      genre of largest count. */
  lemma GenreConfidence(vendor: string, products: seq<Item>, results: seq<DiscogsData>, sg: string, sd: string)
    requires |results| == SampleSize(products) && vendor != ""
    ensures var a := AnalysisOf(vendor, Some(products), results, sg, sd).value.genreAnalysis;
            && a.allGenres == Tally(GenreTokens(results))
            && (a.recommended.Some? <==> sg != "" && GenreTokens(results) != [])
            && (a.recommended.Some? ==>
                  && a.recommended.value in a.allGenres.vals
                  && a.count == a.allGenres.vals[a.recommended.value]
                  && forall g :: g in a.allGenres.vals ==> a.allGenres.vals[g] <= a.count)
            && (a.confidence > 0 ==> a.recommended.Some? && GenresAgree(sg, a.recommended.value))
            && (a.recommended.Some? && GenresAgree(sg, a.recommended.value) ==>
                  |results| > 0 && a.confidence == Percent(a.count, |results|))
  {
    TokensNeedResults(results);
    var counts := Tally(GenreTokens(results));
    TallyValid(GenreTokens(results));
    assert counts.keys != [] <==> GenreTokens(results) != [] by {
      TallyCounts(GenreTokens(results));
      if GenreTokens(results) != [] {
        assert GenreTokens(results)[0] in counts.keys;
      }
    }
    GenreAnalysisFacts(counts, SampleSize(products), sg);
  }

  lemma GenreAnalysisFacts(counts: Dict<nat>, n: nat, sg: string)
    requires Valid(counts) && (counts.keys != [] ==> n > 0)
    ensures var a := GenreAnalysisOf(counts, n, sg);
            && a.allGenres == counts
            && (a.recommended.Some? <==> sg != "" && counts.keys != [])
            && (a.recommended.Some? ==>
                  && a.recommended.value in counts.vals
                  && a.count == counts.vals[a.recommended.value]
                  && forall g :: g in counts.vals ==> counts.vals[g] <= a.count)
            && (a.confidence > 0 ==> a.recommended.Some? && GenresAgree(sg, a.recommended.value))
            && (a.recommended.Some? && GenresAgree(sg, a.recommended.value) ==>
                  n > 0 && a.confidence == Percent(a.count, n))
  {
  }

  /** The decade confidence: zero unless a decade is proposed, some year
      was found and the proposed decade, read as a number, is the top
      decade; then the top decade's count as a rounded percentage of the
      sample size. A proposal without a digit never agrees. The
      recommendation is the top decade followed by `s`. */
  lemma DecadeConfidence(vendor: string, products: seq<Item>, results: seq<DiscogsData>, sg: string, sd: string)
    requires |results| == SampleSize(products) && vendor != ""
    ensures var a := AnalysisOf(vendor, Some(products), results, sg, sd).value.decadeAnalysis;
            var top := TopDecade(Decades(results));
            && (a.confidence > 0 ==> sd != "" && top.Some? && SuggestedDecade(sd) == top)
            && (sd != "" && top.Some? && SuggestedDecade(sd) == top ==>
                  |results| > 0 && a.confidence == Percent(a.count, |results|))
            && ((forall k :: 0 <= k < |sd| ==> !IsDigit(sd[k])) ==> a.confidence == 0)
            && (a.recommended.Some? <==> sd != "" && top.Some?)
            && (a.recommended.Some? ==> a.recommended == Some(DecadeLabel(top.value)) == a.topDecade)
  {
    TokensNeedResults(results);
  }

  /** Without a proposal, or without any data, nothing is confirmed or
      recommended. */
  lemma NoSuggestionNoData(vendor: string, products: seq<Item>, results: seq<DiscogsData>, sg: string, sd: string)
    requires |results| == SampleSize(products) && vendor != ""
    requires sg == "" || GenreTokens(results) == []
    requires sd == "" || Decades(results) == []
    ensures var a := AnalysisOf(vendor, Some(products), results, sg, sd).value;
            && a.genreAnalysis.confidence == 0 && a.genreAnalysis.recommended.None?
            && a.decadeAnalysis.confidence == 0 && a.decadeAnalysis.recommended.None?
  {
  }

  /** The decade label reads back as the decade (`parseInt`). */
  lemma DecadeLabelRoundTrip(d: nat)
    ensures var l := DecadeLabel(d);
            && l[|l| - 1] == 's'
            && (forall k :: 0 <= k < |l| - 1 ==> IsDigit(l[k]))
            && DigitsValue(l[..|l| - 1]) == d
  {
    var l := DecadeLabel(d);
    assert l[..|l| - 1] == NatToString(d);
    ParseNatToString(d);
  }

  /** The top decade has the largest count, and the smallest decade among
      those of largest count wins. */
  lemma TopDecadeIsMostFrequent(ds: seq<nat>)
    requires ds != []
    ensures var t := TopDecade(ds).value;
            var counts := DecadeCounts(ds);
            && t in counts
            && forall d :: d in counts ==> counts[d] < counts[t] || (counts[d] == counts[t] && t <= d)
  {
    var t := TopDecade(ds).value;
    var counts := DecadeCounts(ds);
    DecadeCountsAre(ds);
    forall d | d in counts
      ensures counts[d] < counts[t] || (counts[d] == counts[t] && t <= d)
    {
      var k :| 0 <= k < |ds| && ds[k] == d;
    }
  }

  /** The primary genre is also the first entry of the genre list in what
      a lookup returns, so it is counted twice: one product whose only
      genre matches the proposal gives a confidence of 200. */
  lemma DoubleCountedGenre()
    ensures var r := DiscogsData(Some(1975), Some("Rock"), None, ["Rock"], []);
            var a := AnalysisOf("Vendor", Some([Item("h", "t")]), [r], "Rock", "");
            a.Ok? && a.value.genreAnalysis.confidence == 200
  {
    var r := DiscogsData(Some(1975), Some("Rock"), None, ["Rock"], []);
    var products := [Item("h", "t")];
    assert GenreTokens([r]) == ["Rock", "Rock"] by {
      assert [r][..0] == [];
    }
    var one := Dict(["Rock"], map["Rock" := 1]);
    var two := Dict(["Rock"], map["Rock" := 2]);
    assert Tally(["Rock"]) == one by {
      assert ["Rock"][..0] == [];
    }
    assert Tally(["Rock", "Rock"]) == two by {
      assert ["Rock", "Rock"][..1] == ["Rock"];
      assert Increment(one, "Rock") == two;
    }
    assert SampleSize(products) == 1;
    GenreConfidence("Vendor", products, [r], "Rock", "");
    var a := AnalysisOf("Vendor", Some(products), [r], "Rock", "").value.genreAnalysis;
    assert a.recommended == Some("Rock") && a.count == 2;
    assert GenresAgree("Rock", "Rock");
    assert Percent(2, 1) == 200;
  }
}
