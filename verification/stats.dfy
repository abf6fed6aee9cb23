/** The progress figures of the tagging page (`getStats`,
    `getDetailedStats`): how many catalog products fall into each certainty
    band of their genre (and decade) entry. */
module Stats {
  import opened Seqs
  import opened Numbers
  import opened Catalog
  import opened Certainty

  /** `certainty[h]?.[k]?.pct || 0`: the certainty of a product's field, 0
      when the handle or the entry is missing. */
  function PctOf(m: map<string, Certainty>, h: string, k: TagKind): int {
    if h in m && Field(m[h], k).Some? then Field(m[h], k).value.pct else 0
  }

  /** The three bands of `getStats`. */
  datatype Band = HighBand | MediumBand | LowBand

  function BandOf(pct: int): Band {
    if pct >= 80 then HighBand else if pct >= 50 then MediumBand else LowBand
  }

  /** The five levels of `getDetailedStats`. */
  datatype Level = Certain | High | Medium | Low | Unknown

  function LevelOf(pct: int): Level {
    if pct == 100 then Certain
    else if pct >= 80 then High
    else if pct >= 50 then Medium
    else if pct > 0 then Low
    else Unknown
  }

  function InBand(m: map<string, Certainty>, b: Band): Product -> bool {
    (p: Product) => BandOf(PctOf(m, p.handle, GenreTag)) == b
  }

  function AtLevel(m: map<string, Certainty>, k: TagKind, l: Level): Product -> bool {
    (p: Product) => LevelOf(PctOf(m, p.handle, k)) == l
  }

  /** `{ high, medium, low, pct }`. */
  datatype Summary = Summary(high: nat, medium: nat, low: nat, pct: nat)

  /** `{ total, certain, high, medium, low, none }` for one field. */
  datatype Breakdown = Breakdown(total: nat, certain: nat, high: nat, medium: nat, low: nat, none: nat)

  datatype DetailedReport = DetailedReport(genre: Breakdown, decade: Breakdown, questionsRemaining: nat, questionsAnswered: nat)

  /** What `getStats` reports: the products in each genre band, and the
      rounded share of highly certain ones (0 for an empty catalog). */
  function SummaryOf(ps: seq<Product>, m: map<string, Certainty>): Summary {
    var high := Count(ps, InBand(m, HighBand));
    Summary(high, Count(ps, InBand(m, MediumBand)), Count(ps, InBand(m, LowBand)),
            if |ps| > 0 then Percent(high, |ps|) else 0)
  }

  /** What `getDetailedStats` reports for field `k`. */
  function BreakdownOf(ps: seq<Product>, m: map<string, Certainty>, k: TagKind): Breakdown {
    Breakdown(|ps|, Count(ps, AtLevel(m, k, Certain)), Count(ps, AtLevel(m, k, High)),
              Count(ps, AtLevel(m, k, Medium)), Count(ps, AtLevel(m, k, Low)), Count(ps, AtLevel(m, k, Unknown)))
  }

  /** One more product bumps exactly the counter of its genre band. */
  lemma SummaryStep(ps: seq<Product>, p: Product, m: map<string, Certainty>)
    ensures var s := SummaryOf(ps, m);
            var t := SummaryOf(ps + [p], m);
            match BandOf(PctOf(m, p.handle, GenreTag))
            case HighBand => t.high == s.high + 1 && t.medium == s.medium && t.low == s.low
            case MediumBand => t.high == s.high && t.medium == s.medium + 1 && t.low == s.low
            case LowBand => t.high == s.high && t.medium == s.medium && t.low == s.low + 1
  {
    FilterSnoc(ps, p, InBand(m, HighBand));
    FilterSnoc(ps, p, InBand(m, MediumBand));
    FilterSnoc(ps, p, InBand(m, LowBand));
  }

  /** One more product bumps exactly the counter of its level. */
  lemma BreakdownStep(ps: seq<Product>, p: Product, m: map<string, Certainty>, k: TagKind)
    ensures var b := BreakdownOf(ps, m, k);
            BreakdownOf(ps + [p], m, k) ==
              match LevelOf(PctOf(m, p.handle, k))
              case Certain => b.(total := b.total + 1, certain := b.certain + 1)
              case High => b.(total := b.total + 1, high := b.high + 1)
              case Medium => b.(total := b.total + 1, medium := b.medium + 1)
              case Low => b.(total := b.total + 1, low := b.low + 1)
              case Unknown => b.(total := b.total + 1, none := b.none + 1)
  {
    FilterSnoc(ps, p, AtLevel(m, k, Certain));
    FilterSnoc(ps, p, AtLevel(m, k, High));
    FilterSnoc(ps, p, AtLevel(m, k, Medium));
    FilterSnoc(ps, p, AtLevel(m, k, Low));
    FilterSnoc(ps, p, AtLevel(m, k, Unknown));
  }

  /** The bands cover every product once, and the share is a percentage. */
  lemma {:induction false} SummaryPartition(ps: seq<Product>, m: map<string, Certainty>)
    ensures var s := SummaryOf(ps, m);
            s.high + s.medium + s.low == |ps| && s.pct <= 100
  {
    if ps != [] {
      var init := ps[..|ps| - 1];
      SummaryPartition(init, m);
      assert ps == init + [ps[|ps| - 1]];
      SummaryStep(init, ps[|ps| - 1], m);
    }
  }

  /** The levels cover every product once. */
  lemma {:induction false} BreakdownPartition(ps: seq<Product>, m: map<string, Certainty>, k: TagKind)
    ensures var b := BreakdownOf(ps, m, k);
            b.certain + b.high + b.medium + b.low + b.none == b.total == |ps|
  {
    if ps != [] {
      var init := ps[..|ps| - 1];
      BreakdownPartition(init, m, k);
      assert ps == init + [ps[|ps| - 1]];
      BreakdownStep(init, ps[|ps| - 1], m, k);
    }
  }

  /** The two reports agree: `getStats`' high band is the detailed certain
      and high levels together, and its low band the low and unknown
      levels together. */
  lemma {:induction false} SummaryMatchesBreakdown(ps: seq<Product>, m: map<string, Certainty>)
    ensures var s := SummaryOf(ps, m);
            var b := BreakdownOf(ps, m, GenreTag);
            s.high == b.certain + b.high && s.medium == b.medium && s.low == b.low + b.none
  {
    if ps != [] {
      var init := ps[..|ps| - 1];
      SummaryMatchesBreakdown(init, m);
      assert ps == init + [ps[|ps| - 1]];
      SummaryStep(init, ps[|ps| - 1], m);
      BreakdownStep(init, ps[|ps| - 1], m, GenreTag);
    }
  }

  lemma SummaryPrefix(ps: seq<Product>, i: nat, m: map<string, Certainty>)
    requires i < |ps|
    ensures var s := SummaryOf(ps[..i], m);
            var t := SummaryOf(ps[..i + 1], m);
            match BandOf(PctOf(m, ps[i].handle, GenreTag))
            case HighBand => t.high == s.high + 1 && t.medium == s.medium && t.low == s.low
            case MediumBand => t.high == s.high && t.medium == s.medium + 1 && t.low == s.low
            case LowBand => t.high == s.high && t.medium == s.medium && t.low == s.low + 1
  {
    assert ps[..i + 1] == ps[..i] + [ps[i]];
    SummaryStep(ps[..i], ps[i], m);
  }

  lemma BreakdownPrefix(ps: seq<Product>, i: nat, m: map<string, Certainty>, k: TagKind)
    requires i < |ps|
    ensures var b := BreakdownOf(ps[..i], m, k);
            BreakdownOf(ps[..i + 1], m, k) ==
              match LevelOf(PctOf(m, ps[i].handle, k))
              case Certain => b.(total := b.total + 1, certain := b.certain + 1)
              case High => b.(total := b.total + 1, high := b.high + 1)
              case Medium => b.(total := b.total + 1, medium := b.medium + 1)
              case Low => b.(total := b.total + 1, low := b.low + 1)
              case Unknown => b.(total := b.total + 1, none := b.none + 1)
  {
    assert ps[..i + 1] == ps[..i] + [ps[i]];
    BreakdownStep(ps[..i], ps[i], m, k);
  }

  /** The counting loop of `getStats`. */
  method CountBands(products: seq<Product>, m: map<string, Certainty>) returns (s: Summary)
    ensures s == SummaryOf(products, m)
  {
    var high, medium, low := 0, 0, 0;
    for i := 0 to |products|
      invariant var t := SummaryOf(products[..i], m); high == t.high && medium == t.medium && low == t.low
    {
      var product := products[i];
      SummaryPrefix(products, i, m);
      var genrePct := PctOf(m, product.handle, GenreTag);
      if genrePct >= 80 {
        high := high + 1;
      } else if genrePct >= 50 {
        medium := medium + 1;
      } else {
        low := low + 1;
      }
    }
    assert products[..|products|] == products;
    var pct := if |products| > 0 then Percent(high, |products|) else 0;
    s := Summary(high, medium, low, pct);
  }

  /** The counting loop of `getDetailedStats`: both fields in one pass,
      the totals set up front. */
  method CountLevels(products: seq<Product>, m: map<string, Certainty>) returns (genre: Breakdown, decade: Breakdown)
    ensures genre == BreakdownOf(products, m, GenreTag)
    ensures decade == BreakdownOf(products, m, DecadeTag)
  {
    genre := Breakdown(|products|, 0, 0, 0, 0, 0);
    decade := Breakdown(|products|, 0, 0, 0, 0, 0);
    for i := 0 to |products|
      invariant genre == BreakdownOf(products[..i], m, GenreTag).(total := |products|)
      invariant decade == BreakdownOf(products[..i], m, DecadeTag).(total := |products|)
    {
      var product := products[i];
      BreakdownPrefix(products, i, m, GenreTag);
      BreakdownPrefix(products, i, m, DecadeTag);
      genre := Tally(genre, PctOf(m, product.handle, GenreTag));
      decade := Tally(decade, PctOf(m, product.handle, DecadeTag));
    }
    assert products[..|products|] == products;
  }

  /** One product counted at its level; the total stays as set. */
  method Tally(b: Breakdown, pct: int) returns (r: Breakdown)
    ensures r == match LevelOf(pct)
                 case Certain => b.(certain := b.certain + 1)
                 case High => b.(high := b.high + 1)
                 case Medium => b.(medium := b.medium + 1)
                 case Low => b.(low := b.low + 1)
                 case Unknown => b.(none := b.none + 1)
  {
    if pct == 100 {
      r := b.(certain := b.certain + 1);
    } else if pct >= 80 {
      r := b.(high := b.high + 1);
    } else if pct >= 50 {
      r := b.(medium := b.medium + 1);
    } else if pct > 0 {
      r := b.(low := b.low + 1);
    } else {
      r := b.(none := b.none + 1);
    }
  }
}
