/** Question generation (`generateQuestions`): for each vendor at most one
    genre question and one decade question, each proposing the vendor's
    most frequent existing value for its untagged products; the questions
    are ranked by how many products an answer affects, then by how common
    the value already is, and those already answered are dropped. */
module Questions {
  import opened Wrappers
  import opened Text
  import opened Records
  import opened Seqs
  import opened Numbers
  import opened Catalog
  import opened Vendors

  datatype Question = Question(
    id: string,
    text: string,
    context: string,
    impact: string,
    affectedCount: int,
    qType: string,
    vendor: string,
    suggestedValue: string,
    existingPct: int)

  /** An entry of the answer history. */
  datatype Answer = Answer(questionId: string, questionText: string, answer: string)

  /** The two vendors never asked about. */
  predicate Excluded(vendor: string) {
    vendor == "uDiscover Music" || vendor == "Various Artists"
  }

  /** The counts a question of kind `tag` ("genre" or "decade") reads. */
  function TagCounts(d: VendorData, tag: string): Dict<nat> {
    if tag == "genre" then d.existingGenres else d.existingDecades
  }

  /** The vendor table as the aggregation builds it: every listed vendor
      has an entry and every count table is consistent. */
  ghost predicate WellFormed(vendors: Dict<VendorData>) {
    && Valid(vendors)
    && forall v :: v in vendors.vals ==>
         Valid(vendors.vals[v].existingGenres) && Valid(vendors.vals[v].existingDecades)
  }

  function QuestionId(tag: string, vendor: string): string {
    "vendor-" + tag + "-" + vendor
  }

  function QuestionText(vendor: string, value: string): string {
    "Should all \"" + vendor + "\" products be \"" + value + "\"?"
  }

  /** The question of kind `tag` about `vendor`, when one is asked: some
      products are untagged, some are tagged, and the most frequent value
      covers at least half of all the vendor's products once rounded. */
  function Ask(vendor: string, d: VendorData, tag: string): Option<Question>
    requires Valid(TagCounts(d, tag))
  {
    var counts := TagCounts(d, tag);
    var total := |d.products|;
    var tagged := Sum(counts);
    var missing := total - tagged;
    if missing > 0 && tagged > 0 && counts.keys != [] then
      var top := Top(counts);
      var pct := Percent(counts.vals[top], total);
      if pct >= 50 then
        Some(Question(
          QuestionId(tag, vendor),
          QuestionText(vendor, top),
          NatToString(counts.vals[top]) + " of " + NatToString(total) + " already tagged",
          "+" + NatToString(missing) + " products",
          missing, "vendor-" + tag, vendor, top, pct))
      else None
    else None
  }

  function Options(o: Option<Question>): seq<Question> {
    if o.Some? then [o.value] else []
  }

  /** The questions one iteration of the vendor loop pushes. */
  function VendorQuestions(vendor: string, d: VendorData): seq<Question>
    requires Valid(d.existingGenres) && Valid(d.existingDecades)
  {
    if Excluded(vendor) || |d.products| < 2 then []
    else Options(Ask(vendor, d, "genre")) + Options(Ask(vendor, d, "decade"))
  }

  /** The questions pushed for the vendors `keys`, in that order. */
  function CandidatesOf(vendors: Dict<VendorData>, keys: seq<string>): seq<Question>
    requires WellFormed(vendors)
    requires forall i :: 0 <= i < |keys| ==> keys[i] in vendors.vals
  {
    if keys == [] then []
    else
      var v := keys[|keys| - 1];
      CandidatesOf(vendors, keys[..|keys| - 1]) + VendorQuestions(v, vendors.vals[v])
  }

  /** `newQuestions` before sorting. */
  function Candidates(vendors: Dict<VendorData>): seq<Question>
    requires WellFormed(vendors)
  {
    CandidatesOf(vendors, vendors.keys)
  }

  /** The sort key: affected products first, existing percentage second. */
  function Rank(q: Question): (int, int) {
    (q.affectedCount, q.existingPct)
  }

  function AnsweredIds(history: seq<Answer>): set<string> {
    set a | a in history :: a.questionId
  }

  function Unanswered(history: seq<Answer>): Question -> bool {
    (q: Question) => q.id !in AnsweredIds(history)
  }

  /** The question list `generateQuestions` stores. */
  function Pending(vendors: Dict<VendorData>, history: seq<Answer>): seq<Question>
    requires WellFormed(vendors)
  {
    Filter(Sort(Candidates(vendors), Rank), Unanswered(history))
  }

  /** `generateQuestions`: the vendor loop, the sort and the filter against
      the answer history. */
  method GenerateQuestions(vendors: Dict<VendorData>, history: seq<Answer>) returns (questions: seq<Question>)
    requires WellFormed(vendors)
    ensures questions == Pending(vendors, history)
  {
    var found: seq<Question> := [];
    for i := 0 to |vendors.keys|
      invariant found == CandidatesOf(vendors, vendors.keys[..i])
    {
      var vendor := vendors.keys[i];
      var data := vendors.vals[vendor];
      assert vendors.keys[..i + 1][..i] == vendors.keys[..i];
      if vendor != "uDiscover Music" && vendor != "Various Artists" && |data.products| >= 2 {
        var genre := Ask(vendor, data, "genre");
        var decade := Ask(vendor, data, "decade");
        AppendAssoc(found, Options(genre), Options(decade));
        found := found + Options(genre) + Options(decade);
      }
    }
    assert vendors.keys[..|vendors.keys|] == vendors.keys;
    var sorted := Sort(found, Rank);
    questions := Filter(sorted, Unanswered(history));
  }

  // ---------------------------------------------------------------------
  // When a question is asked, and what it says.

  /** A question of kind `tag` is asked exactly when the vendor has both
      tagged and untagged products and some value is carried by at least
      49.5% of all its products (the share that rounds to 50%). */
  lemma AskIff(vendor: string, d: VendorData, tag: string)
    requires Valid(TagCounts(d, tag))
    ensures var c := TagCounts(d, tag);
            var total := |d.products|;
            (Ask(vendor, d, tag).Some? <==>
               0 < Sum(c) < total && exists k :: k in c.vals && 200 * c.vals[k] >= 99 * total)
  {
    var c := TagCounts(d, tag);
    var total := |d.products|;
    if 0 < Sum(c) < total {
      assert c.keys != [];
      var top := Top(c);
      AskWhen(vendor, d, tag);
      PercentAtLeast(c.vals[top], total, 50);
      if exists k :: k in c.vals && 200 * c.vals[k] >= 99 * total {
        var k :| k in c.vals && 200 * c.vals[k] >= 99 * total;
        MulMono(200, c.vals[k], c.vals[top]);
      }
    }
  }

  /** The branch structure of `Ask`, without the question it builds. */
  lemma AskWhen(vendor: string, d: VendorData, tag: string)
    requires Valid(TagCounts(d, tag))
    requires 0 < Sum(TagCounts(d, tag)) < |d.products|
    ensures var c := TagCounts(d, tag);
            c.keys != [] &&
            (Ask(vendor, d, tag).Some? <==> Percent(c.vals[Top(c)], |d.products|) >= 50)
  {
  }

  /** An asked question names its vendor and kind in its id, suggests the
      most frequent value (the first listed among equally frequent ones),
      reports that value's rounded share of all products, between 50 and
      100, and counts the untagged products as affected. */
  lemma AskFields(vendor: string, d: VendorData, tag: string)
    requires Valid(TagCounts(d, tag))
    requires Ask(vendor, d, tag).Some?
    ensures var q := Ask(vendor, d, tag).value;
            var c := TagCounts(d, tag);
            var total := |d.products|;
            && q.id == QuestionId(tag, vendor) && q.vendor == vendor && q.qType == "vendor-" + tag
            && q.text == QuestionText(vendor, q.suggestedValue)
            && q.affectedCount == total - Sum(c) > 0
            && q.suggestedValue in c.vals
            && (forall k :: k in c.vals ==> c.vals[k] <= c.vals[q.suggestedValue])
            && (forall i ::
                  (0 <= i < |c.keys| && c.keys[i] != q.suggestedValue && c.vals[c.keys[i]] == c.vals[q.suggestedValue])
                  ==> exists j :: 0 <= j < i && c.keys[j] == q.suggestedValue)
            && q.existingPct == Percent(c.vals[q.suggestedValue], total)
            && 50 <= q.existingPct <= 100
  {
    var c := TagCounts(d, tag);
    ValueAtMostSum(c.keys, c.vals, Top(c));
  }

  // ---------------------------------------------------------------------
  // Which questions are generated.

  lemma {:induction false} CandidatesOfIn(vendors: Dict<VendorData>, keys: seq<string>, q: Question)
    requires WellFormed(vendors)
    requires forall i :: 0 <= i < |keys| ==> keys[i] in vendors.vals
    ensures q in CandidatesOf(vendors, keys) <==> q.vendor in keys && q in VendorQuestions(q.vendor, vendors.vals[q.vendor])
  {
    if keys != [] {
      var n := |keys| - 1;
      var init := keys[..n];
      CandidatesOfIn(vendors, init, q);
      InLast(keys, q.vendor);
      OwnQuestions(keys[n], vendors.vals[keys[n]], q);
    }
  }

  /** A vendor's questions are about that vendor. */
  lemma OwnQuestions(v: string, d: VendorData, q: Question)
    requires Valid(d.existingGenres) && Valid(d.existingDecades)
    ensures q in VendorQuestions(v, d) ==> q.vendor == v
  {
    if q in VendorQuestions(v, d) {
      if Ask(v, d, "genre") == Some(q) {
        AskFields(v, d, "genre");
      } else {
        AskFields(v, d, "decade");
      }
    }
  }

  /** Every generated question is one `Ask` gives for a listed vendor that
      is not excluded and has at least two products; and every such
      question is generated. */
  lemma CandidatesExactly(vendors: Dict<VendorData>, q: Question)
    requires WellFormed(vendors)
    ensures q in Candidates(vendors) <==>
              && q.vendor in vendors.vals
              && !Excluded(q.vendor)
              && |vendors.vals[q.vendor].products| >= 2
              && (Ask(q.vendor, vendors.vals[q.vendor], "genre") == Some(q)
                  || Ask(q.vendor, vendors.vals[q.vendor], "decade") == Some(q))
  {
    CandidatesOfIn(vendors, vendors.keys, q);
  }

  /** The stored list holds exactly the generated questions whose ids are
      not in the answer history. */
  lemma PendingExactly(vendors: Dict<VendorData>, history: seq<Answer>, q: Question)
    requires WellFormed(vendors)
    ensures q in Pending(vendors, history) <==> q in Candidates(vendors) && q.id !in AnsweredIds(history)
  {
    var c := Candidates(vendors);
    FilterIn(Sort(c, Rank), Unanswered(history), q);
    assert q in Sort(c, Rank) <==> q in multiset(Sort(c, Rank));
  }

  /** The stored list is ordered by affected count, then existing
      percentage, both descending. */
  lemma PendingSorted(vendors: Dict<VendorData>, history: seq<Answer>)
    requires WellFormed(vendors)
    ensures SortedDesc(Pending(vendors, history), Rank)
  {
    FilterSorted(Sort(Candidates(vendors), Rank), Rank, Unanswered(history));
  }

  /** Questions that tie on both keys keep the vendor order they were
      generated in. */
  lemma PendingStable(vendors: Dict<VendorData>, history: seq<Answer>, k: (int, int))
    requires WellFormed(vendors)
    ensures Filter(Pending(vendors, history), KeyIs(Rank, k))
         == Filter(Filter(Candidates(vendors), Unanswered(history)), KeyIs(Rank, k))
  {
    var c := Candidates(vendors);
    var u := Unanswered(history);
    var r := KeyIs(Rank, k);
    FilterCommute(Sort(c, Rank), u, r);
    SortStable(c, Rank, k);
    FilterCommute(c, u, r);
  }

  // ---------------------------------------------------------------------
  // The products a question is about (`getAffectedProducts`).

  /** `q.type.includes('genre') ? 'existingGenre' : 'existingDecade'`. */
  function TagField(qType: string): Product -> Option<string> {
    if Contains(qType, "genre") then GenreOf else DecadeOf
  }

  function Lacks(field: Product -> Option<string>): Product -> bool {
    (p: Product) => !Truthy(field(p))
  }

  /** The vendor's products without a value for the question's field; none
      when the vendor has no entry. */
  function AffectedProducts(vendors: Dict<VendorData>, q: Question): seq<Product> {
    if q.vendor in vendors.vals then Filter(vendors.vals[q.vendor].products, Lacks(TagField(q.qType)))
    else []
  }

  lemma NoGenreWithoutG(s: string)
    requires 'g' !in s
    ensures !Contains(s, "genre")
  {
    forall i | 0 <= i <= |s| - 5 ensures !OccursAt(s, "genre", i) {
      assert s[i] in s;
    }
    ContainsIff(s, "genre");
  }

  /** The type of a question of kind `tag` mentions "genre" exactly when
      the kind is "genre". */
  lemma KindNamed(tag: string)
    requires tag == "genre" || tag == "decade"
    ensures Contains("vendor-" + tag, "genre") <==> tag == "genre"
  {
    if tag == "genre" {
      assert "vendor-" + tag == "vendor-genre";
      assert OccursAt("vendor-genre", "genre", 7);
      ContainsIff("vendor-genre", "genre");
    } else {
      assert "vendor-" + tag == "vendor-decade";
      NoGenreWithoutG("vendor-decade");
    }
  }

  /** A question's type names the field its `tag` reads. */
  lemma TagFieldOf(tag: string)
    requires tag == "genre" || tag == "decade"
    ensures TagField("vendor-" + tag) == if tag == "genre" then GenreOf else DecadeOf
  {
    KindNamed(tag);
  }

  /** The aggregated vendor table is well formed. */
  lemma AggregatedWellFormed(ps: seq<Product>)
    ensures WellFormed(Aggregated(ps))
  {
    AggregatedGroups(ps, "");
  }

  /** On the table built from a catalog, a question's affected count is the
      number of products `getAffectedProducts` lists for it. */
  lemma AffectedCount(ps: seq<Product>, v: string, tag: string)
    requires tag == "genre" || tag == "decade"
    requires v in Aggregated(ps).vals
    requires Ask(v, Aggregated(ps).vals[v], tag).Some?
    ensures var q := Ask(v, Aggregated(ps).vals[v], tag).value;
            q.affectedCount == |AffectedProducts(Aggregated(ps), q)|
  {
    AggregatedGroups(ps, v);
    var d := Aggregated(ps).vals[v];
    AskFields(v, d, tag);
    var q := Ask(v, d, tag).value;
    TagFieldOf(tag);
    var field := if tag == "genre" then GenreOf else DecadeOf;
    CountComplement(d.products, HasField(field), Lacks(field));
  }
}
