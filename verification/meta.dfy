/** Meta-questions (`getMetaQuestions`, `answerMetaQuestion`): the queued
    questions grouped by kind and suggested value, so that one answer
    settles the same suggestion for many vendors. */
module Meta {
  import opened Wrappers
  import opened Text
  import opened Records
  import opened Seqs
  import opened Numbers
  import opened Catalog
  import opened Vendors
  import opened Certainty
  import opened Questions

  datatype Group = Group(vendors: seq<string>, totalProducts: nat)

  /** A group as listed: `{ type, value, vendors, totalProducts }`. */
  datatype MetaQuestion = MetaQuestion(kind: string, value: string, vendors: seq<string>, totalProducts: nat)

  /** `vendors[v]?.products.length || 0`. */
  function ProductCount(vendors: Dict<VendorData>, v: string): nat {
    if v in vendors.vals then |vendors.vals[v].products| else 0
  }

  /** `q.type.includes('genre')`: a genre question, else a decade one. */
  predicate IsGenreQuestion(q: Question) {
    Contains(q.qType, "genre")
  }

  /** The questions that fall into the group of kind `genre` and value `x`. */
  function InGroup(genre: bool, x: string): Question -> bool {
    (q: Question) => IsGenreQuestion(q) == genre && q.suggestedValue == x
  }

  const NoGroup := Group([], 0)

  /** The groups of one kind after reading the questions `qs`: each
      question of that kind pushes its vendor onto the group of its
      suggested value and adds the vendor's product count. */
  function Groups(qs: seq<Question>, vendors: Dict<VendorData>, genre: bool): Dict<Group> {
    if qs == [] then Empty()
    else Grouped(Groups(qs[..|qs| - 1], vendors, genre), qs[|qs| - 1], vendors, genre)
  }

  /** One question read into the groups of one kind. */
  function Grouped(d: Dict<Group>, q: Question, vendors: Dict<VendorData>, genre: bool): Dict<Group> {
    if IsGenreQuestion(q) == genre then Joined(d, q, vendors) else d
  }

  /** The group of the question's suggested value, created empty when
      missing, gains the question's vendor and that vendor's product count. */
  function Joined(d: Dict<Group>, q: Question, vendors: Dict<VendorData>): Dict<Group> {
    var g := Get(d, q.suggestedValue, NoGroup);
    Put(d, q.suggestedValue, Group(g.vendors + [q.vendor], g.totalProducts + ProductCount(vendors, q.vendor)))
  }

  lemma GroupsPrefix(qs: seq<Question>, i: nat, vendors: Dict<VendorData>, genre: bool)
    requires i < |qs|
    ensures Groups(qs[..i + 1], vendors, genre) == Grouped(Groups(qs[..i], vendors, genre), qs[i], vendors, genre)
  {
    assert qs[..i + 1][..i] == qs[..i];
  }

  /** The vendors of `qs`, in order. */
  function VendorsOf(qs: seq<Question>): (r: seq<string>)
    ensures |r| == |qs|
  {
    if qs == [] then [] else VendorsOf(qs[..|qs| - 1]) + [qs[|qs| - 1].vendor]
  }

  /** The product counts of the vendors of `qs`, added up. */
  function TotalOf(qs: seq<Question>, vendors: Dict<VendorData>): nat {
    if qs == [] then 0 else TotalOf(qs[..|qs| - 1], vendors) + ProductCount(vendors, qs[|qs| - 1].vendor)
  }

  lemma VendorsOfSnoc(qs: seq<Question>, q: Question)
    ensures VendorsOf(qs + [q]) == VendorsOf(qs) + [q.vendor]
  {
    assert (qs + [q])[..|qs|] == qs;
  }

  lemma TotalOfSnoc(qs: seq<Question>, q: Question, vendors: Dict<VendorData>)
    ensures TotalOf(qs + [q], vendors) == TotalOf(qs, vendors) + ProductCount(vendors, q.vendor)
  {
    assert (qs + [q])[..|qs|] == qs;
  }

  lemma {:induction false} GroupsValid(qs: seq<Question>, vendors: Dict<VendorData>, genre: bool)
    ensures Valid(Groups(qs, vendors, genre))
  {
    if qs != [] {
      GroupsValid(qs[..|qs| - 1], vendors, genre);
    }
  }

  /** A value has a group exactly when some question of that kind suggests
      it; the group lists the vendors of those questions in queue order and
      adds up their product counts. */
  lemma GroupsEntry(qs: seq<Question>, vendors: Dict<VendorData>, genre: bool, x: string)
    ensures Valid(Groups(qs, vendors, genre))
    ensures x in Groups(qs, vendors, genre).vals <==> exists q :: q in qs && InGroup(genre, x)(q)
    ensures x in Groups(qs, vendors, genre).vals ==>
              var mine := Filter(qs, InGroup(genre, x));
              Groups(qs, vendors, genre).vals[x] == Group(VendorsOf(mine), TotalOf(mine, vendors))
  {
    GroupsValid(qs, vendors, genre);
    GroupsKey(qs, vendors, genre, x);
    if x in Groups(qs, vendors, genre).vals {
      GroupsValue(qs, vendors, genre, x);
    }
  }

  lemma {:induction false} GroupsKey(qs: seq<Question>, vendors: Dict<VendorData>, genre: bool, x: string)
    ensures x in Groups(qs, vendors, genre).vals <==> Filter(qs, InGroup(genre, x)) != []
  {
    if qs != [] {
      var init := qs[..|qs| - 1];
      var q := qs[|qs| - 1];
      GroupsKey(init, vendors, genre, x);
      FilterLast(qs, InGroup(genre, x));
    }
  }

  lemma {:induction false} GroupsValue(qs: seq<Question>, vendors: Dict<VendorData>, genre: bool, x: string)
    requires x in Groups(qs, vendors, genre).vals
    ensures var mine := Filter(qs, InGroup(genre, x));
            Groups(qs, vendors, genre).vals[x] == Group(VendorsOf(mine), TotalOf(mine, vendors))
  {
    var init := qs[..|qs| - 1];
    var q := qs[|qs| - 1];
    FilterLast(qs, InGroup(genre, x));
    var mine := Filter(init, InGroup(genre, x));
    GroupsKey(init, vendors, genre, x);
    if x in Groups(init, vendors, genre).vals {
      GroupsValue(init, vendors, genre, x);
    }
    if InGroup(genre, x)(q) {
      VendorsOfSnoc(mine, q);
      TotalOfSnoc(mine, q, vendors);
    }
  }

  /** `Object.entries(groups).map(([value, data]) => ({ type, value, ...data }))`. */
  function Listed(d: Dict<Group>, kind: string): (r: seq<MetaQuestion>)
    requires Valid(d)
    ensures |r| == |d.keys|
  {
    seq(|d.keys|, i requires 0 <= i < |d.keys| =>
      MetaQuestion(kind, d.keys[i], d.vals[d.keys[i]].vendors, d.vals[d.keys[i]].totalProducts))
  }

  /** The sort key `b.vendors.length - a.vendors.length`. */
  function Size(m: MetaQuestion): (int, int) {
    (|m.vendors|, 0)
  }

  /** The list of one kind `getMetaQuestions` returns. */
  function MetaList(qs: seq<Question>, vendors: Dict<VendorData>, genre: bool): seq<MetaQuestion>
  {
    GroupsEntry(qs, vendors, genre, "");
    Sort(Listed(Groups(qs, vendors, genre), if genre then "genre" else "decade"), Size)
  }

  /** `getMetaQuestions`: the grouping loop over the queued questions, then
      each kind's groups listed and sorted by vendor count, descending. */
  method GetMetaQuestions(questions: seq<Question>, vendors: Dict<VendorData>)
    returns (genres: seq<MetaQuestion>, decades: seq<MetaQuestion>)
    ensures genres == MetaList(questions, vendors, true)
    ensures decades == MetaList(questions, vendors, false)
  {
    var genreGroups, decadeGroups := GroupQuestions(questions, vendors);
    GroupsValid(questions, vendors, true);
    GroupsValid(questions, vendors, false);
    genres := Sort(Listed(genreGroups, "genre"), Size);
    decades := Sort(Listed(decadeGroups, "decade"), Size);
  }

  /** The grouping loop of `getMetaQuestions`. */
  method GroupQuestions(questions: seq<Question>, vendors: Dict<VendorData>)
    returns (genreGroups: Dict<Group>, decadeGroups: Dict<Group>)
    ensures genreGroups == Groups(questions, vendors, true)
    ensures decadeGroups == Groups(questions, vendors, false)
  {
    genreGroups := Empty();
    decadeGroups := Empty();
    for i := 0 to |questions|
      invariant genreGroups == Groups(questions[..i], vendors, true)
      invariant decadeGroups == Groups(questions[..i], vendors, false)
    {
      var q := questions[i];
      GroupsPrefix(questions, i, vendors, true);
      GroupsPrefix(questions, i, vendors, false);
      if Contains(q.qType, "genre") {
        genreGroups := Joined(genreGroups, q, vendors);
      } else {
        decadeGroups := Joined(decadeGroups, q, vendors);
      }
    }
    assert questions[..|questions|] == questions;
  }

  /** Each listed meta-question is the group of one suggested value: its
      vendors are those of the queued questions of its kind suggesting that
      value, in queue order, and its total adds up their product counts.
      Every such value is listed once, and the list is ordered by vendor
      count, descending. */
  lemma MetaListExactly(qs: seq<Question>, vendors: Dict<VendorData>, genre: bool, m: MetaQuestion)
    ensures var list := MetaList(qs, vendors, genre);
            var mine := Filter(qs, InGroup(genre, m.value));
            && SortedDesc(list, Size)
            && (m in list <==>
                  && m.kind == (if genre then "genre" else "decade")
                  && (exists q :: q in qs && InGroup(genre, m.value)(q))
                  && m.vendors == VendorsOf(mine)
                  && m.totalProducts == TotalOf(mine, vendors))
  {
    GroupsEntry(qs, vendors, genre, m.value);
    var d := Groups(qs, vendors, genre);
    var kind := if genre then "genre" else "decade";
    var listed := Listed(d, kind);
    assert m in MetaList(qs, vendors, genre) <==> m in listed by {
      assert m in MetaList(qs, vendors, genre) <==> m in multiset(MetaList(qs, vendors, genre));
    }
    if m.value in d.vals {
      var i :| 0 <= i < |d.keys| && d.keys[i] == m.value;
      assert listed[i] == MetaQuestion(kind, m.value, d.vals[m.value].vendors, d.vals[m.value].totalProducts);
    }
  }

  /** `[...genres, ...decades].filter(m => m.vendors.length > 1)`: what the
      meta-question panel offers. */
  function Offered(genres: seq<MetaQuestion>, decades: seq<MetaQuestion>): seq<MetaQuestion> {
    Filter(genres + decades, (m: MetaQuestion) => |m.vendors| > 1)
  }

  /** A group is offered exactly when at least two queued questions of its
      kind suggest its value. */
  lemma OfferedIff(qs: seq<Question>, vendors: Dict<VendorData>, m: MetaQuestion)
    ensures var genres := MetaList(qs, vendors, true);
            var decades := MetaList(qs, vendors, false);
            var genre := m.kind == "genre";
            (m in Offered(genres, decades) <==>
               (m in genres || m in decades) && Count(qs, InGroup(genre, m.value)) >= 2)
  {
    var genres := MetaList(qs, vendors, true);
    var decades := MetaList(qs, vendors, false);
    FilterIn(genres + decades, (m: MetaQuestion) => |m.vendors| > 1, m);
    MetaListExactly(qs, vendors, true, m);
    MetaListExactly(qs, vendors, false, m);
  }

  // ---------------------------------------------------------------------
  // Answering a meta-question.

  /** The history entries an answer to `meta` appends: one per vendor. */
  function MetaAnswers(meta: MetaQuestion, answer: string): (r: seq<Answer>)
    ensures |r| == |meta.vendors|
    ensures forall i :: 0 <= i < |r| ==>
              r[i] == Answer(QuestionId(meta.kind, meta.vendors[i]), QuestionText(meta.vendors[i], meta.value), answer)
  {
    seq(|meta.vendors|, i requires 0 <= i < |meta.vendors| =>
      Answer(QuestionId(meta.kind, meta.vendors[i]), QuestionText(meta.vendors[i], meta.value), answer))
  }

  /** Every vendor entry holds at least one product, as after aggregation. */
  predicate NonEmptyGroups(vendors: Dict<VendorData>) {
    forall v :: v in vendors.vals ==> |vendors.vals[v].products| > 0
  }

  lemma MetaAnswersPrefix(meta: MetaQuestion, answer: string, i: nat)
    requires i < |meta.vendors|
    ensures MetaAnswers(meta, answer)[..i + 1]
         == MetaAnswers(meta, answer)[..i]
            + [Answer(QuestionId(meta.kind, meta.vendors[i]), QuestionText(meta.vendors[i], meta.value), answer)]
  {
    var r := MetaAnswers(meta, answer);
    assert r[..i + 1] == r[..i] + [r[i]];
  }

  /** The rule a 'yes' creates for a vendor present in the table: the
      vendor's own rounded share of products already carrying the value,
      plus 10, capped at 95. */
  function MetaRule(meta: MetaQuestion, v: string, d: VendorData): Rule
    requires |d.products| > 0
  {
    var existingCount := Get(TagCounts(d, meta.kind), meta.value, 0);
    var existingPct := Percent(existingCount, |d.products|);
    Rule("vendor-" + meta.kind, v, if meta.kind == "genre" then "genre" else "decade", meta.value,
         Min(95, existingPct + 10), "User confirmed (meta-question)")
  }

  /** The rules a 'yes' creates for the vendors `vs`, skipping vendors with
      no entry. */
  function MetaRules(meta: MetaQuestion, vs: seq<string>, vendors: Dict<VendorData>): seq<Rule>
    requires NonEmptyGroups(vendors)
  {
    if vs == [] then []
    else
      var v := vs[|vs| - 1];
      MetaRules(meta, vs[..|vs| - 1], vendors) + (if v in vendors.vals then [MetaRule(meta, v, vendors.vals[v])] else [])
  }

  lemma MetaRulesPrefix(meta: MetaQuestion, vs: seq<string>, i: nat, vendors: Dict<VendorData>)
    requires NonEmptyGroups(vendors) && i < |vs|
    ensures MetaRules(meta, vs[..i + 1], vendors)
         == MetaRules(meta, vs[..i], vendors)
            + (if vs[i] in vendors.vals then [MetaRule(meta, vs[i], vendors.vals[vs[i]])] else [])
  {
    assert vs[..i + 1][..i] == vs[..i];
  }

  function InTable(vendors: Dict<VendorData>): string -> bool {
    (v: string) => v in vendors.vals
  }

  /** One rule per listed vendor that has an entry, in list order, each for
      that vendor, the group's value and tag type, and between 10% and 95%
      certain. */
  lemma {:induction false} MetaRulesFacts(meta: MetaQuestion, vs: seq<string>, vendors: Dict<VendorData>)
    requires NonEmptyGroups(vendors)
    ensures var rules := MetaRules(meta, vs, vendors);
            && |rules| == Count(vs, InTable(vendors))
            && (forall i :: 0 <= i < |rules| ==> rules[i].vendor == Filter(vs, InTable(vendors))[i])
            && (forall i :: 0 <= i < |rules| ==>
                  && rules[i].value == meta.value
                  && rules[i].tagType == (if meta.kind == "genre" then "genre" else "decade")
                  && 10 <= rules[i].certaintyPct <= 95)
  {
    if vs != [] {
      var init := vs[..|vs| - 1];
      var v := vs[|vs| - 1];
      MetaRulesFacts(meta, init, vendors);
      assert vs == init + [v];
      FilterSnoc(init, v, InTable(vendors));
    }
  }

  /** On a table aggregated from a catalog, a vendor's rule is 10 points
      above the rounded share of its products that already carry the value,
      capped at 95. */
  lemma MetaRulePct(ps: seq<Product>, meta: MetaQuestion, v: string)
    requires meta.kind == "genre" || meta.kind == "decade"
    requires meta.value != ""
    requires v in Aggregated(ps).vals
    ensures var d := Aggregated(ps).vals[v];
            var field := if meta.kind == "genre" then GenreOf else DecadeOf;
            && |d.products| > 0
            && MetaRule(meta, v, d).certaintyPct
                 == Min(95, Percent(Count(d.products, FieldIs(field, meta.value)), |d.products|) + 10)
  {
    AggregatedGroups(ps, v);
    var d := Aggregated(ps).vals[v];
    var field := if meta.kind == "genre" then GenreOf else DecadeOf;
    CountsEntry(d.products, field, meta.value);
    if meta.value !in TagCounts(d, meta.kind).vals {
      FilterNone(d.products, FieldIs(field, meta.value));
    }
  }

  /** The ids answered by `meta`. */
  function MetaIds(meta: MetaQuestion): set<string> {
    set v | v in meta.vendors :: QuestionId(meta.kind, v)
  }

  function NotIn(ids: set<string>): Question -> bool {
    (q: Question) => q.id !in ids
  }
}
