/** The state of the tagging page (`TagQuest`) and the operations that
    change it: loading a catalog or a saved session, regenerating the
    question queue, answering a question or a meta-question, and the
    progress figures read from it. */
module Page {
  import opened Wrappers
  import opened Text
  import opened Records
  import opened Seqs
  import opened Numbers
  import opened Catalog
  import opened Vendors
  import opened Certainty
  import opened Questions
  import opened Meta
  import opened Stats

  /** The four answer buttons. */
  datatype Reply = Yes | No | Detailed | Skip

  /** The answer text recorded in the history. */
  function Response(reply: Reply, detailed: string): string {
    match reply
    case Yes => "yes"
    case No => "no"
    case Skip => "skip"
    case Detailed => Trim(detailed)
  }

  /** The rule a 'yes' to `q` creates. */
  function RuleFor(q: Question): Rule {
    Rule(q.qType, q.vendor, if Contains(q.qType, "genre") then "genre" else "decade", q.suggestedValue,
         Min(95, q.existingPct + 10), "User confirmed")
  }

  /** A saved session as the server returns it; a missing list is empty. */
  datatype SavedSession = SavedSession(rules: seq<Rule>, answers: seq<Answer>, certainties: seq<SavedCertainty>)

  class TagQuest {
    var products: seq<Product>
    var vendors: Dict<VendorData>
    const certainty: CertaintyTable
    var rules: seq<Rule>
    var questions: seq<Question>
    var index: int
    var history: seq<Answer>
    var detailedAnswer: string
    var checkpoint: bool

    /** The vendor table is always the one aggregated from the products,
        so no vendor entry is empty. */
    ghost predicate Consistent()
      reads this
    {
      vendors == Aggregated(products) && WellFormed(vendors) && NonEmptyGroups(vendors)
    }

    constructor ()
      ensures Consistent()
      ensures products == [] && rules == [] && questions == [] && history == []
      ensures index == 0 && detailedAnswer == "" && !checkpoint
      ensures fresh(certainty) && certainty.entries == map[]
    {
      products := [];
      vendors := Dict([], map[]);
      certainty := new CertaintyTable();
      rules := [];
      questions := [];
      index := 0;
      history := [];
      detailedAnswer := "";
      checkpoint := false;
      assert Aggregated([]) == Dict([], map[]);
      AggregatedConsistent([]);
    }

    /** `loadCatalogProducts`: an empty catalog changes nothing; otherwise
        the products, the vendor table and the certainty table are rebuilt
        from it and the current rules applied again. */
    method LoadCatalog(catalog: seq<Product>)
      requires Consistent()
      modifies this, certainty
      ensures Consistent()
      ensures catalog == [] ==> products == old(products) && certainty.entries == old(certainty.entries)
      ensures catalog != [] ==>
                && products == catalog
                && certainty.entries == AfterRules(Seeded(catalog), rules, Aggregated(catalog))
      ensures rules == old(rules) && history == old(history) && questions == old(questions)
      ensures index == old(index) && detailedAnswer == old(detailedAnswer) && checkpoint == old(checkpoint)
    {
      if catalog == [] {
        return;
      }
      var newVendors := Aggregate(catalog);
      AggregatedConsistent(catalog);
      certainty.Seed(catalog);
      products := catalog;
      vendors := newVendors;
      certainty.ApplyRules(rules, newVendors);
    }

    /** `loadSession`: the session's rules and answers replace the current
        ones; with a non-empty catalog the tables are rebuilt, the saved
        certainties written over the seeded ones and the session's rules
        applied. */
    method LoadSession(session: SavedSession, catalog: seq<Product>)
      requires Consistent()
      modifies this, certainty
      ensures Consistent()
      ensures rules == session.rules && history == session.answers
      ensures catalog == [] ==> products == old(products) && certainty.entries == old(certainty.entries)
      ensures catalog != [] ==>
                && products == catalog
                && certainty.entries
                   == AfterRules(WithSaved(Seeded(catalog), session.certainties), session.rules, Aggregated(catalog))
      ensures questions == old(questions) && index == old(index)
      ensures detailedAnswer == old(detailedAnswer) && checkpoint == old(checkpoint)
    {
      rules := session.rules;
      history := session.answers;
      if catalog != [] {
        var loadedVendors := Aggregate(catalog);
        AggregatedConsistent(catalog);
        certainty.Seed(catalog);
        certainty.ApplySaved(session.certainties);
        products := catalog;
        vendors := loadedVendors;
        certainty.ApplyRules(session.rules, loadedVendors);
      }
    }

    /** `syncFromServer`: the session's rules and answers replace the
        current ones and the certainty table is rebuilt from the current
        products, the saved certainties and the rules. */
    method Sync(session: SavedSession)
      modifies this, certainty
      ensures rules == session.rules && history == session.answers
      ensures certainty.entries == AfterRules(WithSaved(Seeded(products), session.certainties), session.rules, vendors)
      ensures products == old(products) && vendors == old(vendors) && questions == old(questions)
      ensures index == old(index) && detailedAnswer == old(detailedAnswer) && checkpoint == old(checkpoint)
    {
      rules := session.rules;
      history := session.answers;
      certainty.Seed(products);
      certainty.ApplySaved(session.certainties);
      certainty.ApplyRules(session.rules, vendors);
    }

    /** The effect that runs `generateQuestions` whenever the vendor table or
        the history changes: a fresh queue, positioned at its start. */
    method Regenerate()
      requires Consistent()
      modifies this
      ensures Consistent()
      ensures questions == Pending(vendors, history) && index == 0
      ensures products == old(products) && vendors == old(vendors) && rules == old(rules) && history == old(history)
      ensures detailedAnswer == old(detailedAnswer) && checkpoint == old(checkpoint)
    {
      questions := GenerateQuestions(vendors, history);
      index := 0;
    }

    /** Whether `answerQuestion(reply)` does anything: there is a current
        question, and a detailed answer is not blank. */
    ghost predicate Acts(reply: Reply)
      reads this
    {
      0 <= index < |questions| && (reply == Detailed ==> Trim(detailedAnswer) != "")
    }

    /** `answerQuestion`: records the answer, turns a 'yes' into a rule
        applied at once, clears the typed answer and moves to the next
        question, except at every tenth answer, where the checkpoint is
        shown instead. */
    method AnswerQuestion(reply: Reply)
      modifies this, certainty
      ensures !old(Acts(reply)) ==>
                && history == old(history) && rules == old(rules) && certainty.entries == old(certainty.entries)
                && index == old(index) && detailedAnswer == old(detailedAnswer) && checkpoint == old(checkpoint)
      ensures old(Acts(reply)) ==>
                var q := old(questions[index]);
                && history == old(history) + [Answer(q.id, q.text, Response(reply, old(detailedAnswer)))]
                && rules == old(rules) + (if reply == Yes then [RuleFor(q)] else [])
                && certainty.entries
                   == (if reply == Yes then AfterRule(old(certainty.entries), RuleFor(q), vendors) else old(certainty.entries))
                && detailedAnswer == ""
                && (if |history| % 10 == 0 then checkpoint && index == old(index)
                    else checkpoint == old(checkpoint) && index == old(index) + 1)
      ensures products == old(products) && vendors == old(vendors) && questions == old(questions)
    {
      if !(0 <= index < |questions|) {
        return;
      }
      var q := questions[index];
      var response := Response(reply, detailedAnswer);
      if reply == Detailed && response == "" {
        return;
      }
      history := history + [Answer(q.id, q.text, response)];
      if reply == Yes {
        var rule := Rule(q.qType, q.vendor, if Contains(q.qType, "genre") then "genre" else "decade",
                         q.suggestedValue, Min(95, q.existingPct + 10), "User confirmed");
        rules := rules + [rule];
        certainty.ApplyRule(rule, vendors);
      }
      detailedAnswer := "";
      if |history| % 10 == 0 {
        checkpoint := true;
      } else {
        index := index + 1;
      }
    }

    /** An answer as the page performs it: `answerQuestion`, then the effect
        its new history entry triggers. When the vendor table is not empty,
        the effect replaces the queue with the questions still pending and
        puts the index back to 0, overriding the handler's own move to the
        next question. */
    method Respond(reply: Reply)
      requires Consistent()
      modifies this, certainty
      ensures Consistent()
      ensures !old(Acts(reply)) ==>
                && history == old(history) && rules == old(rules) && certainty.entries == old(certainty.entries)
                && questions == old(questions) && index == old(index)
                && detailedAnswer == old(detailedAnswer) && checkpoint == old(checkpoint)
      ensures old(Acts(reply)) ==>
                var q := old(questions[index]);
                && history == old(history) + [Answer(q.id, q.text, Response(reply, old(detailedAnswer)))]
                && rules == old(rules) + (if reply == Yes then [RuleFor(q)] else [])
                && certainty.entries
                   == (if reply == Yes then AfterRule(old(certainty.entries), RuleFor(q), vendors) else old(certainty.entries))
                && detailedAnswer == ""
                && checkpoint == (|history| % 10 == 0 || old(checkpoint))
                && (vendors.keys != [] ==> questions == Pending(vendors, history) && index == 0)
                && (vendors.keys == [] ==>
                      questions == old(questions)
                      && index == if |history| % 10 == 0 then old(index) else old(index) + 1)
      ensures products == old(products) && vendors == old(vendors)
    {
      var before := |history|;
      AnswerQuestion(reply);
      if |history| != before && vendors.keys != [] {
        Regenerate();
      }
    }

    /** `continueAfterCheckpoint`. */
    method ContinueAfterCheckpoint()
      modifies this
      ensures !checkpoint && index == old(index) + 1
      ensures products == old(products) && vendors == old(vendors) && questions == old(questions)
      ensures rules == old(rules) && history == old(history) && detailedAnswer == old(detailedAnswer)
    {
      checkpoint := false;
      index := index + 1;
    }

    /** `getAffectedProducts`: the current question's products without a
        value for its field. */
    function Affected(): seq<Product>
      reads this
    {
      if 0 <= index < |questions| then AffectedProducts(vendors, questions[index]) else []
    }

    /** `getMetaQuestions` on the current queue. */
    method MetaQuestions() returns (genres: seq<MetaQuestion>, decades: seq<MetaQuestion>)
      ensures genres == MetaList(questions, vendors, true)
      ensures decades == MetaList(questions, vendors, false)
    {
      genres, decades := GetMetaQuestions(questions, vendors);
    }

    /** `answerMetaQuestion`: one history entry per vendor of the group; on
        'yes', one rule per vendor with an entry, each applied at once; then
        the questions of those vendors and that kind leave the queue. */
    method AnswerMetaQuestion(meta: MetaQuestion, answer: string)
      requires Consistent()
      modifies this`history, this`rules, this`questions, certainty
      ensures history == old(history) + MetaAnswers(meta, answer)
      ensures var created := if answer == "yes" then MetaRules(meta, meta.vendors, vendors) else [];
              && rules == old(rules) + created
              && certainty.entries == AfterRules(old(certainty.entries), created, vendors)
      ensures questions == Filter(old(questions), NotIn(MetaIds(meta)))
    {
      var entries, created := AnswerMetaVendors(meta, answer, vendors, certainty);
      history, rules := history + entries, rules + created;
      questions := Filter(questions, NotIn(MetaIds(meta)));
    }

    /** A meta-question answer as the page performs it:
        `answerMetaQuestion`, then the effect. The handler always stores a
        new history array, even for a meta question with no vendors, so the
        effect runs whenever the vendor table is not empty: the regenerated
        queue replaces the filtered one and the index goes back to 0. */
    method RespondMeta(meta: MetaQuestion, answer: string)
      requires Consistent()
      modifies this, certainty
      ensures Consistent()
      ensures history == old(history) + MetaAnswers(meta, answer)
      ensures var created := if answer == "yes" then MetaRules(meta, meta.vendors, vendors) else [];
              && rules == old(rules) + created
              && certainty.entries == AfterRules(old(certainty.entries), created, vendors)
      ensures vendors.keys != [] ==> questions == Pending(vendors, history) && index == 0
      ensures vendors.keys == [] ==> questions == Filter(old(questions), NotIn(MetaIds(meta))) && index == old(index)
      ensures products == old(products) && vendors == old(vendors)
      ensures detailedAnswer == old(detailedAnswer) && checkpoint == old(checkpoint)
    {
      AnswerMetaQuestion(meta, answer);
      if vendors.keys != [] {
        Regenerate();
      }
    }

    /** `getStats`. */
    method Stats() returns (s: Summary)
      ensures s == SummaryOf(products, certainty.entries)
    {
      s := CountBands(products, certainty.entries);
    }

    /** `getDetailedStats`. */
    method DetailedStats() returns (d: DetailedReport)
      ensures d == DetailedReport(BreakdownOf(products, certainty.entries, GenreTag),
                                  BreakdownOf(products, certainty.entries, DecadeTag),
                                  |questions|, |history|)
    {
      var genre, decade := CountLevels(products, certainty.entries);
      d := DetailedReport(genre, decade, |questions|, |history|);
    }
  }

  /** An aggregated table is well formed and none of its vendor entries is
      empty. */
  lemma AggregatedConsistent(ps: seq<Product>)
    ensures WellFormed(Aggregated(ps)) && NonEmptyGroups(Aggregated(ps))
  {
    AggregatedWellFormed(ps);
    forall v | v in Aggregated(ps).vals ensures |Aggregated(ps).vals[v].products| > 0 {
      AggregatedGroups(ps, v);
    }
  }

  /** The rule a 'yes' creates for a generated question: the question's
      vendor, kind and suggested value, 10 points above the existing share
      and between 60% and 95% certain. */
  lemma RuleForAsked(vendor: string, d: VendorData, tag: string)
    requires tag == "genre" || tag == "decade"
    requires Valid(TagCounts(d, tag))
    requires Ask(vendor, d, tag).Some?
    ensures var q := Ask(vendor, d, tag).value;
            var r := RuleFor(q);
            && r.vendor == vendor && r.tagType == tag && r.value == q.suggestedValue
            && r.certaintyPct == Min(95, q.existingPct + 10)
            && 60 <= r.certaintyPct <= 95
  {
    AskFields(vendor, d, tag);
    KindNamed(tag);
  }

  /** The loop of `answerMetaQuestion`: the history entries of the group's
      vendors, and on 'yes' the rules created for those with an entry, each
      applied to `table` as it is made. */
  method AnswerMetaVendors(meta: MetaQuestion, answer: string, vendors: Dict<VendorData>, table: CertaintyTable)
    returns (entries: seq<Answer>, created: seq<Rule>)
    requires NonEmptyGroups(vendors)
    modifies table
    ensures entries == MetaAnswers(meta, answer)
    ensures created == if answer == "yes" then MetaRules(meta, meta.vendors, vendors) else []
    ensures table.entries == AfterRules(old(table.entries), created, vendors)
  {
    entries, created := [], [];
    for i := 0 to |meta.vendors|
      invariant entries == MetaAnswers(meta, answer)[..i]
      invariant answer == "yes" ==> created == MetaRules(meta, meta.vendors[..i], vendors)
      invariant answer != "yes" ==> created == []
      invariant table.entries == AfterRules(old(table.entries), created, vendors)
    {
      MetaRulesPrefix(meta, meta.vendors, i, vendors);
      MetaAnswersPrefix(meta, answer, i);
      var entry, made := AnswerMetaVendor(meta, meta.vendors[i], answer, vendors, table);
      entries := entries + [entry];
      if made.Some? {
        AfterRulesSnoc(old(table.entries), created, made.value, vendors);
        created := created + [made.value];
      }
    }
    assert meta.vendors[..|meta.vendors|] == meta.vendors;
  }

  /** One pass of that loop: the history entry of `vendor`, and on 'yes'
      the rule for a vendor with an entry, applied at once. */
  method AnswerMetaVendor(meta: MetaQuestion, vendor: string, answer: string, vendors: Dict<VendorData>,
                          table: CertaintyTable)
    returns (entry: Answer, made: Option<Rule>)
    requires NonEmptyGroups(vendors)
    modifies table
    ensures entry == Answer(QuestionId(meta.kind, vendor), QuestionText(vendor, meta.value), answer)
    ensures made == if answer == "yes" && vendor in vendors.vals
                    then Some(MetaRule(meta, vendor, vendors.vals[vendor])) else None
    ensures table.entries == if made.Some? then AfterRule(old(table.entries), made.value, vendors)
                             else old(table.entries)
  {
    var tagType := if meta.kind == "genre" then "genre" else "decade";
    entry := Answer(QuestionId(meta.kind, vendor), QuestionText(vendor, meta.value), answer);
    made := None;
    if answer == "yes" && vendor in vendors.vals {
      var d := vendors.vals[vendor];
      var existingCount := Get(TagCounts(d, meta.kind), meta.value, 0);
      var existingPct := Percent(existingCount, |d.products|);
      var rule := Rule("vendor-" + meta.kind, vendor, tagType, meta.value, Min(95, existingPct + 10),
                       "User confirmed (meta-question)");
      assert rule == MetaRule(meta, vendor, d);
      table.ApplyRule(rule, vendors);
      made := Some(rule);
    }
  }
}
