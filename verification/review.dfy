/** The review page: the answer history is listed under a filter, and an
    answer can be edited. Saving an edit rewrites the answer in the history
    and repairs the rules it produced: a confirmation taken back removes the
    vendor's rules for that tag type, a new confirmation recreates the rule
    from the question text. */
module Review {
  import opened Wrappers
  import opened Text
  import opened Seqs
  import opened Questions
  import opened Certainty

  // ---------------------------------------------------------------------
  // Listing the history

  /** `isDetailedAnswer`: anything but a plain yes or no (a skip included). */
  predicate IsDetailedAnswer(answer: string) {
    answer != "yes" && answer != "no"
  }

  /** The filter buttons of the list. */
  datatype AnswerFilter = AllAnswers | YesAnswers | NoAnswers | DetailedAnswers

  predicate IsYes(a: Answer) { a.answer == "yes" }
  predicate IsNo(a: Answer) { a.answer == "no" }
  predicate IsDetailed(a: Answer) { IsDetailedAnswer(a.answer) }

  /** Whether an answer is listed under filter `f`. */
  predicate Shows(f: AnswerFilter, a: Answer) {
    match f
    case AllAnswers => true
    case YesAnswers => IsYes(a)
    case NoAnswers => IsNo(a)
    case DetailedAnswers => IsDetailed(a)
  }

  /** `filteredAnswers`: the answers listed under `f`, in history order. */
  function FilteredAnswers(answers: seq<Answer>, f: AnswerFilter): (r: seq<Answer>)
    ensures |r| <= |answers|
    ensures forall a :: a in r <==> a in answers && Shows(f, a)
    ensures forall a :: multiset(r)[a] == if Shows(f, a) then multiset(answers)[a] else 0
  {
    var r := Filter(answers, a => Shows(f, a));
    forall a ensures a in r <==> a in answers && Shows(f, a) {
      FilterIn(answers, x => Shows(f, x), a);
    }
    forall a ensures multiset(r)[a] == if Shows(f, a) then multiset(answers)[a] else 0 {
      FilterMultiset(answers, x => Shows(f, x), a);
    }
    r
  }

  /** The listing keeps history order: filtering an older stretch followed by
      a newer one lists the older stretch's answers first. */
  lemma FilteredAnswersAppend(older: seq<Answer>, newer: seq<Answer>, f: AnswerFilter)
    ensures FilteredAnswers(older + newer, f) == FilteredAnswers(older, f) + FilteredAnswers(newer, f)
  {
    FilterAppend(older, newer, a => Shows(f, a));
  }

  /** The unfiltered list is the whole history. */
  lemma ShowAll(answers: seq<Answer>)
    ensures FilteredAnswers(answers, AllAnswers) == answers
  {
    FilterAll(answers, a => Shows(AllAnswers, a));
  }

  /** The yes, no and detailed lists split the history: every answer is
      listed under exactly one of them. */
  lemma {:induction false} FilterPartition(answers: seq<Answer>)
    ensures |FilteredAnswers(answers, YesAnswers)| + |FilteredAnswers(answers, NoAnswers)|
            + |FilteredAnswers(answers, DetailedAnswers)| == |answers|
  {
    if answers != [] {
      FilterPartition(answers[1..]);
    }
  }

  // ---------------------------------------------------------------------
  // Editing one answer

  /** The choice of the edit form. */
  datatype EditValue = EditYes | EditNo | EditOther

  /** The edit form: the choice, and the text of an 'other' answer. */
  datatype Edit = Edit(value: EditValue, text: string)

  /** `startEdit`: the form opened on an answer. */
  function StartEdit(a: Answer): (e: Edit)
    ensures e.value == EditOther <==> IsDetailedAnswer(a.answer)
    ensures e.value == EditOther ==> e.text == a.answer
    ensures e.value != EditOther ==> e.text == ""
  {
    if a.answer == "yes" then Edit(EditYes, "")
    else if a.answer == "no" then Edit(EditNo, "")
    else Edit(EditOther, a.answer)
  }

  /** The answer a save writes: the trimmed text for 'other', refused
      (`None`) when that text is blank. */
  function NewAnswer(e: Edit): (r: Option<string>)
    ensures r.None? <==> e.value == EditOther && AllSpace(e.text)
    ensures r.Some? ==> r.value != ""
    ensures e.value == EditYes ==> r == Some("yes")
    ensures e.value == EditNo ==> r == Some("no")
  {
    match e.value
    case EditYes => Some("yes")
    case EditNo => Some("no")
    case EditOther => if Trim(e.text) == "" then None else Some(Trim(e.text))
  }

  /** An answer as the tagging page records it (yes, no, or a non-empty
      trimmed text) survives opening the form and saving it unchanged. */
  lemma StartEditRoundTrip(a: Answer)
    requires IsDetailedAnswer(a.answer) ==> a.answer != "" && Trim(a.answer) == a.answer
    ensures NewAnswer(StartEdit(a)) == Some(a.answer)
  {
  }

  /** The history with every entry of question `id` given `answer`. */
  function UpdatedAnswers(answers: seq<Answer>, id: string, answer: string): (r: seq<Answer>)
    ensures |r| == |answers|
    ensures forall k :: 0 <= k < |r| ==>
              && r[k].questionId == answers[k].questionId
              && r[k].questionText == answers[k].questionText
              && (answers[k].questionId == id ==> r[k].answer == answer)
              && (answers[k].questionId != id ==> r[k] == answers[k])
  {
    seq(|answers|, k requires 0 <= k < |answers| =>
      if answers[k].questionId == id then answers[k].(answer := answer) else answers[k])
  }

  // ---------------------------------------------------------------------
  // The question id and text

  /** The tag type and vendor read back from a question id: the second
      hyphen-separated piece (missing when the id has no hyphen) and the
      rest joined again with hyphens. */
  function IdTagType(id: string): (r: Option<string>)
    ensures r.Some? ==> '-' !in r.value
  {
    var parts := Split(id, '-');
    if |parts| > 1 then Some(parts[1]) else None
  }

  function IdVendor(id: string): string {
    var parts := Split(id, '-');
    if |parts| > 2 then Join(parts[2..], '-') else ""
  }

  /** A question id names its tag type and vendor again, whatever hyphens
      the vendor holds, as long as the tag type has none. */
  lemma IdRoundTrip(tag: string, vendor: string)
    requires '-' !in tag
    ensures IdTagType(QuestionId(tag, vendor)) == Some(tag)
    ensures IdVendor(QuestionId(tag, vendor)) == vendor
  {
    var id := QuestionId(tag, vendor);
    assert id == "vendor" + ['-'] + (tag + ['-'] + vendor);
    SplitAfter("vendor", '-', tag + ['-'] + vendor);
    SplitAfter(tag, '-', vendor);
    assert Split(id, '-') == ["vendor", tag] + Split(vendor, '-');
    assert Split(id, '-')[2..] == Split(vendor, '-');
    JoinSplit(vendor, '-');
  }

  /** The pattern `/be "([^"]+)"\?/` starts with `be "` at position `i`. */
  predicate LeadAt(text: string, i: nat) {
    && i + 4 <= |text|
    && text[i] == 'b' && text[i + 1] == 'e' && text[i + 2] == ' ' && text[i + 3] == '"'
  }

  /** The match of the pattern starting at position `i`: `be "`, then the
      whole run of non-quote characters up to the next quote (at least
      one), then `"?`. Backtracking cannot shorten the run, since the
      character after it must be a quote. */
  function MatchAt(text: string, i: nat): (r: Option<string>)
    ensures r.Some? ==> r.value != [] && '"' !in r.value
  {
    if LeadAt(text, i) then
      var rest := text[i + 4..];
      var n := IndexOf(rest, '"');
      if n >= 1 && n + 1 < |rest| && rest[n + 1] == '?' then Some(rest[..n]) else None
    else None
  }

  /** The leftmost match at or after position `i`. */
  function MatchFrom(text: string, i: nat): (r: Option<string>)
    ensures r.Some? ==> r.value != [] && '"' !in r.value
    decreases |text| - i
  {
    if i >= |text| then None
    else if MatchAt(text, i).Some? then MatchAt(text, i)
    else MatchFrom(text, i + 1)
  }

  /** `questionText.match(/be "([^"]+)"\?/)?.[1]`: the suggested value
      quoted in a question. */
  function SuggestedValue(text: string): Option<string> {
    MatchFrom(text, 0)
  }

  /** Positions without a match are passed over. */
  lemma {:induction false} MatchSkip(text: string, i: nat, m: nat)
    requires i <= m <= |text|
    requires forall j :: i <= j < m ==> MatchAt(text, j).None?
    ensures MatchFrom(text, i) == MatchFrom(text, m)
    decreases m - i
  {
    if i < m {
      MatchSkip(text, i + 1, m);
    }
  }

  /** `IndexOf` finds the first occurrence. */
  lemma {:induction false} IndexOfFirst(s: string, c: char, k: nat)
    requires k < |s| && s[k] == c
    requires forall m :: 0 <= m < k ==> s[m] != c
    ensures IndexOf(s, c) == k
  {
    if k > 0 {
      IndexOfFirst(s[1..], c, k - 1);
    }
  }

  /** The text of a question before the vendor, and between the vendor and
      the value. */
  const Head: string := "Should all \""
  const Mid: string := "\" products be \""

  /** The characters of the two fixed pieces that matter to the pattern. */
  lemma PieceChars()
    ensures |Head| == 12 && |Mid| == 15
    ensures forall k :: 0 <= k < 11 ==> Head[k] != '"'
    ensures Head[8] == 'l' && Head[11] == '"'
    ensures Mid[0] == '"' && Mid[14] == '"'
    ensures forall k :: 1 <= k < 14 ==> Mid[k] != '"'
    ensures Mid[11] == 'b' && Mid[12] == 'e' && Mid[13] == ' '
  {
  }

  /** The characters of a question's text, piece by piece. */
  lemma QuestionChars(vendor: string, value: string)
    ensures var t := QuestionText(vendor, value);
            var n := |vendor|;
            && |t| == 29 + n + |value|
            && (forall k :: 0 <= k < 12 ==> t[k] == Head[k])
            && (forall k :: 12 <= k < 12 + n ==> t[k] == vendor[k - 12])
            && (forall k :: 12 + n <= k < 27 + n ==> t[k] == Mid[k - 12 - n])
            && (forall k :: 27 + n <= k < 27 + n + |value| ==> t[k] == value[k - 27 - n])
            && t[27 + n + |value|] == '"' && t[28 + n + |value|] == '?'
  {
    assert QuestionText(vendor, value) == Head + vendor + Mid + value + "\"?";
  }

  /** A vendor ending in `be ` puts `be "` just before ` products be "`;
      the run up to the next quote is then ` products be `, so that match
      holds only when the value starts with `?`. */
  lemma VendorEndMatch(vendor: string, value: string)
    requires value != [] && value[0] != '?'
    requires |vendor| >= 3
    ensures MatchAt(QuestionText(vendor, value), 9 + |vendor|).None?
  {
    var t := QuestionText(vendor, value);
    var n := |vendor|;
    QuestionChars(vendor, value);
    PieceChars();
    var rest := t[13 + n..];
    assert rest[13] == t[26 + n] == Mid[14];
    forall m | 0 <= m < 13
      ensures rest[m] != '"'
    {
      assert rest[m] == t[13 + n + m] == Mid[1 + m];
    }
    IndexOfFirst(rest, '"', 13);
    assert rest[14] == t[27 + n] == value[0];
  }

  /** No match starts before ` products be "`. */
  lemma NoEarlyMatch(vendor: string, value: string, j: nat)
    requires '"' !in vendor && value != []
    requires EndsWith(vendor, "be ") ==> value[0] != '?'
    requires j < 23 + |vendor|
    ensures MatchAt(QuestionText(vendor, value), j).None?
  {
    var t := QuestionText(vendor, value);
    var n := |vendor|;
    QuestionChars(vendor, value);
    PieceChars();
    if j + 3 < 11 {
      assert t[j + 3] == Head[j + 3];
    } else if j + 3 == 11 {
      assert t[8] == Head[8];
    } else if j + 3 < 12 + n {
      assert t[j + 3] == vendor[j - 9];
    } else if j + 3 == 12 + n {
      if n >= 3 {
        if vendor[n - 3] == 'b' && vendor[n - 2] == 'e' && vendor[n - 1] == ' ' {
          assert vendor[n - 3..] == "be ";
          VendorEndMatch(vendor, value);
        } else {
          assert t[j] == vendor[n - 3] && t[j + 1] == vendor[n - 2] && t[j + 2] == vendor[n - 1];
        }
      } else {
        assert t[11] == Head[11];
      }
    } else {
      assert t[j + 3] == Mid[j - 9 - n];
    }
  }

  /** The search for the leftmost match reaches ` products be "`. */
  lemma NoMatchBefore(vendor: string, value: string)
    requires '"' !in vendor && value != []
    requires EndsWith(vendor, "be ") ==> value[0] != '?'
    ensures SuggestedValue(QuestionText(vendor, value)) == MatchFrom(QuestionText(vendor, value), 23 + |vendor|)
  {
    var t := QuestionText(vendor, value);
    forall j | 0 <= j < 23 + |vendor|
      ensures MatchAt(t, j).None?
    {
      NoEarlyMatch(vendor, value, j);
    }
    MatchSkip(t, 0, 23 + |vendor|);
  }

  /** The suggested value of a question built by the tagging page is the
      value it proposes, provided neither the vendor nor the value holds a
      quote, and the value is not empty; the one exception is a vendor
      ending in `be ` whose value starts with `?`. */
  lemma SuggestedValueOf(vendor: string, value: string)
    requires '"' !in vendor && '"' !in value && value != []
    requires EndsWith(vendor, "be ") ==> value[0] != '?'
    ensures SuggestedValue(QuestionText(vendor, value)) == Some(value)
  {
    var t := QuestionText(vendor, value);
    NoMatchBefore(vendor, value);
    ValueMatch(vendor, value);
    assert MatchFrom(t, 23 + |vendor|) == MatchAt(t, 23 + |vendor|);
  }

  /** The match at ` products be "` captures the value. */
  lemma ValueMatch(vendor: string, value: string)
    requires '"' !in value && value != []
    ensures MatchAt(QuestionText(vendor, value), 23 + |vendor|) == Some(value)
  {
    var t := QuestionText(vendor, value);
    var n := |vendor|;
    ValueLead(vendor, value);
    assert t[27 + n..] == value + "\"?" by {
      assert t == (Head + vendor + Mid) + (value + "\"?");
    }
    var rest := value + "\"?";
    IndexOfFirst(rest, '"', |value|);
    assert rest[..|value|] == value;
  }

  /** `be "` starts four characters before the value. */
  lemma ValueLead(vendor: string, value: string)
    ensures LeadAt(QuestionText(vendor, value), 23 + |vendor|)
  {
    var t := QuestionText(vendor, value);
    var n := |vendor|;
    assert t[..27 + n] == Head + vendor + Mid by {
      assert t == (Head + vendor + Mid) + (value + "\"?");
    }
    assert t[..27 + n][23 + n..] == Mid[11..];
    assert Mid[11..] == "be \"";
  }

  // ---------------------------------------------------------------------
  // Saving an edit

  /** What `saveEdit` sends: the new history and the new rules. */
  datatype Saved = Saved(answers: seq<Answer>, rules: seq<Rule>)

  /** The confidence of a rule recreated by an edit. */
  const RecreatedPct: int := 85

  /** Whether a rule is one of `vendor`'s rules for `tagType` (none is when
      the tag type is missing). */
  predicate RuleOf(r: Rule, vendor: string, tagType: Option<string>) {
    r.vendor == vendor && tagType == Some(r.tagType)
  }

  /** The rules after the edit: taking back a 'yes' drops the vendor's
      rules for the tag type; giving a new 'yes' appends the rule the
      question proposed, when its text quotes a value. */
  function RulesAfter(rules: seq<Rule>, old_: Answer, newAnswer: string): seq<Rule> {
    var wasYes := old_.answer == "yes";
    var isNowYes := newAnswer == "yes";
    var tagType := IdTagType(old_.questionId);
    var vendor := IdVendor(old_.questionId);
    if wasYes && !isNowYes then
      Filter(rules, r => !RuleOf(r, vendor, tagType))
    else if !wasYes && isNowYes then
      match (SuggestedValue(old_.questionText), tagType)
      case (Some(value), Some(t)) =>
        rules + [Rule("vendor-" + t, vendor, t, value, RecreatedPct, "User confirmed (edited)")]
      case _ => rules
    else rules
  }

  /** `saveEdit`: nothing when no answer is being edited or the 'other'
      text is blank; otherwise the rewritten history and rules. */
  function SaveEdit(answers: seq<Answer>, rules: seq<Rule>, editing: Option<Answer>, e: Edit): (r: Option<Saved>)
    ensures r.None? <==> editing.None? || (e.value == EditOther && AllSpace(e.text))
  {
    match editing
    case None => None
    case Some(a) =>
      match NewAnswer(e)
      case None => None
      case Some(newAnswer) =>
        Some(Saved(UpdatedAnswers(answers, a.questionId, newAnswer), RulesAfter(rules, a, newAnswer)))
  }

  /** A saved edit changes only the answers of the edited question, and
      only their answer field. */
  lemma SaveEditAnswers(answers: seq<Answer>, rules: seq<Rule>, a: Answer, e: Edit)
    requires SaveEdit(answers, rules, Some(a), e).Some?
    ensures var s := SaveEdit(answers, rules, Some(a), e).value;
            && |s.answers| == |answers|
            && forall k :: 0 <= k < |answers| ==>
                 && s.answers[k].questionId == answers[k].questionId
                 && s.answers[k].questionText == answers[k].questionText
                 && (answers[k].questionId == a.questionId ==> s.answers[k].answer == NewAnswer(e).value)
                 && (answers[k].questionId != a.questionId ==> s.answers[k] == answers[k])
  {
  }

  /** Taking back a 'yes' removes exactly the vendor's rules for the tag
      type, keeping the others in order. */
  lemma SaveEditRetracts(answers: seq<Answer>, rules: seq<Rule>, a: Answer, e: Edit)
    requires a.answer == "yes"
    requires SaveEdit(answers, rules, Some(a), e).Some?
    requires NewAnswer(e) != Some("yes")
    ensures var s := SaveEdit(answers, rules, Some(a), e).value;
            var vendor := IdVendor(a.questionId);
            var tagType := IdTagType(a.questionId);
            && s.rules == Filter(rules, r => !RuleOf(r, vendor, tagType))
            && forall r :: r in s.rules <==> r in rules && !RuleOf(r, vendor, tagType)
  {
    var vendor := IdVendor(a.questionId);
    var tagType := IdTagType(a.questionId);
    forall r ensures r in Filter(rules, x => !RuleOf(x, vendor, tagType)) <==> r in rules && !RuleOf(r, vendor, tagType) {
      FilterIn(rules, x => !RuleOf(x, vendor, tagType), r);
    }
  }

  /** A new 'yes' appends one rule at the recreated confidence when the
      question quotes a value and the id names a tag type, and leaves the
      rules alone otherwise. */
  lemma SaveEditConfirms(answers: seq<Answer>, rules: seq<Rule>, a: Answer, e: Edit)
    requires a.answer != "yes"
    requires SaveEdit(answers, rules, Some(a), e).Some?
    requires NewAnswer(e) == Some("yes")
    ensures var s := SaveEdit(answers, rules, Some(a), e).value;
            var tagType := IdTagType(a.questionId);
            var value := SuggestedValue(a.questionText);
            if value.Some? && tagType.Some? then
              && |s.rules| == |rules| + 1
              && s.rules[..|rules|] == rules
              && s.rules[|rules|] == Rule("vendor-" + tagType.value, IdVendor(a.questionId), tagType.value,
                                          value.value, 85, "User confirmed (edited)")
            else s.rules == rules
  {
    var s := SaveEdit(answers, rules, Some(a), e).value;
    var tagType := IdTagType(a.questionId);
    var value := SuggestedValue(a.questionText);
    if value.Some? && tagType.Some? {
      assert s.rules == rules + [s.rules[|rules|]];
    }
  }

  /** An edit that keeps the answer on the same side of 'yes' leaves the
      rules as they were. */
  lemma SaveEditKeepsRules(answers: seq<Answer>, rules: seq<Rule>, a: Answer, e: Edit)
    requires SaveEdit(answers, rules, Some(a), e).Some?
    requires (a.answer == "yes") == (NewAnswer(e) == Some("yes"))
    ensures SaveEdit(answers, rules, Some(a), e).value.rules == rules
  {
  }

  /** Saving the form as it was opened changes nothing, when the history
      holds the edited answer as it is. */
  lemma SaveUnchanged(answers: seq<Answer>, rules: seq<Rule>, a: Answer)
    requires IsDetailedAnswer(a.answer) ==> a.answer != "" && Trim(a.answer) == a.answer
    requires forall k :: 0 <= k < |answers| && answers[k].questionId == a.questionId ==> answers[k].answer == a.answer
    ensures SaveEdit(answers, rules, Some(a), StartEdit(a)) == Some(Saved(answers, rules))
  {
    StartEditRoundTrip(a);
    var s := SaveEdit(answers, rules, Some(a), StartEdit(a)).value;
    assert s.answers == answers;
  }

  /** Editing the answer to a question of the tagging page: taking back a
      'yes' drops every rule of that vendor and tag type and no other;
      turning an answer into 'yes' recreates the rule the question
      proposed, for that vendor, tag type and value. */
  lemma EditQuestionAnswer(answers: seq<Answer>, rules: seq<Rule>, tag: string, vendor: string, value: string, answer: string, e: Edit)
    requires '-' !in tag
    requires '"' !in vendor && '"' !in value && value != []
    requires EndsWith(vendor, "be ") ==> value[0] != '?'
    requires NewAnswer(e).Some?
    ensures var a := Answer(QuestionId(tag, vendor), QuestionText(vendor, value), answer);
            var s := SaveEdit(answers, rules, Some(a), e).value;
            && (answer == "yes" && NewAnswer(e) != Some("yes") ==>
                  forall r :: r in s.rules <==> r in rules && !(r.vendor == vendor && r.tagType == tag))
            && (answer != "yes" && NewAnswer(e) == Some("yes") ==>
                  s.rules == rules + [Rule("vendor-" + tag, vendor, tag, value, 85, "User confirmed (edited)")])
  {
    var a := Answer(QuestionId(tag, vendor), QuestionText(vendor, value), answer);
    IdRoundTrip(tag, vendor);
    SuggestedValueOf(vendor, value);
    if answer == "yes" && NewAnswer(e) != Some("yes") {
      SaveEditRetracts(answers, rules, a, e);
    }
  }
}
