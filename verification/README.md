# Vinyl catalog tagger — Dafny model

This project models the decision logic of a Shopify bulk-tagging tool for a
record shop. The tool is a Next.js application. Its catalog is a set of
Shopify product-export CSV files, and the tool fills in the missing genre and
decade tags one vendor at a time.

- **Tagging page** (`src/app/page.tsx`):
  - reads the CSV export, de-duplicating products by handle;
  - groups the products by vendor;
  - seeds a certainty table from the existing tags and overlays the certainties of a saved session;
  - asks one yes/no question per vendor and tag kind when most of the vendor's tagged products agree;
  - turns a "yes" into a vendor rule, which raises certainty on all of the vendor's products;
  - pauses at a checkpoint every ten answers;
  - groups the pending questions into "meta" questions that answer several vendors at once;
  - reports certainty statistics.
- **Audit page** (`src/app/audit/page.tsx`):
  - parses each product's tag string into genre, subgenre and decade, with notes about non-standard spellings;
  - counts coverage;
  - filters the product list.
- **Review page** (`src/app/review/page.tsx`):
  - filters the answer history;
  - edits one answer. Turning a "yes" into anything else retracts the vendor's rule. Turning anything else into "yes" re-creates the rule at 85%.
- **Discogs analysis** (`PUT` of `src/app/api/discogs/route.ts`):
  - samples up to five products of a vendor;
  - tallies the genres, styles and decades of their Discogs releases;
  - computes the confidence for a suggested genre and decade.

## Module layout

| Module | File | Role |
|---|---|---|
| `Wrappers` | wrappers.dfy | `Option` and `Result`. |
| `Numbers` | numbers.dfy | `Math.round(100 * a / b)` and `Math.min` on integers. |
| `Seqs` | seqs.dfy | `filter`, `map`, counting, a stable sort (specification of `Array.prototype.sort`), and keep-first de-duplication by key. |
| `Text` | text.dfy | `trim`, `split`, `join`, `indexOf`, `includes`, `toLowerCase`/`toUpperCase` on ASCII, and digit strings. |
| `Records` | records.dfy | Insertion-ordered JavaScript objects used as dictionaries (`Dict`), with `x[k] = (x[k] \|\| 0) + 1` and "first of a stable sort by count". |
| `Csv` | csv.dfy | The quote-aware `parseCSVLine` shared by both pages. |
| `Catalog` | catalog.dfy | Product-export upload with the tag regular expressions of the tagging page. |
| `Vendors` | vendors.dfy | Aggregation of products into per-vendor data. |
| `Certainty` | certainty.dfy | The certainty table (a class), seeding, saved overrides and rule application. |
| `Questions` | questions.dfy | `generateQuestions`. |
| `Meta` | meta.dfy | `getMetaQuestions` and the answers and rules of a meta question. |
| `Stats` | stats.dfy | `getStats` and `getDetailedStats`. |
| `Page` | page.dfy | The tagging page's state (class `TagQuest`) and its event handlers. |
| `Audit` | audit.dfy | The audit page. |
| `Review` | review.dfy | The review page. |
| `Discogs` | discogs.dfy | The analysis of the Discogs route. |

JavaScript objects whose key order matters are `Dict` values: a sequence of keys in insertion order plus a map. `Object.entries(...).sort((a, b) => b[1] - a[1])[0]` is therefore the entry with the largest count, the earliest-inserted one among ties (`Records.TopOf`). Loops that the source writes as loops are methods proved against the function that specifies them. Each function's properties are lemmas.

## Model

| member | source | states |
|---|---|---|
| Numbers.RoundDiv | src/app/page.tsx:189 | The result is the integer nearest to a/b, with halves rounded up. |
| Numbers.Percent | src/app/page.tsx:189 | `Math.round(100 * part / whole)` is at most 100 when the part does not exceed the whole. |
| Numbers.PercentAtLeast | src/app/page.tsx:189-190 | The rounded percentage reaches p exactly when 200·part + whole ≥ 2·p·whole. This is the integer form of the 50% threshold. |
| Numbers.PercentMono | src/app/page.tsx:189 | A larger count never gives a smaller rounded percentage. |
| Numbers.Min | src/app/page.tsx:840 | `Math.min` is at most both arguments and equals one of them. |
| Records.Increment | src/app/page.tsx:333-334 | `counts[k] = (counts[k] \|\| 0) + 1`: k's count grows by one, from 0 when absent. Every other count is unchanged, and a well-formed dictionary stays well formed. |
| Records.Put | src/app/page.tsx:327-330 | Assigning a key keeps the insertion order and appends new keys at the end. |
| Records.SumIncrement | src/app/page.tsx:333-334 | Every increment raises the sum of the counts by exactly one. |
| Records.TopOf | src/app/page.tsx:186-188 | The first entry after a stable descending sort by count has the maximal count and precedes every other key with the same count. |
| Records.Top | src/app/page.tsx:186-188 | The top key of a non-empty dictionary is one of its keys and carries the maximal count. |
| Records.ValueAtMostSum | src/app/page.tsx:186-189 | No single count exceeds the sum of all counts. |
| Seqs.Sort | src/app/page.tsx:234-237 | The sort returns a permutation of its input, sorted by descending key. |
| Seqs.SortStable | src/app/page.tsx:234-237 | The sort is stable: for each key value, the elements with that key keep their input order. |
| Seqs.KeepFirstProperties | src/app/page.tsx:367-389 | Skipping empty and already-seen handles keeps exactly the first row of every non-empty handle. The kept handles are pairwise distinct. |
| Text.TrimIdempotent | src/app/audit/page.tsx:77 | Trimming twice equals trimming once. |
| Text.JoinSplit | src/app/review/page.tsx:134-136 | Splitting on '-' and joining on '-' gives the original string back. |
| Text.ParseNatToString | src/app/api/discogs/route.ts:264 | `parseInt` of a decimal rendering returns the number. |
| Csv.ParseCsvLine | src/app/page.tsx:444-459 | The character loop produces exactly the specification `Fields`: split at unquoted commas, drop the quotes, trim each field. |
| Csv.FieldCount | src/app/page.tsx:444-459 | The number of fields is one more than the number of commas outside quotes. |
| Csv.BlankFields | src/app/audit/page.tsx:120-138 | A line made only of white space parses as one empty field. |
| Csv.NoQuoteInFields | src/app/page.tsx:449-451 | Quote characters never appear in a field. |
| Csv.JoinRawFields | src/app/page.tsx:444-459 | Joining the untrimmed fields with commas gives back the line minus its quote characters. |
| Csv.RawFieldsUnquoted | src/app/page.tsx:444-459 | On a line without quotes, the parser is `split(',')`. |
| Csv.QuotedRoundTrip | src/app/page.tsx:444-459 | Quoting every field and joining with commas parses back to the same fields. |
| Csv.QuotedFields | src/app/page.tsx:444-459 | The same round trip through the trimming parser returns the trimmed fields. |
| Catalog.FindColumn | src/app/page.tsx:377-383 | `headers.indexOf(name)`: the first index holding the name, or -1 exactly when the name is absent. |
| Catalog.NoHandleColumn | src/app/page.tsx:378-389 | A file whose header row has no `Handle` column adds no product and marks no handle as seen, because `values[-1]` is undefined for every row. |
| Catalog.CaptureFrom | src/app/page.tsx:392-393 | The regular-expression search returns the first position where a label capture matches, and no position before it matches. |
| Catalog.DecadeFrom | src/app/page.tsx:394 | The first position where a `\b\d{2,4}[cC]\b` match starts, and none before it. |
| Catalog.DecadeAt | src/app/page.tsx:394 | A decade match is 3–5 characters long and ends in 'c' or 'C'. |
| Catalog.GenreTagRoundTrip | src/app/page.tsx:392-400 | A `Genre Parent:` tag in any letter case, followed by spaces and a comma-free value, uploads as exactly that value. |
| Catalog.GenreCapture | src/app/page.tsx:392 | The capture of `Genre Parent:\s*([^,]+)` is the value up to the next comma. |
| Catalog.BlankGenreCapture | src/app/page.tsx:392-400 | A genre label followed only by spaces captures the spaces, so the existing genre becomes "" (falsy). |
| Catalog.DecadeTagRoundTrip | src/app/page.tsx:394-402 | A standalone 2–4-digit decade ending in 'c' or 'C' uploads as the digits followed by 'C'. |
| Catalog.ReadCatalogFile | src/app/page.tsx:367-404 | The row loop appends the first occurrence of each new non-empty handle and extends the seen set with those handles. |
| Catalog.ReadCatalogFiles | src/app/page.tsx:363-405 | The upload of several files keeps exactly the first row of every handle across all files. |
| Vendors.Counts | src/app/page.tsx:332-338 | A tag-count dictionary is well formed: distinct keys, each with a count. |
| Vendors.CountsSum | src/app/page.tsx:332-338 | The counts add up to the number of products with a truthy tag. |
| Vendors.CountsEntry | src/app/page.tsx:332-338 | A tag is a key exactly when some product carries it, and its count is the number of such products. |
| Vendors.VendorOrderFacts | src/app/page.tsx:326-330 | Vendors appear once each, in first-seen order, and are exactly the vendors of the products. |
| Vendors.Aggregate | src/app/page.tsx:326-339 | The aggregation loop produces the specification `Aggregated`. |
| Vendors.AggregatedSnoc | src/app/page.tsx:326-339 | One more product creates its vendor's entry if missing and adds the product to it. |
| Vendors.AggregatedGroups | src/app/page.tsx:326-339 | A vendor's entry holds exactly its products, in catalog order, and is never empty. Its genre and decade counts add up to its tagged products. |
| Certainty.KindOf | src/app/page.tsx:548 | `rule.tagType` names the genre, subgenre or decade field exactly when it is that word. |
| Certainty.SetField | src/app/page.tsx:553-557 | Writing one field leaves the other two fields unchanged. |
| Certainty.Applied | src/app/page.tsx:547-559 | After a rule, the table has an entry for every old handle and every handle of the vendor's products. |
| Certainty.AppliedCovers | src/app/page.tsx:547-559 | Each of the vendor's products ends with the rule's field set, at the rule's percentage or higher. |
| Certainty.AppliedFrame | src/app/page.tsx:547-559 | Products of other vendors, and the other fields of the vendor's products, are unchanged. |
| Certainty.AppliedIdempotent | src/app/page.tsx:547-559 | Applying the same rule twice equals applying it once. |
| Certainty.AppliedMonotone | src/app/page.tsx:549 | A field with a non-empty value never loses certainty. An entry at least as certain as the rule is kept as is. |
| Certainty.UpgradeSettles | src/app/page.tsx:550-557 | Writing the rule's entry into a record a second time changes nothing. |
| Certainty.ExistingSurvives | src/app/page.tsx:549 | A catalog tag at 100% is never overwritten by a rule of at most 95%. |
| Certainty.ExistingSurvivesRules | src/app/page.tsx:687-689 | The same holds across any sequence of such rules. |
| Certainty.SeedEntry | src/app/page.tsx:341-350 | The seeded record has a field at 100% with source "existing" exactly for each truthy catalog tag. |
| Certainty.SeededEntries | src/app/page.tsx:341-350 | With distinct handles, each product's seeded record is its own `SeedEntry`. |
| Certainty.SeededKeys | src/app/page.tsx:341-350 | Seeding creates an entry for exactly the catalog's handles. |
| Certainty.WithSavedKeys | src/app/page.tsx:671-680 | After the saved certainties, the table holds the old handles plus the saved handles. |
| Certainty.UnsavedFieldKept | src/app/page.tsx:671-680 | A field that no saved certainty targets keeps its value. |
| Certainty.LastSavedWins | src/app/page.tsx:671-680 | When a handle's field is saved several times, the last saved value is the one kept. |
| Certainty.CertaintyTable.constructor | src/app/page.tsx:86 | A new table is empty. |
| Certainty.CertaintyTable.ApplyRule | src/app/page.tsx:539-560 | A rule for an unknown vendor changes nothing. Otherwise the table becomes `Applied` over the vendor's handles. |
| Certainty.CertaintyTable.ApplyRules | src/app/page.tsx:687-689 | Applying the rules in order gives the specification `AfterRules`. |
| Certainty.CertaintyTable.Seed | src/app/page.tsx:341-350 | The table becomes the seeded table of the catalog. |
| Certainty.CertaintyTable.ApplySaved | src/app/page.tsx:671-680 | The table becomes the old table overlaid with the saved certainties. |
| Questions.GenerateQuestions | src/app/page.tsx:172-242 | The loop over vendors returns the specification `Pending`: the candidates that have not been answered, sorted by rank. |
| Questions.AskIff | src/app/page.tsx:181-205 | A vendor is asked about a tag kind exactly when some but not all of its products carry that tag, and some value reaches a rounded 50% of its products. |
| Questions.AskWhen | src/app/page.tsx:184-190 | With partial coverage, the question is asked exactly when the top value's rounded percentage is at least 50. |
| Questions.AskFields | src/app/page.tsx:186-202 | The question's fields: <ul><li>id `vendor-tag-Vendor`;</li><li>type `vendor-tag`;</li><li>the suggested value is the most frequent existing value, the first inserted among ties;</li><li>the affected count is the number of untagged products and is positive;</li><li>`existingPct` lies between 50 and 100.</li></ul> |
| Questions.CandidatesExactly | src/app/page.tsx:176-231 | The candidates are exactly the genre and decade questions of the vendors that are not excluded and have at least two products. |
| Questions.PendingExactly | src/app/page.tsx:239 | A question is pending exactly when it is a candidate and its id has not been answered. |
| Questions.PendingSorted | src/app/page.tsx:234-237 | Pending questions are ordered by descending rank. |
| Questions.PendingStable | src/app/page.tsx:234-239 | Among pending questions of equal rank, the candidate order is kept. |
| Questions.KindNamed | src/app/page.tsx:958 | `type.includes('genre')` separates "vendor-genre" from "vendor-decade". |
| Questions.TagFieldOf | src/app/page.tsx:871-880 | A question type selects the genre or decade field of a product. |
| Questions.AggregatedWellFormed | src/app/page.tsx:326-339 | Aggregated vendor data has well-formed tag-count dictionaries. |
| Questions.AffectedCount | src/app/page.tsx:871-880 | A question's affected count equals the number of products `getAffectedProducts` returns for it. |
| Meta.GroupsEntry | src/app/page.tsx:954-971 | A suggested value has a group exactly when a question of that kind suggests it. The group lists those questions' vendors in order, with their product total. |
| Meta.GroupsKey | src/app/page.tsx:958-961 | A group exists exactly when the questions filtered to its value are non-empty. |
| Meta.GroupsValue | src/app/page.tsx:962-963 | A group's vendors and total are those of its questions. |
| Meta.Listed | src/app/page.tsx:973-980 | Listing produces one meta question per group. |
| Meta.GroupQuestions | src/app/page.tsx:954-971 | The grouping loop produces the specification `Groups` for genres and for decades. |
| Meta.GetMetaQuestions | src/app/page.tsx:950-981 | The method returns the specification `MetaList` for both kinds. |
| Meta.MetaListExactly | src/app/page.tsx:950-981 | The list is sorted by descending vendor count. A meta question is listed exactly when its kind, value, vendor list and total match the questions that suggest that value. |
| Meta.OfferedIff | src/app/page.tsx:2041 | A meta question is offered exactly when it groups at least two questions. |
| Meta.MetaAnswers | src/app/page.tsx:1049-1053 | Answering a meta question records one answer per vendor, in vendor order, with that vendor's id and text. |
| Meta.MetaRulesFacts | src/app/page.tsx:1056-1077 | One rule per listed vendor that has data, in order. Each rule carries the meta value and tag kind, at a percentage between 10 and 95. |
| Meta.MetaRulePct | src/app/page.tsx:1060-1071 | A meta rule's percentage is min(95, the rounded share of the vendor's products already carrying the value, plus 10). |
| Stats.SummaryPartition | src/app/page.tsx:1095-1110 | High, medium and low add up to the number of products, and the high percentage is at most 100. |
| Stats.BreakdownPartition | src/app/page.tsx:1112-1142 | The five levels add up to the total, which is the number of products. |
| Stats.SummaryMatchesBreakdown | src/app/page.tsx:1098-1128 | The summary's high band is "certain" plus "high" of the detailed genre breakdown. Medium is medium, and low is "low" plus "none". |
| Stats.SummaryStep | src/app/page.tsx:1098-1105 | Each product increments exactly the band of its genre certainty. |
| Stats.BreakdownStep | src/app/page.tsx:1119-1139 | Each product increments the total and exactly the level of its certainty: 100, ≥80, ≥50, >0 or none. |
| Stats.CountBands | src/app/page.tsx:1095-1110 | The loop returns the specification `SummaryOf`. |
| Stats.CountLevels | src/app/page.tsx:1119-1139 | The loop returns the specification `BreakdownOf` for genre and for decade. |
| Page.TagQuest.constructor | src/app/page.tsx:84-91 | A fresh page has no products, rules, questions or history, and an empty certainty table. |
| Page.TagQuest.LoadCatalog | src/app/page.tsx:317-361 | An empty catalog changes nothing. Otherwise the products are the catalog, and certainty is the seeded table with the current rules applied. |
| Page.TagQuest.LoadSession | src/app/page.tsx:615-693 | The session's rules and answers are adopted. Certainty is seeded from the catalog, overlaid with the saved certainties, then raised by the rules. |
| Page.TagQuest.Sync | src/app/page.tsx:696-755 | As `LoadSession`, on the products already loaded. |
| Page.TagQuest.Regenerate | src/app/page.tsx:244-248 | The effect that re-runs `generateQuestions` after every change of the vendor table or the history: questions become `Pending(vendors, history)` and the index returns to 0. |
| Page.TagQuest.AnswerQuestion | src/app/page.tsx:816-863 | Without a current question, or with a blank detailed answer, nothing changes. Otherwise: <ul><li>the answer is appended;</li><li>a "yes" appends the rule and applies it;</li><li>the detailed answer is cleared;</li><li>every tenth answer sets the checkpoint instead of advancing.</li></ul> |
| Page.RuleForAsked | src/app/page.tsx:834-850 | The rule for a confirmed question targets its vendor and tag with the suggested value, at min(95, existing% + 10), which lies between 60 and 95. |
| Page.TagQuest.Respond | src/app/page.tsx:238-248 | An answer followed by the effect its history entry triggers. <ul><li>The history, rules, certainty and checkpoint change as in `AnswerQuestion`.</li><li>When the vendor table is not empty, the queue becomes the questions still pending and the index 0, overriding the handler's `index + 1`.</li><li>An answer that does nothing triggers nothing.</li></ul> |
| Page.TagQuest.ContinueAfterCheckpoint | src/app/page.tsx:865-869 | Clears the checkpoint and advances the index by one. |
| Page.TagQuest.MetaQuestions | src/app/page.tsx:950-981 | Returns the meta lists of the current questions. |
| Page.TagQuest.RespondMeta | src/app/page.tsx:238-248 | A meta answer followed by the effect. The history, rules and certainty change as in `AnswerMetaQuestion`. The handler always stores a new history array, so whenever the vendor table is non-empty the regenerated queue replaces the filtered one and the index becomes 0, even for a meta question with no vendors. |
| Page.TagQuest.AnswerMetaQuestion | src/app/page.tsx:1036-1093 | <ul><li>Appends the per-vendor answers.</li><li>On "yes", appends and applies one rule per vendor with data.</li><li>Removes the answered questions.</li></ul> |
| Page.AnswerMetaVendors | src/app/page.tsx:1045-1078 | The loop over the meta question's vendors returns its answers and rules, and applies those rules to the table. |
| Page.AnswerMetaVendor | src/app/page.tsx:1046-1077 | One vendor's answer. On "yes" for a vendor with data, also its rule, applied to the table. |
| Page.AggregatedConsistent | src/app/page.tsx:326-339 | Aggregated vendor data is well formed and has no empty vendor. |
| Page.TagQuest.Stats | src/app/page.tsx:1095-1110 | Returns `SummaryOf` the products and certainty. |
| Page.TagQuest.DetailedStats | src/app/page.tsx:1112-1142 | Returns the genre and decade breakdowns and the remaining and answered question counts. |
| Audit.TokensWellFormed | src/app/audit/page.tsx:75-78 | Every tag token is non-empty, trimmed and comma-free. |
| Audit.TokensOfJoin | src/app/audit/page.tsx:75-78 | Joining such tokens with commas tokenizes back to the same tokens. |
| Text.LowerIdempotent | src/app/audit/page.tsx:89-91 | Lower-casing twice equals lower-casing once, so comparisons of lower-cased names are stable. |
| Audit.FindGenreIn | src/app/audit/page.tsx:89-91 | A found genre is a valid genre equal to the value, ignoring case. |
| Audit.FindGenreNone | src/app/audit/page.tsx:89-91 | No genre is found exactly when no valid genre matches the value, ignoring case. |
| Audit.GenreCanonical | src/app/audit/page.tsx:86-97 | A recognised genre is stored in its canonical spelling without a note. An unrecognised one is stored as written, with a note. |
| Audit.StandardDecadeSpellings | src/app/audit/page.tsx:26 | A decade tag is standard exactly for the eleven spellings listed. |
| Audit.StepFields | src/app/audit/page.tsx:84-114 | One tag sets the genre, subgenre or decade it names and adds one note for each non-standard genre or decade. |
| Audit.ReadTag | src/app/audit/page.tsx:84-114 | The loop body produces the specification `Step`. |
| Audit.ParseTags | src/app/audit/page.tsx:67-117 | The parse loop produces the specification `TagsOf`. |
| Audit.LastMatchWins | src/app/audit/page.tsx:84-114 | The parsed genre, subgenre and decade each come from the last tag of that kind, or are null when there is none. |
| Audit.NotesCount | src/app/audit/page.tsx:96-111 | There is one note per non-standard genre tag plus one per non-standard decade tag. |
| Audit.FindHeader | src/app/audit/page.tsx:161-166 | `findIndex` on lower-cased headers: the first match, or -1 exactly when there is none. |
| Audit.AuditColumns | src/app/audit/page.tsx:161-171 | Columns are found only when both the handle and the tags headers exist, and then they are in range. |
| Audit.BlankRowHandle | src/app/audit/page.tsx:174-180 | A blank line yields an empty handle, so it is skipped. |
| Audit.BuildProduct | src/app/audit/page.tsx:182-198 | A row becomes the product `Audited` of its cells and parsed tags. |
| Audit.ReadRow | src/app/audit/page.tsx:176-198 | A row with an empty or already-seen handle is skipped. Otherwise the row's product is appended and its handle recorded. |
| Audit.ReadLines | src/app/audit/page.tsx:173-199 | The row loop keeps the first row of each new handle. |
| Audit.ReadAuditFile | src/app/audit/page.tsx:150-200 | A file appends the products of its first-seen handles and extends the seen set. |
| Audit.UploadAuditFiles | src/app/audit/page.tsx:140-205 | The upload returns the products of the first row of every handle across the files. |
| Audit.UploadHandles | src/app/audit/page.tsx:140-205 | Uploaded handles are non-empty and distinct, and every non-empty handle of any row is present. |
| Audit.CountCoverage | src/app/audit/page.tsx:208-233 | The counting loop produces the specification `StatsOf`. |
| Audit.CoverageBounds | src/app/audit/page.tsx:208-233 | Complete products are at most those with each tag. "Only missing X" is at most "missing X". |
| Audit.FilteredExactly | src/app/audit/page.tsx:236-267 | The filtered list is the products satisfying the selected filter and the search, each with its multiplicity, in order. |
| Audit.FilterSizes | src/app/audit/page.tsx:239-255 | With no search, each filter's size equals the matching coverage count. |
| Review.FilteredAnswers | src/app/review/page.tsx:77-88 | The filtered answers are the history entries the filter shows, each as often as in the history, and no others. |
| Review.FilteredAnswersAppend | src/app/review/page.tsx:77-88 | The listing keeps history order: filtering an older stretch followed by a newer one lists the older stretch's answers first. |
| Review.ShowAll | src/app/review/page.tsx:85-87 | The "all" filter shows every answer. |
| Review.FilterPartition | src/app/review/page.tsx:73-88 | Yes, no and detailed answers partition the history. |
| Review.StartEdit | src/app/review/page.tsx:90-102 | A detailed answer opens as "other" with its text. Yes and no open with an empty text. |
| Review.NewAnswer | src/app/review/page.tsx:113-114 | Saving is refused exactly for "other" with blank text. Otherwise it returns "yes", "no" or the trimmed text. |
| Review.StartEditRoundTrip | src/app/review/page.tsx:90-114 | Opening an answer and saving it unchanged yields the same answer. |
| Review.UpdatedAnswers | src/app/review/page.tsx:124-128 | Only the entries with the edited id change, and only in their answer. |
| Review.IdTagType | src/app/review/page.tsx:134-135 | The tag type read from an id contains no hyphen. |
| Review.IdRoundTrip | src/app/review/page.tsx:134-136 | An id built as `vendor-tag-Vendor` splits back into its tag and its vendor, even when the vendor contains hyphens. |
| Review.MatchFrom | src/app/review/page.tsx:145 | A match of `/be "([^"]+)"\?/` captures a non-empty, quote-free value. |
| Review.SuggestedValueOf | src/app/review/page.tsx:145 | Matching the regular expression on the generated question text returns the suggested value. |
| Review.SaveEdit | src/app/review/page.tsx:110-159 | Saving does nothing exactly when no answer is being edited or the new answer is blank. |
| Review.SaveEditAnswers | src/app/review/page.tsx:123-128 | After saving, exactly the edited question's answers hold the new answer. |
| Review.SaveEditRetracts | src/app/review/page.tsx:138-142 | Changing a "yes" away removes exactly the rules for that vendor and tag type. |
| Review.SaveEditConfirms | src/app/review/page.tsx:143-158 | Changing to "yes" appends one rule at 85% with the suggested value, when the text and id yield one. |
| Review.SaveEditKeepsRules | src/app/review/page.tsx:119-158 | When the yes-ness is unchanged, the rules are unchanged. |
| Review.SaveUnchanged | src/app/review/page.tsx:90-159 | Saving an unchanged edit leaves the answers and rules as they were. |
| Review.EditQuestionAnswer | src/app/review/page.tsx:133-157 | For a question generated by the tagging page, a retraction removes exactly that vendor's rules for the tag. A confirmation appends the rule for the question's own value. |
| Discogs.DecadeOf | src/app/api/discogs/route.ts:230-232 | The decade is a multiple of ten, and the year lies within it. |
| Discogs.Occurrences | src/app/api/discogs/route.ts:239-242 | The counts' keys are the values present, and each count is the value's multiplicity. |
| Discogs.FirstSeen | src/app/api/discogs/route.ts:218-229 | The keys appear once each, and are exactly the tokens seen. |
| Discogs.TallyCounts | src/app/api/discogs/route.ts:218-229 | The tally has its keys in first-seen order, with counts equal to their multiplicities. |
| Discogs.DecadeCountsAre | src/app/api/discogs/route.ts:239-242 | `decadeCounts` maps each decade present to its multiplicity. |
| Discogs.CountAll | src/app/api/discogs/route.ts:221-223 | Counting a list of names extends the tally by those names. |
| Discogs.CountOne | src/app/api/discogs/route.ts:218-220 | Counting the primary genre extends the tally by it when it is truthy. |
| Discogs.CountNames | src/app/api/discogs/route.ts:218-223 | Counting a result's primary name and name list extends the tally by both. |
| Discogs.CountResult | src/app/api/discogs/route.ts:217-233 | One result extends the genre tally, the style tally and the decade list. |
| Discogs.CountResults | src/app/api/discogs/route.ts:213-233 | The counting loop produces the tallies of all genre tokens and style tokens, and the decade list. |
| Discogs.CountDecades | src/app/api/discogs/route.ts:239-242 | The loop produces the decade counts. |
| Discogs.GenreCount | src/app/api/discogs/route.ts:218-223 | A genre's count is the number of results whose primary genre it is, plus its occurrences in the genre lists. |
| Discogs.DecadeCount | src/app/api/discogs/route.ts:230-232 | A decade's count is the number of results with a year in it. |
| Discogs.TopKey | src/app/api/discogs/route.ts:236-237 | There is no top genre exactly when nothing was counted. Otherwise the top genre has the maximal count. |
| Discogs.TopDecadeOf | src/app/api/discogs/route.ts:243 | The top decade has the maximal count, and is the smallest decade among ties. |
| Discogs.TopDecade | src/app/api/discogs/route.ts:239-243 | There is no top decade exactly when no result has a year. Otherwise it is one of the decades counted. |
| Discogs.TopDecadeIsMostFrequent | src/app/api/discogs/route.ts:239-243 | Every counted decade is less frequent than the top decade, or equally frequent and not smaller. |
| Discogs.SuggestedDecade | src/app/api/discogs/route.ts:263-269 | A suggested decade reads as nothing exactly when it has no digit. |
| Discogs.SuggestedDecadeDigits | src/app/api/discogs/route.ts:263-269 | Leading digits n followed by non-digits read as 1900 + n when n < 100, and as n otherwise. |
| Discogs.SuggestedDecadeExamples | src/app/api/discogs/route.ts:263-269 | "80C" reads as 1980 and "2000c" as 2000. |
| Discogs.DecadeLabelRoundTrip | src/app/api/discogs/route.ts:274 | The decade label is the decade's digits followed by 's', and its digits read back as the decade. |
| Discogs.AnalyzeVendor | src/app/api/discogs/route.ts:196-303 | The handler computes the specification `AnalysisOf` of its inputs. |
| Discogs.AnalysisSample | src/app/api/discogs/route.ts:198-203 | <ul><li>A 400 error exactly when the vendor or the product list is missing.</li><li>Otherwise the sample is the first min(5, n) products, each paired with its own result.</li></ul> |
| Discogs.GenreConfidence | src/app/api/discogs/route.ts:246-259 | <ul><li>`allGenres` is the tally of all genre tokens.</li><li>A recommendation exists exactly when a genre was suggested and any genre was seen; it is the most frequent genre.</li><li>Confidence is positive only when the suggestion agrees with it, and is then the rounded share of the sample.</li></ul> |
| Discogs.GenreAnalysisFacts | src/app/api/discogs/route.ts:246-259 | The same facts, stated for any well-formed genre tally. |
| Discogs.DecadeConfidence | src/app/api/discogs/route.ts:261-275 | <ul><li>Confidence is positive only when the suggested decade reads as the top decade, and is then the rounded share of the sample.</li><li>A suggestion without digits gives zero.</li><li>The recommendation is the top decade's label exactly when a decade was suggested and any year was seen.</li></ul> |
| Discogs.NoSuggestionNoData | src/app/api/discogs/route.ts:246-275 | Without a suggestion, or without data, both confidences are 0 and nothing is recommended. |
| Discogs.DoubleCountedGenre | src/app/api/discogs/route.ts:218-223 | A release whose primary genre also appears in its genre list is counted twice. With one such release, the genre confidence is 200. |

## Left out

- Network I/O and asynchrony are left out: `fetch` calls, the session API, the `/api/products` cache, `localStorage`, the password gate, React rendering, toasts, timers and progress bars. The page methods take the fetched data as parameters.
- Page.TagQuest.AnswerQuestion and Page.TagQuest.AnswerMetaQuestion state only the handlers' own writes. The page's effect then overwrites the queue and the index, because the history changed. `Page.TagQuest.Respond` and `Page.TagQuest.RespondMeta` compose each handler with that effect (`Page.TagQuest.Regenerate`). For the other operations, `Regenerate` runs only after a call that changed the vendor table or the history, and only when the table is non-empty. An empty catalog in `LoadCatalog` changes no state, so no effect follows it.
- Page.TagQuest.ContinueAfterCheckpoint: this follows the handler and advances the index by one. At a checkpoint the effect has already reset the index to 0 on the regenerated queue, so the page resumes at the second pending question. The first pending question is passed over until the next answer resets the index.
- The Discogs lookup is left out: `lookupRelease`, its cache, the request pacing (`sleep`), the `GET` and `POST` handlers, and the 500 answers for a missing token or a thrown exception. `AnalyzeVendor` receives the lookup results as a parameter.
- The Deezer, products and sessions routes and the database layer are not part of this model.
- `generateVerificationSample` is left out because it draws with `Math.random`. The CSV exports of missing genres are left out because they are only file output.
- `loadData` (src/app/page.tsx:462-537) is left out: it is never called, and its aggregation is the one `Vendors.Aggregate` models.
- JavaScript enumerates integer-like object keys before other keys. For vendor, genre and value names the model keeps plain insertion order; only the Discogs decade counts, whose keys are all numbers, use ascending order.
- Case folding covers ASCII letters only. `parseInt` is modelled on digit strings; its handling of signs, leading white space and numbers beyond double precision is not.
- `Math.round` of a float quotient is modelled as exact integer rounding of the rational value. Floating-point error in `100 * a / b` is not modelled.
- Review.SaveEdit: models the `editingAnswer` guard but not the `!session` guard, which only blocks saving before a session has loaded.
- Review.SaveEditConfirms: an id without a hyphen yields no tag type and no rule. The app never produces such an id.
- Discogs.DecadeOf: years are natural numbers. A missing or zero year is "no year", as the source's `|| null` makes it; negative years are not modelled.
- Discogs.GenreConfidence: a release's primary genre is `genres[0]`, and the route counts it once as the primary genre and again in the genre list. The model keeps that double count, so confidence can exceed 100 (`Discogs.DoubleCountedGenre`).
- Certainty.KindOf: a rule whose `tagType` names no field only creates empty records for the vendor's missing handles. The source would write a fourth property, which nothing reads.
- The UI-only state is left out: the editing text box, selection, search input state and pagination.
