/** The tag audit page: it reads catalog CSV files, parses each product's
    tag string into a genre, a subgenre and a decade (noting non-standard
    spellings), counts how complete the tagging is, and filters the product
    list by coverage and by a search text. */
module Audit {
  import opened Wrappers
  import opened Text
  import opened Seqs
  import Csv
  import Catalog

  /** The keys of `VALID_GENRES`, in declaration order. */
  const ValidGenres: seq<string> := [
    "Alternative & Indie Rock", "Classic Pop", "Classic Rock", "Classical", "Country",
    "Electronic & Dance", "Hip-Hop", "Holiday", "Jazz", "K-Pop / J-Pop", "Latin",
    "Metal / Punk / Hard Rock", "Modern Pop", "Modern Rock", "R&B / Soul / Funk",
    "Reggae / World / International", "Soundtracks"]

  /** `VALID_DECADES`: two-digit decades with an upper-case `C`, four-digit
      ones with a lower-case `c`. */
  const ValidDecades: seq<string> := ["50C", "60C", "70C", "80C", "90C", "2000c", "2010c", "2020c"]

  /** One audited catalog row. */
  datatype AuditProduct = AuditProduct(
    handle: string,
    title: string,
    vendor: string,
    tags: string,
    parsedGenre: Option<string>,
    parsedSubgenre: Option<string>,
    parsedDecade: Option<string>,
    hasGenre: bool,
    hasSubgenre: bool,
    hasDecade: bool,
    rawTagsList: seq<string>,
    parsingNotes: seq<string>)

  /** What `parseTags` returns. */
  datatype ParsedTags = ParsedTags(
    genre: Option<string>,
    subgenre: Option<string>,
    decade: Option<string>,
    allTags: seq<string>,
    notes: seq<string>)

  // ---------------------------------------------------------------------
  // Tokens.

  predicate NonEmpty(t: string) {
    |t| > 0
  }

  /** `tagString.split(',').map(t => t.trim()).filter(t => t.length > 0)`. */
  function Tokens(tagString: string): seq<string> {
    Filter(Csv.TrimAll(Split(tagString, ',')), NonEmpty)
  }

  /** Every token is non-empty, already trimmed and free of commas. */
  lemma TokensWellFormed(tagString: string)
    ensures forall t :: t in Tokens(tagString) ==> t != "" && Trim(t) == t && ',' !in t
  {
    var parts := Split(tagString, ',');
    var trimmed := Csv.TrimAll(parts);
    forall t | t in Tokens(tagString)
      ensures t != "" && Trim(t) == t && ',' !in t
    {
      FilterIn(trimmed, NonEmpty, t);
      var k :| 0 <= k < |trimmed| && trimmed[k] == t;
      Csv.TrimAllAt(parts, k);
      TrimIdempotent(parts[k]);
      TrimInfix(parts[k], ',');
    }
  }

  /** Trimming never brings in a character. */
  lemma TrimInfix(s: string, c: char)
    requires c !in s
    ensures c !in Trim(s)
  {
  }

  /** Tokens that are non-empty, trimmed and comma-free, joined by commas,
      read back as themselves. */
  lemma TokensOfJoin(ts: seq<string>)
    requires |ts| >= 1
    requires forall k :: 0 <= k < |ts| ==> ts[k] != "" && Trim(ts[k]) == ts[k] && ',' !in ts[k]
    ensures Tokens(Join(ts, ',')) == ts
  {
    SplitJoin(ts, ',');
    Csv.TrimAllFixed(ts);
    FilterAll(ts, NonEmpty);
  }

  // ---------------------------------------------------------------------
  // Reading one token.

  /** `s.substring(n)`: the text from position `n`, empty past the end. */
  function Substring(s: string, n: nat): string {
    if n <= |s| then s[n..] else ""
  }

  /** `Object.keys(VALID_GENRES).find(g => g.toLowerCase() === value.toLowerCase())`
      over the keys `keys`. */
  function FindGenreIn(keys: seq<string>, value: string): (r: Option<string>)
    ensures r.Some? ==> r.value in keys && Lower(r.value) == Lower(value)
  {
    if keys == [] then None
    else if Lower(keys[0]) == Lower(value) then Some(keys[0])
    else FindGenreIn(keys[1..], value)
  }

  /** Nothing is found exactly when no key matches. */
  lemma {:induction false} FindGenreNone(keys: seq<string>, value: string)
    ensures FindGenreIn(keys, value).None? <==> forall k :: k in keys ==> Lower(k) != Lower(value)
  {
    if keys != [] {
      FindGenreNone(keys[1..], value);
      assert keys == [keys[0]] + keys[1..];
    }
  }

  function FindGenre(value: string): Option<string> {
    FindGenreIn(ValidGenres, value)
  }

  /** The token starts with `genre parent:`, in any case. */
  predicate IsGenreToken(tag: string) {
    StartsWith(Lower(tag), Catalog.GenreLabel)
  }

  /** The token starts with `subgenre:`, in any case. */
  predicate IsSubgenreToken(tag: string) {
    StartsWith(Lower(tag), Catalog.SubgenreLabel)
  }

  /** The whole token matches `/^(\d{2,4})[cC]$/`. */
  predicate IsDecadeToken(tag: string) {
    && 3 <= |tag| <= 5
    && (forall k :: 0 <= k < |tag| - 1 ==> IsDigit(tag[k]))
    && (tag[|tag| - 1] == 'c' || tag[|tag| - 1] == 'C')
  }

  /** The trimmed text after `genre parent:`. */
  function GenreValue(tag: string): string {
    Trim(Substring(tag, |Catalog.GenreLabel|))
  }

  /** The genre a `genre parent:` token sets: the `VALID_GENRES` spelling
      when the value names one, the value itself otherwise. */
  function GenreOf(tag: string): string {
    var value := GenreValue(tag);
    match FindGenre(value)
    case Some(key) => key
    case None => value
  }

  /** The subgenre a `subgenre:` token sets. */
  function SubgenreOf(tag: string): string {
    Trim(Substring(tag, |Catalog.SubgenreLabel|))
  }

  /** A decade token sets the decade to the token as written. */
  function AsWritten(tag: string): string {
    tag
  }

  predicate StandardDecade(tag: string) {
    tag in ValidDecades || Lower(tag) in ValidDecades
  }

  /** The token is a genre token whose value names no known genre. */
  predicate GenreNoted(tag: string) {
    IsGenreToken(tag) && FindGenre(GenreValue(tag)).None?
  }

  /** The token is a decade token in a spelling `VALID_DECADES` lacks. */
  predicate DecadeNoted(tag: string) {
    IsDecadeToken(tag) && !StandardDecade(tag)
  }

  function GenreNote(value: string): string {
    "Non-standard genre: \"" + value + "\""
  }

  function DecadeNote(tag: string): string {
    "Non-standard decade format: \"" + tag + "\""
  }

  /** The accepted decade spellings: an upper-case `C` after two digits,
      either case after four. So `80c` is noted and `2000C` is not. */
  lemma StandardDecadeSpellings(tag: string)
    ensures StandardDecade(tag) <==>
            tag in ["50C", "60C", "70C", "80C", "90C", "2000c", "2000C", "2010c", "2010C", "2020c", "2020C"]
  {
    var l := Lower(tag);
    if tag in ["2000C", "2010C", "2020C"] {
      LowerDecade(tag);
      if tag == "2000C" {
        assert tag[..4] + "c" == "2000c";
      } else if tag == "2010C" {
        assert tag[..4] + "c" == "2010c";
      } else {
        assert tag[..4] + "c" == "2020c";
      }
    }
    if l in ValidDecades && tag !in ValidDecades {
      assert l[|l| - 1] == LowerChar(tag[|tag| - 1]) != 'C';
      assert l == "2000c" || l == "2010c" || l == "2020c";
      LowerPreimage(tag, l);
      if l == "2000c" {
        assert l[..4] + "C" == "2000C";
      } else if l == "2010c" {
        assert l[..4] + "C" == "2010C";
      } else {
        assert l[..4] + "C" == "2020C";
      }
    }
  }

  /** Digits then `C` lower-case to the same digits then `c`. */
  lemma LowerDecade(w: string)
    requires |w| >= 1 && w[|w| - 1] == 'C'
    requires forall k :: 0 <= k < |w| - 1 ==> IsDigit(w[k])
    ensures Lower(w) == w[..|w| - 1] + "c"
  {
    var l := Lower(w);
    forall k | 0 <= k < |w|
      ensures l[k] == (w[..|w| - 1] + "c")[k]
    {
      if k < |w| - 1 {
        assert l[k] == LowerChar(w[k]) == w[k];
      } else {
        assert l[k] == LowerChar('C') == 'c';
      }
    }
  }

  /** The strings that lower-case to digits and a `c` end in `c` or `C`. */
  lemma LowerPreimage(tag: string, w: string)
    requires Lower(tag) == w && |w| >= 1
    requires forall k :: 0 <= k < |w| - 1 ==> IsDigit(w[k])
    requires w[|w| - 1] == 'c'
    ensures tag == w || tag == w[..|w| - 1] + "C"
  {
    forall k | 0 <= k < |w| - 1
      ensures tag[k] == w[k]
    {
      assert LowerChar(tag[k]) == w[k];
    }
    assert LowerChar(tag[|w| - 1]) == 'c';
    if tag[|w| - 1] == 'c' {
      assert tag == w;
    } else {
      assert tag == w[..|w| - 1] + "C";
    }
  }

  // ---------------------------------------------------------------------
  // The parse: every token in order, the last match of each kind wins.

  /** The loop variables of `parseTags`. */
  datatype TagState = TagState(genre: Option<string>, subgenre: Option<string>, decade: Option<string>, notes: seq<string>)

  /** One token read: the genre, subgenre and decade checks in the source's
      order, each overwriting what an earlier token set. */
  function Step(st: TagState, tag: string): TagState {
    DecadeStep(SubgenreStep(GenreStep(st, tag), tag), tag)
  }

  /** A `genre parent:` token sets the genre, and notes a value that names
      no known genre. */
  function GenreStep(st: TagState, tag: string): TagState {
    if !IsGenreToken(tag) then st
    else
      var value := GenreValue(tag);
      match FindGenre(value)
      case Some(key) => st.(genre := Some(key))
      case None => st.(genre := Some(value), notes := st.notes + [GenreNote(value)])
  }

  /** A `subgenre:` token sets the subgenre. */
  function SubgenreStep(st: TagState, tag: string): TagState {
    if IsSubgenreToken(tag) then st.(subgenre := Some(SubgenreOf(tag))) else st
  }

  /** A decade token sets the decade, and notes a non-standard spelling. */
  function DecadeStep(st: TagState, tag: string): TagState {
    if !IsDecadeToken(tag) then st
    else st.(decade := Some(tag), notes := if StandardDecade(tag) then st.notes else st.notes + [DecadeNote(tag)])
  }

  /** What one token does to each loop variable. */
  lemma StepFields(st: TagState, tag: string)
    ensures var r := Step(st, tag);
            && r.genre == (if IsGenreToken(tag) then Some(GenreOf(tag)) else st.genre)
            && r.subgenre == (if IsSubgenreToken(tag) then Some(SubgenreOf(tag)) else st.subgenre)
            && r.decade == (if IsDecadeToken(tag) then Some(tag) else st.decade)
            && |r.notes| == |st.notes| + Bit(GenreNoted(tag)) + Bit(DecadeNoted(tag))
  {
    var g := GenreStep(st, tag);
    assert |g.notes| == |st.notes| + Bit(GenreNoted(tag));
  }

  /** The state after reading `tags` from the start. */
  function ParseFrom(tags: seq<string>): TagState {
    if tags == [] then TagState(None, None, None, [])
    else Step(ParseFrom(tags[..|tags| - 1]), tags[|tags| - 1])
  }

  /** What `parseTags(tagString)` returns. */
  function TagsOf(tagString: string): ParsedTags {
    var all := Tokens(tagString);
    var st := ParseFrom(all);
    ParsedTags(st.genre, st.subgenre, st.decade, all, st.notes)
  }

  lemma ParseFromPrefix(tags: seq<string>, i: nat)
    requires i < |tags|
    ensures ParseFrom(tags[..i + 1]) == Step(ParseFrom(tags[..i]), tags[i])
  {
    assert tags[..i + 1][..i] == tags[..i];
  }

  /** `parseTags`, one token at a time. */
  method ParseTags(tagString: string) returns (r: ParsedTags)
    ensures r == TagsOf(tagString)
  {
    var notes: seq<string> := [];
    var allTags := Tokens(tagString);
    var genre: Option<string> := None;
    var subgenre: Option<string> := None;
    var decade: Option<string> := None;
    for i := 0 to |allTags|
      invariant TagState(genre, subgenre, decade, notes) == ParseFrom(allTags[..i])
    {
      ParseFromPrefix(allTags, i);
      genre, subgenre, decade, notes := ReadTag(genre, subgenre, decade, notes, allTags[i]);
    }
    assert allTags[..|allTags|] == allTags;
    r := ParsedTags(genre, subgenre, decade, allTags, notes);
  }

  /** The body of `parseTags`' loop: one token read. */
  method ReadTag(genre0: Option<string>, subgenre0: Option<string>, decade0: Option<string>, notes0: seq<string>, tag: string)
    returns (genre: Option<string>, subgenre: Option<string>, decade: Option<string>, notes: seq<string>)
    ensures TagState(genre, subgenre, decade, notes) == Step(TagState(genre0, subgenre0, decade0, notes0), tag)
  {
    genre, subgenre, decade, notes := genre0, subgenre0, decade0, notes0;
    ghost var st := TagState(genre0, subgenre0, decade0, notes0);
    if StartsWith(Lower(tag), Catalog.GenreLabel) {
      var value := Trim(Substring(tag, |Catalog.GenreLabel|));
      var matchedGenre := FindGenre(value);
      if matchedGenre.Some? {
        genre := matchedGenre;
      } else {
        genre := Some(value);
        notes := notes + [GenreNote(value)];
      }
    }
    st := GenreStep(st, tag);
    assert TagState(genre, subgenre, decade, notes) == st;
    if StartsWith(Lower(tag), Catalog.SubgenreLabel) {
      subgenre := Some(Trim(Substring(tag, |Catalog.SubgenreLabel|)));
    }
    st := SubgenreStep(st, tag);
    assert TagState(genre, subgenre, decade, notes) == st;
    if IsDecadeToken(tag) {
      decade := Some(tag);
      if !(tag in ValidDecades) && !(Lower(tag) in ValidDecades) {
        notes := notes + [DecadeNote(tag)];
      }
    }
  }

  /** `o` is what the last token of `tags` satisfying `p` sets through `f`,
      and nothing when no token satisfies `p`. */
  ghost predicate DecidedByLast(tags: seq<string>, p: string -> bool, f: string -> string, o: Option<string>) {
    && (o.None? <==> forall j :: 0 <= j < |tags| ==> !p(tags[j]))
    && forall i :: 0 <= i < |tags| && p(tags[i]) && (forall j :: i < j < |tags| ==> !p(tags[j]))
                   ==> o == Some(f(tags[i]))
  }

  lemma DecidedByLastSnoc(tags: seq<string>, t: string, p: string -> bool, f: string -> string, o: Option<string>)
    requires DecidedByLast(tags, p, f, o)
    ensures DecidedByLast(tags + [t], p, f, if p(t) then Some(f(t)) else o)
  {
    var all := tags + [t];
    var o' := if p(t) then Some(f(t)) else o;
    if !p(t) {
      forall i | 0 <= i < |all| && p(all[i]) && (forall j :: i < j < |all| ==> !p(all[j]))
        ensures o' == Some(f(all[i]))
      {
        assert i < |tags| && all[i] == tags[i];
        forall j | i < j < |tags| ensures !p(tags[j]) {
          assert all[j] == tags[j];
        }
      }
      assert (forall j :: 0 <= j < |all| ==> !p(all[j])) <==> (forall j :: 0 <= j < |tags| ==> !p(tags[j])) by {
        if forall j :: 0 <= j < |tags| ==> !p(tags[j]) {
          forall j | 0 <= j < |all| ensures !p(all[j]) {
            if j < |tags| { assert all[j] == tags[j]; }
          }
        }
        if forall j :: 0 <= j < |all| ==> !p(all[j]) {
          forall j | 0 <= j < |tags| ensures !p(tags[j]) {
            assert all[j] == tags[j];
          }
        }
      }
    } else {
      assert all[|tags|] == t;
    }
  }

  /** For each of genre, subgenre and decade, the last matching token
      decides the result; no matching token leaves it null. */
  lemma {:induction false} LastMatchWins(tags: seq<string>)
    ensures var st := ParseFrom(tags);
            && DecidedByLast(tags, IsGenreToken, GenreOf, st.genre)
            && DecidedByLast(tags, IsSubgenreToken, SubgenreOf, st.subgenre)
            && DecidedByLast(tags, IsDecadeToken, AsWritten, st.decade)
  {
    if tags != [] {
      var init, t := tags[..|tags| - 1], tags[|tags| - 1];
      LastMatchWins(init);
      var st := ParseFrom(init);
      SplitLast(tags);
      StepFields(st, t);
      DecidedByLastSnoc(init, t, IsGenreToken, GenreOf, st.genre);
      DecidedByLastSnoc(init, t, IsSubgenreToken, SubgenreOf, st.subgenre);
      DecidedByLastSnoc(init, t, IsDecadeToken, AsWritten, st.decade);
    }
  }

  /** One note per genre token naming no known genre and one per decade
      token in a non-standard spelling. */
  lemma {:induction false} NotesCount(tags: seq<string>)
    ensures |ParseFrom(tags).notes| == Count(tags, GenreNoted) + Count(tags, DecadeNoted)
  {
    if tags != [] {
      var init, t := tags[..|tags| - 1], tags[|tags| - 1];
      NotesCount(init);
      SplitLast(tags);
      StepFields(ParseFrom(init), t);
      FilterSnoc(init, t, GenreNoted);
      FilterSnoc(init, t, DecadeNoted);
    }
  }

  /** A genre token whose value names a known genre in any case sets that
      genre's own spelling. */
  lemma GenreCanonical(tag: string)
    requires IsGenreToken(tag)
    ensures FindGenre(GenreValue(tag)).Some? ==>
              GenreOf(tag) in ValidGenres && Lower(GenreOf(tag)) == Lower(GenreValue(tag)) && !GenreNoted(tag)
    ensures FindGenre(GenreValue(tag)).None? ==> GenreOf(tag) == GenreValue(tag) && GenreNoted(tag)
  {
  }

  // ---------------------------------------------------------------------
  // The upload.

  /** `headers.findIndex(h => h.toLowerCase() === name)`. */
  function FindHeader(headers: seq<string>, name: string): (r: int)
    ensures -1 <= r < |headers|
    ensures r >= 0 ==> Lower(headers[r]) == name && forall j :: 0 <= j < r ==> Lower(headers[j]) != name
    ensures r == -1 <==> forall j :: 0 <= j < |headers| ==> Lower(headers[j]) != name
  {
    if headers == [] then -1
    else if Lower(headers[0]) == name then 0
    else
      var k := FindHeader(headers[1..], name);
      assert forall j :: 1 <= j < |headers| ==> headers[j] == headers[1..][j - 1];
      if k == -1 then -1 else k + 1
  }

  /** The column positions of a header row, or nothing when the handle or
      tags column is missing (the file is then skipped). */
  function AuditColumns(headers: seq<string>): (r: Option<Catalog.Columns>)
    ensures r.Some? ==> 0 <= r.value.handle < |headers| && 0 <= r.value.tags < |headers|
  {
    var cols := Catalog.Columns(FindHeader(headers, "handle"), FindHeader(headers, "title"),
                                FindHeader(headers, "vendor"), FindHeader(headers, "tags"));
    if cols.handle == -1 || cols.tags == -1 then None else Some(cols)
  }

  /** The cells of one data line the audit reads; a missing cell is `''`. */
  datatype Row = Row(handle: string, title: string, vendor: string, tags: string)

  function RowOf(values: seq<string>, cols: Catalog.Columns): Row {
    Row(Catalog.Cell(values, cols.handle), Catalog.Cell(values, cols.title),
        Catalog.Cell(values, cols.vendor), Catalog.Cell(values, cols.tags))
  }

  function RowHandle(r: Row): string {
    r.handle
  }

  /** The product a kept row becomes once its tags are parsed. */
  function Audited(r: Row): AuditProduct {
    var parsed := TagsOf(r.tags);
    AuditProduct(r.handle, r.title, r.vendor, r.tags,
                 parsed.genre, parsed.subgenre, parsed.decade,
                 Catalog.Truthy(parsed.genre), Catalog.Truthy(parsed.subgenre), Catalog.Truthy(parsed.decade),
                 parsed.allTags, parsed.notes)
  }

  /** The rows of the data lines `lines`. */
  function Rows(lines: seq<string>, cols: Catalog.Columns): (r: seq<Row>)
    ensures |r| == |lines|
  {
    seq(|lines|, k requires 0 <= k < |lines| => RowOf(Csv.Fields(lines[k]), cols))
  }

  /** The rows of every data line of one file, before the duplicate check;
      none when the file lacks a handle or tags column. */
  function FileRows(text: string): seq<Row> {
    var lines := Split(text, '\n');
    match AuditColumns(Csv.Fields(lines[0]))
    case None => []
    case Some(cols) => Rows(lines[1..], cols)
  }

  /** The rows of all files, in file order. */
  function AllRows(files: seq<string>): seq<Row> {
    if files == [] then [] else FileRows(files[0]) + AllRows(files[1..])
  }

  lemma AllRowsSplit(files: seq<string>, f: nat)
    requires f < |files|
    ensures AllRows(files[f..]) == FileRows(files[f]) + AllRows(files[f + 1..])
  {
    assert files[f..][1..] == files[f + 1..];
  }

  /** A blank line reads as a row with an empty handle, which the
      duplicate check would skip anyway. */
  lemma BlankRowHandle(line: string, cols: Catalog.Columns)
    requires Trim(line) == ""
    ensures RowOf(Csv.Fields(line), cols).handle == ""
  {
    Csv.BlankFields(line);
  }

  /** One kept row: its tags parsed into the product's fields. */
  method BuildProduct(r: Row) returns (p: AuditProduct)
    ensures p == Audited(r)
  {
    var parsed := ParseTags(r.tags);
    p := AuditProduct(r.handle, r.title, r.vendor, r.tags,
                      parsed.genre, parsed.subgenre, parsed.decade,
                      Catalog.Truthy(parsed.genre), Catalog.Truthy(parsed.subgenre), Catalog.Truthy(parsed.decade),
                      parsed.allTags, parsed.notes);
  }

  /** One data line: skipped when blank, when its handle is empty or when
      the handle was seen before; otherwise its product is added. */
  method ReadRow(line: string, cols: Catalog.Columns, products0: seq<AuditProduct>, seen0: set<string>)
    returns (products: seq<AuditProduct>, seen: set<string>)
    ensures var r := RowOf(Csv.Fields(line), cols);
            var skip := r.handle == "" || r.handle in seen0;
            && products == (if skip then products0 else products0 + [Audited(r)])
            && seen == (if skip then seen0 else seen0 + {r.handle})
  {
    products, seen := products0, seen0;
    if Trim(line) == "" {
      BlankRowHandle(line, cols);
      return;
    }
    var values := Csv.ParseCsvLine(line);
    var handle := Catalog.Cell(values, cols.handle);
    if handle == "" || handle in seen {
      return;
    }
    seen := seen + {handle};
    var product := BuildProduct(RowOf(values, cols));
    products := products + [product];
  }

  /** The pass over the rows seen from a loop at row `j`, in products. */
  lemma AuditStep(rows: seq<Row>, j: nat, seen: set<string>)
    requires j < |rows|
    ensures var k := rows[j].handle;
            var skip := k == "" || k in seen;
            && Map(KeepFirstFrom(rows[j..], RowHandle, seen), Audited)
               == (if skip then [] else [Audited(rows[j])])
                  + Map(KeepFirstFrom(rows[j + 1..], RowHandle, if skip then seen else seen + {k}), Audited)
            && SeenAfter(rows[j..], RowHandle, seen)
               == SeenAfter(rows[j + 1..], RowHandle, if skip then seen else seen + {k})
  {
    KeepFirstStep(rows, RowHandle, j, [], seen);
    var k := rows[j].handle;
    var skip := k == "" || k in seen;
    var rest := KeepFirstFrom(rows[j + 1..], RowHandle, if skip then seen else seen + {k});
    assert KeepFirstFrom(rows[j..], RowHandle, seen) == (if skip then [] else [rows[j]]) + rest;
    MapAppend(if skip then [] else [rows[j]], rest, Audited);
  }

  /** The rows of one file, read into `products` with the handles already
      seen. */
  method ReadAuditFile(text: string, products0: seq<AuditProduct>, seen0: set<string>)
    returns (products: seq<AuditProduct>, seen: set<string>)
    ensures products == products0 + Map(KeepFirstFrom(FileRows(text), RowHandle, seen0), Audited)
    ensures seen == SeenAfter(FileRows(text), RowHandle, seen0)
  {
    var lines := Split(text, '\n');
    var headers := Csv.ParseCsvLine(lines[0]);
    var idx := AuditColumns(headers);
    if idx.None? {
      return products0, seen0;
    }
    products, seen := ReadLines(lines, idx.value, products0, seen0);
  }

  /** The data lines of a file whose columns are `cols`, from the second
      line on. */
  method ReadLines(lines: seq<string>, cols: Catalog.Columns, products0: seq<AuditProduct>, seen0: set<string>)
    returns (products: seq<AuditProduct>, seen: set<string>)
    requires |lines| >= 1
    ensures products == products0 + Map(KeepFirstFrom(Rows(lines[1..], cols), RowHandle, seen0), Audited)
    ensures seen == SeenAfter(Rows(lines[1..], cols), RowHandle, seen0)
  {
    products, seen := products0, seen0;
    ghost var rows := Rows(lines[1..], cols);
    assert rows[0..] == rows;
    for i := 1 to |lines|
      invariant products0 + Map(KeepFirstFrom(rows, RowHandle, seen0), Audited)
             == products + Map(KeepFirstFrom(rows[i - 1..], RowHandle, seen), Audited)
      invariant SeenAfter(rows, RowHandle, seen0) == SeenAfter(rows[i - 1..], RowHandle, seen)
    {
      AuditStep(rows, i - 1, seen);
      assert rows[i - 1] == RowOf(Csv.Fields(lines[i]), cols);
      ghost var before := products;
      products, seen := ReadRow(lines[i], cols, products, seen);
      ghost var rest := Map(KeepFirstFrom(rows[i..], RowHandle, seen), Audited);
      assert products == before + (products[|before|..]);
      AppendAssoc(before, products[|before|..], rest);
    }
  }

  /** The upload loop: every file in turn, with one set of seen handles
      shared by all of them; only the first row of each non-empty handle
      becomes a product. */
  method UploadAuditFiles(files: seq<string>) returns (products: seq<AuditProduct>)
    ensures products == Map(KeepFirst(AllRows(files), RowHandle), Audited)
  {
    products := [];
    var seen: set<string> := {};
    ghost var all := AllRows(files);
    assert files[0..] == files;
    for f := 0 to |files|
      invariant products + Map(KeepFirstFrom(AllRows(files[f..]), RowHandle, seen), Audited)
             == Map(KeepFirst(all, RowHandle), Audited)
    {
      ghost var rows := FileRows(files[f]);
      ghost var later := AllRows(files[f + 1..]);
      ghost var before := products;
      AllRowsSplit(files, f);
      KeepFirstFromAppend(rows, later, RowHandle, seen);
      ghost var kept := KeepFirstFrom(rows, RowHandle, seen);
      MapAppend(kept, KeepFirstFrom(later, RowHandle, SeenAfter(rows, RowHandle, seen)), Audited);
      products, seen := ReadAuditFile(files[f], products, seen);
      ghost var tail := Map(KeepFirstFrom(later, RowHandle, seen), Audited);
      AppendAssoc(before, Map(kept, Audited), tail);
    }
    assert files[|files|..] == [];
  }

  /** After an upload, product handles are non-empty and pairwise
      different, and every non-empty handle of every file has its product. */
  lemma UploadHandles(files: seq<string>)
    ensures var rows := AllRows(files);
            var out := Map(KeepFirst(rows, RowHandle), Audited);
            && (forall a, b :: 0 <= a < b < |out| ==> out[a].handle != out[b].handle)
            && (forall m :: 0 <= m < |out| ==> out[m].handle != "")
            && (forall i :: 0 <= i < |rows| && rows[i].handle != "" ==>
                  exists m :: 0 <= m < |out| && out[m].handle == rows[i].handle)
  {
    AuditedHandles(AllRows(files));
  }

  /** The same three facts for any sequence of rows. */
  lemma AuditedHandles(rows: seq<Row>)
    ensures var out := Map(KeepFirst(rows, RowHandle), Audited);
            && (forall a, b :: 0 <= a < b < |out| ==> out[a].handle != out[b].handle)
            && (forall m :: 0 <= m < |out| ==> out[m].handle != "")
            && (forall i :: 0 <= i < |rows| && rows[i].handle != "" ==>
                  exists m :: 0 <= m < |out| && out[m].handle == rows[i].handle)
  {
    var kept := KeepFirst(rows, RowHandle);
    KeepFirstProperties(rows, RowHandle);
    AuditAllHandles(kept);
  }

  lemma AuditAllHandles(rows: seq<Row>)
    ensures forall m :: 0 <= m < |rows| ==> Map(rows, Audited)[m].handle == rows[m].handle
  {
    forall m | 0 <= m < |rows|
      ensures Map(rows, Audited)[m].handle == rows[m].handle
    {
      MapAt(rows, Audited, m);
    }
  }

  // ---------------------------------------------------------------------
  // Coverage counters.

  datatype AuditStats = AuditStats(
    total: nat,
    withGenre: nat,
    withSubgenre: nat,
    withDecade: nat,
    complete: nat,
    missingAll: nat,
    missingGenreOnly: nat,
    missingSubgenreOnly: nat,
    missingDecadeOnly: nat)

  predicate HasGenre(p: AuditProduct) { p.hasGenre }
  predicate HasSubgenre(p: AuditProduct) { p.hasSubgenre }
  predicate HasDecade(p: AuditProduct) { p.hasDecade }
  predicate LacksGenre(p: AuditProduct) { !p.hasGenre }
  predicate LacksSubgenre(p: AuditProduct) { !p.hasSubgenre }
  predicate LacksDecade(p: AuditProduct) { !p.hasDecade }
  predicate IsComplete(p: AuditProduct) { p.hasGenre && p.hasSubgenre && p.hasDecade }
  predicate LacksAll(p: AuditProduct) { !p.hasGenre && !p.hasSubgenre && !p.hasDecade }
  predicate LacksGenreOnly(p: AuditProduct) { !p.hasGenre && p.hasSubgenre && p.hasDecade }
  predicate LacksSubgenreOnly(p: AuditProduct) { p.hasGenre && !p.hasSubgenre && p.hasDecade }
  predicate LacksDecadeOnly(p: AuditProduct) { p.hasGenre && p.hasSubgenre && !p.hasDecade }

  /** The counters: how many products satisfy each condition. */
  function StatsOf(ps: seq<AuditProduct>): AuditStats {
    AuditStats(|ps|, Count(ps, HasGenre), Count(ps, HasSubgenre), Count(ps, HasDecade),
               Count(ps, IsComplete), Count(ps, LacksAll), Count(ps, LacksGenreOnly),
               Count(ps, LacksSubgenreOnly), Count(ps, LacksDecadeOnly))
  }

  function Bit(b: bool): nat {
    if b then 1 else 0
  }

  /** One more product bumps each counter whose condition it meets. */
  lemma StatsPrefix(ps: seq<AuditProduct>, i: nat)
    requires i < |ps|
    ensures var s := StatsOf(ps[..i]);
            var t := StatsOf(ps[..i + 1]);
            var p := ps[i];
            && t.withGenre == s.withGenre + Bit(HasGenre(p))
            && t.withSubgenre == s.withSubgenre + Bit(HasSubgenre(p))
            && t.withDecade == s.withDecade + Bit(HasDecade(p))
            && t.complete == s.complete + Bit(IsComplete(p))
            && t.missingAll == s.missingAll + Bit(LacksAll(p))
            && t.missingGenreOnly == s.missingGenreOnly + Bit(LacksGenreOnly(p))
            && t.missingSubgenreOnly == s.missingSubgenreOnly + Bit(LacksSubgenreOnly(p))
            && t.missingDecadeOnly == s.missingDecadeOnly + Bit(LacksDecadeOnly(p))
  {
    var init, p := ps[..i], ps[i];
    assert ps[..i + 1] == init + [p];
    FilterSnoc(init, p, HasGenre);
    FilterSnoc(init, p, HasSubgenre);
    FilterSnoc(init, p, HasDecade);
    FilterSnoc(init, p, IsComplete);
    FilterSnoc(init, p, LacksAll);
    FilterSnoc(init, p, LacksGenreOnly);
    FilterSnoc(init, p, LacksSubgenreOnly);
    FilterSnoc(init, p, LacksDecadeOnly);
  }

  /** The counting loop over the products. */
  method CountCoverage(products: seq<AuditProduct>) returns (s: AuditStats)
    ensures s == StatsOf(products)
  {
    s := AuditStats(|products|, 0, 0, 0, 0, 0, 0, 0, 0);
    for i := 0 to |products|
      invariant s == StatsOf(products[..i]).(total := |products|)
    {
      var p := products[i];
      StatsPrefix(products, i);
      if p.hasGenre { s := s.(withGenre := s.withGenre + 1); }
      if p.hasSubgenre { s := s.(withSubgenre := s.withSubgenre + 1); }
      if p.hasDecade { s := s.(withDecade := s.withDecade + 1); }
      if p.hasGenre && p.hasSubgenre && p.hasDecade { s := s.(complete := s.complete + 1); }
      if !p.hasGenre && !p.hasSubgenre && !p.hasDecade { s := s.(missingAll := s.missingAll + 1); }
      if !p.hasGenre && p.hasSubgenre && p.hasDecade { s := s.(missingGenreOnly := s.missingGenreOnly + 1); }
      if p.hasGenre && !p.hasSubgenre && p.hasDecade { s := s.(missingSubgenreOnly := s.missingSubgenreOnly + 1); }
      if p.hasGenre && p.hasSubgenre && !p.hasDecade { s := s.(missingDecadeOnly := s.missingDecadeOnly + 1); }
    }
    assert products[..|products|] == products;
  }

  /** Complete products have every field; no product is both complete and
      missing everything; a product missing only X lacks X. */
  lemma CoverageBounds(ps: seq<AuditProduct>)
    ensures var s := StatsOf(ps);
            && s.complete <= s.withGenre && s.complete <= s.withSubgenre && s.complete <= s.withDecade
            && s.complete + s.missingAll <= s.total
            && s.missingGenreOnly <= s.total - s.withGenre
            && s.missingSubgenreOnly <= s.total - s.withSubgenre
            && s.missingDecadeOnly <= s.total - s.withDecade
  {
    CountMono(ps, IsComplete, HasGenre);
    CountMono(ps, IsComplete, HasSubgenre);
    CountMono(ps, IsComplete, HasDecade);
    CountDisjoint(ps, IsComplete, LacksAll);
    CountDisjoint(ps, LacksGenreOnly, HasGenre);
    CountDisjoint(ps, LacksSubgenreOnly, HasSubgenre);
    CountDisjoint(ps, LacksDecadeOnly, HasDecade);
  }

  // ---------------------------------------------------------------------
  // Filtering.

  /** The coverage filter chosen on the page. */
  datatype FilterType = All | CompleteOnly | MissingGenre | MissingSubgenre | MissingDecade | MissingAll

  /** The predicate each filter applies. */
  function Matches(f: FilterType): AuditProduct -> bool {
    match f
    case All => (p: AuditProduct) => true
    case CompleteOnly => IsComplete
    case MissingGenre => LacksGenre
    case MissingSubgenre => LacksSubgenre
    case MissingDecade => LacksDecade
    case MissingAll => LacksAll
  }

  /** The handle, title or vendor, lower-cased, contains `q`. */
  function SearchHit(q: string): AuditProduct -> bool {
    (p: AuditProduct) => Contains(Lower(p.handle), q) || Contains(Lower(p.title), q) || Contains(Lower(p.vendor), q)
  }

  /** What the page lists: the coverage filter, then the search (when the
      search text is non-empty) on the lower-cased query. */
  function FilteredProducts(products: seq<AuditProduct>, f: FilterType, searchQuery: string): seq<AuditProduct> {
    var filtered := if f == All then products else Filter(products, Matches(f));
    if searchQuery != "" then Filter(filtered, SearchHit(Lower(searchQuery))) else filtered
  }

  /** A product is listed when it passes the coverage filter and, for a
      non-empty search text, the search. */
  function Selected(f: FilterType, searchQuery: string): AuditProduct -> bool {
    (p: AuditProduct) => Matches(f)(p) && (searchQuery == "" || SearchHit(Lower(searchQuery))(p))
  }

  /** The listing is the products, in order, that pass both tests at once;
      each appears as often as in the catalog. */
  lemma FilteredExactly(products: seq<AuditProduct>, f: FilterType, searchQuery: string)
    ensures FilteredProducts(products, f, searchQuery) == Filter(products, Selected(f, searchQuery))
    ensures forall p :: multiset(FilteredProducts(products, f, searchQuery))[p]
                        == if Selected(f, searchQuery)(p) then multiset(products)[p] else 0
  {
    var sel := Selected(f, searchQuery);
    var filtered := if f == All then products else Filter(products, Matches(f));
    if f == All {
      FilterAll(products, Matches(f));
    }
    if searchQuery != "" {
      FilterFilter(products, Matches(f), SearchHit(Lower(searchQuery)), sel);
    } else {
      assert forall p :: sel(p) == Matches(f)(p);
      FilterSame(products, Matches(f), sel);
    }
    forall p ensures multiset(FilteredProducts(products, f, searchQuery))[p]
                     == if sel(p) then multiset(products)[p] else 0 {
      FilterMultiset(products, sel, p);
    }
  }

  /** Filters by predicates that agree everywhere give the same result. */
  lemma {:induction false} FilterSame(s: seq<AuditProduct>, p: AuditProduct -> bool, q: AuditProduct -> bool)
    requires forall x :: p(x) == q(x)
    ensures Filter(s, p) == Filter(s, q)
  {
    if s != [] {
      FilterSame(s[1..], p, q);
    }
  }

  /** Without a search, each coverage filter lists as many products as the
      matching counter says. */
  lemma FilterSizes(ps: seq<AuditProduct>)
    ensures var s := StatsOf(ps);
            && |FilteredProducts(ps, All, "")| == s.total
            && |FilteredProducts(ps, CompleteOnly, "")| == s.complete
            && |FilteredProducts(ps, MissingGenre, "")| == s.total - s.withGenre
            && |FilteredProducts(ps, MissingSubgenre, "")| == s.total - s.withSubgenre
            && |FilteredProducts(ps, MissingDecade, "")| == s.total - s.withDecade
            && |FilteredProducts(ps, MissingAll, "")| == s.missingAll
  {
    CountComplement(ps, LacksGenre, HasGenre);
    CountComplement(ps, LacksSubgenre, HasSubgenre);
    CountComplement(ps, LacksDecade, HasDecade);
  }
}
