/** Catalog products and the catalog upload of the tagging page: every CSV
    file is split into lines, the header row locates the Handle, Title,
    Vendor and Tags columns, and each data row becomes a product whose
    existing genre, subgenre and decade are pulled out of its tag string by
    three regular expressions. Only the first row of each handle is kept,
    across all files. */
module Catalog {
  import opened Wrappers
  import opened Text
  import Csv
  import Seqs

  datatype Product = Product(
    handle: string,
    title: string,
    vendor: string,
    existingGenre: Option<string>,
    existingSubgenre: Option<string>,
    existingDecade: Option<string>)

  /** JavaScript truthiness of a `string | null` field: `null` and `""` are
      both falsy. */
  predicate Truthy(o: Option<string>) {
    o.Some? && o.value != ""
  }

  /** The regular-expression class `\w`. */
  predicate IsWord(c: char) {
    ('a' <= c <= 'z') || ('A' <= c <= 'Z') || IsDigit(c) || c == '_'
  }

  /** `s[i..]` starts with the lower-case `prefix`, letters compared without
      regard to case (the `i` flag; it folds ASCII letters only). */
  predicate LabelAt(s: string, prefix: string, i: nat) {
    i + |prefix| <= |s| && Lower(s[i..i + |prefix|]) == prefix
  }

  /** The position of the first comma at or after `k`, or `|s|`. */
  function CommaFrom(s: string, k: nat): (e: nat)
    requires k <= |s|
    ensures k <= e <= |s|
    ensures ',' !in s[k..e]
    ensures e < |s| ==> s[e] == ','
    decreases |s| - k
  {
    if k == |s| || s[k] == ',' then k else CommaFrom(s, k + 1)
  }

  /** The group captured by `prefix\s*([^,]+)` when the match starts at `i`.
      `\s*` takes all the white space it can; if no non-comma character
      follows, it gives one white-space character back to `[^,]+`. */
  function CaptureAt(s: string, prefix: string, i: nat): (r: Option<string>)
    ensures r.Some? ==> r.value != [] && ',' !in r.value
    ensures r.Some? ==> LabelAt(s, prefix, i)
  {
    if !LabelAt(s, prefix, i) then None
    else
      var j := i + |prefix|;
      var k := SkipSpace(s, j);
      if k < |s| && s[k] != ',' then Some(s[k..CommaFrom(s, k)])
      else if k > j then Some([s[k - 1]])
      else None
  }

  /** The leftmost position at or after `i` where `prefix\s*([^,]+)`
      matches, or `|s| + 1` when there is none. */
  function CaptureFrom(s: string, prefix: string, i: nat): (j: nat)
    requires i <= |s|
    ensures i <= j <= |s| + 1
    ensures j <= |s| ==> CaptureAt(s, prefix, j).Some?
    ensures forall m :: i <= m < j && m <= |s| ==> CaptureAt(s, prefix, m).None?
    decreases |s| - i
  {
    if CaptureAt(s, prefix, i).Some? then i
    else if i == |s| then |s| + 1
    else CaptureFrom(s, prefix, i + 1)
  }

  /** `s.match(/prefix\s*([^,]+)/i)?.[1]`: the group of the leftmost match. */
  function FirstCapture(s: string, prefix: string): Option<string> {
    var j := CaptureFrom(s, prefix, 0);
    if j <= |s| then CaptureAt(s, prefix, j) else None
  }

  /** The number of consecutive digits starting at `i`. */
  function DigitRun(s: string, i: nat): (n: nat)
    requires i <= |s|
    ensures i + n <= |s|
    ensures forall k :: i <= k < i + n ==> IsDigit(s[k])
    ensures i + n < |s| ==> !IsDigit(s[i + n])
    decreases |s| - i
  {
    if i < |s| && IsDigit(s[i]) then 1 + DigitRun(s, i + 1) else 0
  }

  /** The group captured by `\b(\d{2,4}[cC])\b` when the match starts at `i`.
      Since a `c` is not a digit, `\d{2,4}` can only end where the run of
      digits ends. */
  function DecadeAt(s: string, i: nat): (r: Option<string>)
    requires i <= |s|
    ensures r.Some? ==> 3 <= |r.value| <= 5 && r.value[|r.value| - 1] in "cC"
  {
    if i < |s| && IsDigit(s[i]) && (i == 0 || !IsWord(s[i - 1])) then
      var e := i + DigitRun(s, i);
      if 2 <= e - i <= 4 && e < |s| && (s[e] == 'c' || s[e] == 'C') && (e + 1 == |s| || !IsWord(s[e + 1]))
      then Some(s[i..e + 1])
      else None
    else None
  }

  /** The leftmost position at or after `i` where `\b(\d{2,4}[cC])\b`
      matches, or `|s| + 1`. */
  function DecadeFrom(s: string, i: nat): (j: nat)
    requires i <= |s|
    ensures i <= j <= |s| + 1
    ensures j <= |s| ==> DecadeAt(s, j).Some?
    ensures forall m :: i <= m < j && m <= |s| ==> DecadeAt(s, m).None?
    decreases |s| - i
  {
    if DecadeAt(s, i).Some? then i
    else if i == |s| then |s| + 1
    else DecadeFrom(s, i + 1)
  }

  function FirstDecade(s: string): Option<string> {
    var j := DecadeFrom(s, 0);
    if j <= |s| then DecadeAt(s, j) else None
  }

  const GenreLabel: string := "genre parent:"
  const SubgenreLabel: string := "subgenre:"

  function TrimOpt(o: Option<string>): Option<string> {
    if o.Some? then Some(Trim(o.value)) else None
  }

  function UpperOpt(o: Option<string>): Option<string> {
    if o.Some? then Some(Upper(o.value)) else None
  }

  /** The existing genre read from a tag string at upload. */
  function UploadGenre(tags: string): Option<string> {
    TrimOpt(FirstCapture(tags, GenreLabel))
  }

  function UploadSubgenre(tags: string): Option<string> {
    TrimOpt(FirstCapture(tags, SubgenreLabel))
  }

  function UploadDecade(tags: string): Option<string> {
    UpperOpt(FirstDecade(tags))
  }

  /** A tag list that starts with the tag `Genre Parent: v` (any spacing
      after the colon, any letter case in the prefix) yields `v` at upload,
      whatever tags follow it. */
  lemma GenreTagRoundTrip(prefix: string, spaces: string, v: string, rest: string)
    requires Lower(prefix) == GenreLabel && AllSpace(spaces)
    requires v != [] && ',' !in v && !IsSpace(v[0]) && !IsSpace(v[|v| - 1])
    requires rest == [] || rest[0] == ','
    ensures UploadGenre(prefix + spaces + v + rest) == Some(v)
  {
    GenreCapture(prefix, spaces, v, rest);
    TrimFixed(v);
  }

  /** The match at the start of such a tag list captures `v`. */
  lemma GenreCapture(prefix: string, spaces: string, v: string, rest: string)
    requires Lower(prefix) == GenreLabel && AllSpace(spaces)
    requires v != [] && ',' !in v && !IsSpace(v[0])
    requires rest == [] || rest[0] == ','
    ensures CaptureAt(prefix + spaces + v + rest, GenreLabel, 0) == Some(v)
  {
    var s := prefix + spaces + v + rest;
    var j := |prefix|;
    assert s[..j] == prefix;
    assert LabelAt(s, GenreLabel, 0);
    assert s[j..j + |spaces|] == spaces;
    assert SkipSpace(s, j) == j + |spaces| by {
      SkipSpaceOver(s, j, j + |spaces|);
    }
    var k := j + |spaces|;
    assert s[k..k + |v|] == v;
    assert CommaFrom(s, k) == k + |v| by {
      CommaFromOver(s, k, k + |v|);
    }
  }

  lemma {:induction false} SkipSpaceOver(s: string, j: nat, k: nat)
    requires j <= k <= |s|
    requires forall m :: j <= m < k ==> IsSpace(s[m])
    requires k < |s| ==> !IsSpace(s[k])
    ensures SkipSpace(s, j) == k
    decreases k - j
  {
    if j < k {
      SkipSpaceOver(s, j + 1, k);
    }
  }

  lemma {:induction false} CommaFromOver(s: string, k: nat, e: nat)
    requires k <= e <= |s|
    requires forall m :: k <= m < e ==> s[m] != ','
    requires e < |s| ==> s[e] == ','
    ensures CommaFrom(s, k) == e
    decreases e - k
  {
    if k < e {
      CommaFromOver(s, k + 1, e);
    }
  }

  /** A tag list that starts with a decade tag of two to four digits and a
      `c` yields that tag upper-cased. */
  lemma DecadeTagRoundTrip(digits: string, c: char, rest: string)
    requires 2 <= |digits| <= 4 && forall k :: 0 <= k < |digits| ==> IsDigit(digits[k])
    requires c == 'c' || c == 'C'
    requires rest == [] || !IsWord(rest[0])
    ensures UploadDecade(digits + [c] + rest) == Some(digits + ['C'])
  {
    var s := digits + [c] + rest;
    assert DigitRun(s, 0) == |digits| by {
      DigitRunOver(s, 0, |digits|);
    }
    assert s[..|digits| + 1] == digits + [c];
    assert DecadeAt(s, 0) == Some(digits + [c]);
    var u := Upper(digits + [c]);
    assert u == digits + ['C'];
  }

  lemma {:induction false} DigitRunOver(s: string, i: nat, e: nat)
    requires i <= e <= |s|
    requires forall m :: i <= m < e ==> IsDigit(s[m])
    requires e < |s| ==> !IsDigit(s[e])
    ensures DigitRun(s, i) == e - i
    decreases e - i
  {
    if i < e {
      DigitRunOver(s, i + 1, e);
    }
  }

  /** `Genre Parent:` followed only by white space before the next comma
      still matches, with a single white-space character captured; the
      trimmed genre is then the empty string, which the rest of the page
      treats as no genre. */
  lemma BlankGenreCapture(prefix: string, spaces: string, rest: string)
    requires Lower(prefix) == GenreLabel && AllSpace(spaces) && spaces != []
    requires rest == [] || rest[0] == ','
    ensures UploadGenre(prefix + spaces + rest) == Some("")
    ensures !Truthy(UploadGenre(prefix + spaces + rest))
  {
    var s := prefix + spaces + rest;
    var j := |prefix|;
    assert s[..j] == prefix;
    assert LabelAt(s, GenreLabel, 0);
    SkipSpaceOver(s, j, j + |spaces|);
    assert s[j + |spaces| - 1] == spaces[|spaces| - 1];
  }

  /** The column positions found in a header row (-1 when absent). */
  datatype Columns = Columns(handle: int, title: int, vendor: int, tags: int)

  /** `headers.indexOf(name)`: the first exact match, or -1. */
  function FindColumn(headers: seq<string>, name: string): (r: int)
    ensures -1 <= r < |headers|
    ensures r >= 0 ==> headers[r] == name && name !in headers[..r]
    ensures r == -1 <==> name !in headers
  {
    if headers == [] then -1
    else if headers[0] == name then 0
    else
      var k := FindColumn(headers[1..], name);
      assert headers[1..][..if k < 0 then 0 else k] == headers[1..if k < 0 then 1 else k + 1];
      if k == -1 then -1 else k + 1
  }

  function UploadColumns(headers: seq<string>): Columns {
    Columns(FindColumn(headers, "Handle"), FindColumn(headers, "Title"),
            FindColumn(headers, "Vendor"), FindColumn(headers, "Tags"))
  }

  /** `values[i] || ''`: a missing cell (an index of -1 or past the end)
      reads as the empty string. */
  function Cell(values: seq<string>, i: int): string {
    if 0 <= i < |values| then values[i] else ""
  }

  /** The product an upload builds from one row's fields. */
  function UploadProduct(values: seq<string>, cols: Columns): Product {
    var tags := Cell(values, cols.tags);
    Product(Cell(values, cols.handle), Cell(values, cols.title), Cell(values, cols.vendor),
            UploadGenre(tags), UploadSubgenre(tags), UploadDecade(tags))
  }

  /** The products built from every data row of one file, before the
      duplicate-handle check. */
  function FileProducts(text: string): seq<Product>
  {
    var lines := Split(text, '\n');
    var cols := UploadColumns(Csv.Fields(lines[0]));
    seq(|lines| - 1, k requires 0 <= k < |lines| - 1 => UploadProduct(Csv.Fields(lines[k + 1]), cols))
  }

  function HandleOf(p: Product): string {
    p.handle
  }

  /** Without a `Handle` header, every row reads `values[-1]`, which is
      undefined and so falsy: the file adds no product and marks no handle
      as seen. */
  lemma NoHandleColumn(text: string, seen: set<string>)
    requires "Handle" !in Csv.Fields(Split(text, '\n')[0])
    ensures Seqs.KeepFirstFrom(FileProducts(text), HandleOf, seen) == []
    ensures Seqs.SeenAfter(FileProducts(text), HandleOf, seen) == seen
  {
    var lines := Split(text, '\n');
    var cols := UploadColumns(Csv.Fields(lines[0]));
    assert cols.handle == -1;
    var rows := FileProducts(text);
    forall i | 0 <= i < |rows| ensures HandleOf(rows[i]) == "" {
      assert rows[i] == UploadProduct(Csv.Fields(lines[i + 1]), cols);
    }
    Seqs.KeepFirstFromBlank(rows, HandleOf, seen);
  }

  /** The products of all files, in file order, before the duplicate check. */
  function AllFileProducts(files: seq<string>): seq<Product> {
    if files == [] then [] else FileProducts(files[0]) + AllFileProducts(files[1..])
  }

  lemma AllFileProductsSplit(files: seq<string>, f: nat)
    requires f < |files|
    ensures AllFileProducts(files[f..]) == FileProducts(files[f]) + AllFileProducts(files[f + 1..])
  {
    assert files[f..][1..] == files[f + 1..];
  }

  /** The rows of one file, read into `products` with the handles already
      seen. */
  method ReadCatalogFile(text: string, products0: seq<Product>, seen0: set<string>)
    returns (products: seq<Product>, seen: set<string>)
    ensures products == products0 + Seqs.KeepFirstFrom(FileProducts(text), HandleOf, seen0)
    ensures seen == Seqs.SeenAfter(FileProducts(text), HandleOf, seen0)
  {
    products, seen := products0, seen0;
    var lines := Split(text, '\n');
    var headers := Csv.ParseCsvLine(lines[0]);
    var cols := UploadColumns(headers);
    ghost var rows := FileProducts(text);
    assert rows[0..] == rows;
    for i := 1 to |lines|
      invariant products0 + Seqs.KeepFirstFrom(rows, HandleOf, seen0)
             == products + Seqs.KeepFirstFrom(rows[i - 1..], HandleOf, seen)
      invariant Seqs.SeenAfter(rows, HandleOf, seen0) == Seqs.SeenAfter(rows[i - 1..], HandleOf, seen)
    {
      var values := Csv.ParseCsvLine(lines[i]);
      var product := UploadProduct(values, cols);
      assert product == rows[i - 1];
      Seqs.KeepFirstStep(rows, HandleOf, i - 1, products, seen);
      var handle := product.handle;
      if handle == "" || handle in seen {
      } else {
        seen := seen + {handle};
        products := products + [product];
      }
    }
  }

  /** The upload loop: reads every file and keeps the first row of each
      non-empty handle. */
  method ReadCatalogFiles(files: seq<string>) returns (products: seq<Product>)
    ensures products == Seqs.KeepFirst(AllFileProducts(files), HandleOf)
  {
    products := [];
    var seen: set<string> := {};
    ghost var all := AllFileProducts(files);
    assert files[0..] == files;
    for f := 0 to |files|
      invariant products + Seqs.KeepFirstFrom(AllFileProducts(files[f..]), HandleOf, seen)
             == Seqs.KeepFirst(all, HandleOf)
    {
      ghost var rows := FileProducts(files[f]);
      ghost var later := AllFileProducts(files[f + 1..]);
      ghost var before := products;
      AllFileProductsSplit(files, f);
      Seqs.KeepFirstFromAppend(rows, later, HandleOf, seen);
      ghost var kept := Seqs.KeepFirstFrom(rows, HandleOf, seen);
      products, seen := ReadCatalogFile(files[f], products, seen);
      ghost var tail := Seqs.KeepFirstFrom(later, HandleOf, seen);
      assert products == before + kept;
      Seqs.AppendAssoc(before, kept, tail);
    }
    assert files[|files|..] == [];
  }
}
