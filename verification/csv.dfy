/** The CSV line splitter shared by the tagging page and the audit page:
    a double quote toggles quoted mode and is dropped, a comma outside
    quotes ends a field, every field is trimmed. There is no escaped
    quote (`""` is two toggles). */
module Csv {
  import opened Text

  /** The untrimmed fields of `line`, read from quoted mode `inQuotes`. */
  function RawFields(line: string, inQuotes: bool): (r: seq<string>)
    ensures |r| >= 1
  {
    if line == [] then [""]
    else if line[0] == '"' then RawFields(line[1..], !inQuotes)
    else if line[0] == ',' && !inQuotes then [""] + RawFields(line[1..], inQuotes)
    else
      var rest := RawFields(line[1..], inQuotes);
      [[line[0]] + rest[0]] + rest[1..]
  }

  function TrimAll(fields: seq<string>): (r: seq<string>)
    ensures |r| == |fields|
  {
    if fields == [] then [] else [Trim(fields[0])] + TrimAll(fields[1..])
  }

  /** Each field is trimmed on its own. */
  lemma {:induction false} TrimAllAt(fields: seq<string>, k: nat)
    requires k < |fields|
    ensures TrimAll(fields)[k] == Trim(fields[k])
  {
    if k > 0 {
      TrimAllAt(fields[1..], k - 1);
    }
  }

  /** The fields `parseCSVLine` returns for `line`. */
  function Fields(line: string): seq<string> {
    TrimAll(RawFields(line, false))
  }

  /** The fields of a line whose finished fields are `done`, whose field
      being read holds `current`, and whose remaining text reads as `rest`. */
  function Glue(done: seq<string>, current: string, rest: seq<string>): seq<string>
    requires |rest| >= 1
  {
    done + [current + rest[0]] + rest[1..]
  }

  lemma GlueChar(done: seq<string>, current: string, c: char, rest: seq<string>)
    requires |rest| >= 1
    ensures Glue(done, current, [[c] + rest[0]] + rest[1..]) == Glue(done, current + [c], rest)
  {
    assert current + ([c] + rest[0]) == (current + [c]) + rest[0];
  }

  lemma GlueComma(done: seq<string>, current: string, rest: seq<string>)
    requires |rest| >= 1
    ensures Glue(done, current, [""] + rest) == Glue(done + [current], "", rest)
  {
    assert current + "" == current && "" + rest[0] == rest[0];
    assert ([""] + rest)[1..] == rest;
    assert rest == [rest[0]] + rest[1..];
  }

  lemma {:induction false} TrimAllSnoc(done: seq<string>, current: string)
    ensures TrimAll(done + [current]) == TrimAll(done) + [Trim(current)]
  {
    if done != [] {
      TrimAllSnoc(done[1..], current);
      assert (done + [current])[1..] == done[1..] + [current];
    } else {
      assert done + [current] == [current];
    }
  }

  /** Fields that are already trimmed are kept as they are. */
  lemma {:induction false} TrimAllFixed(fields: seq<string>)
    requires forall k :: 0 <= k < |fields| ==> Trim(fields[k]) == fields[k]
    ensures TrimAll(fields) == fields
  {
    if fields != [] {
      TrimAllFixed(fields[1..]);
    }
  }

  /** `parseCSVLine`, one character at a time. */
  method ParseCsvLine(line: string) returns (result: seq<string>)
    ensures result == Fields(line)
  {
    result := [];
    var current := "";
    var inQuotes := false;
    ghost var done: seq<string> := [];
    ghost var all := RawFields(line, false);
    assert line[0..] == line;
    assert "" + all[0] == all[0];
    assert all == [all[0]] + all[1..];
    for i := 0 to |line|
      invariant result == TrimAll(done)
      invariant Glue(done, current, RawFields(line[i..], inQuotes)) == all
    {
      var ch := line[i];
      ghost var rest := RawFields(line[i + 1..], inQuotes);
      assert line[i..][1..] == line[i + 1..];
      if ch == '"' {
        inQuotes := !inQuotes;
      } else if ch == ',' && !inQuotes {
        GlueComma(done, current, rest);
        TrimAllSnoc(done, current);
        result := result + [Trim(current)];
        done := done + [current];
        current := "";
      } else {
        GlueChar(done, current, ch, rest);
        current := current + [ch];
      }
    }
    assert line[|line|..] == [];
    assert done + [current] == all by {
      assert RawFields(line[|line|..], inQuotes) == [""];
      assert current + "" == current;
    }
    TrimAllSnoc(done, current);
    result := result + [Trim(current)];
  }

  /** The commas of `line` that are read outside quotes, starting in quoted
      mode `inQuotes`. */
  function UnquotedCommas(line: string, inQuotes: bool): nat
  {
    if line == [] then 0
    else if line[0] == '"' then UnquotedCommas(line[1..], !inQuotes)
    else if line[0] == ',' && !inQuotes then 1 + UnquotedCommas(line[1..], inQuotes)
    else UnquotedCommas(line[1..], inQuotes)
  }

  /** A line has one field more than it has commas outside quotes. */
  lemma {:induction false} FieldCount(line: string, inQuotes: bool)
    ensures |RawFields(line, inQuotes)| == UnquotedCommas(line, inQuotes) + 1
  {
    if line != [] {
      FieldCount(line[1..], if line[0] == '"' then !inQuotes else inQuotes);
    }
  }

  /** A line of white space only reads as a single empty field. */
  lemma {:induction false} BlankFields(line: string)
    requires AllSpace(line)
    ensures Fields(line) == [""]
  {
    BlankRawFields(line);
    assert Trim(line) == [];
  }

  lemma {:induction false} BlankRawFields(line: string)
    requires AllSpace(line)
    ensures RawFields(line, false) == [line]
  {
    if line != [] {
      assert AllSpace(line[1..]);
      BlankRawFields(line[1..]);
      assert line == [line[0]] + line[1..];
    }
  }

  /** Every double quote is consumed: no field holds one. */
  lemma {:induction false} NoQuoteInFields(line: string, inQuotes: bool)
    ensures forall k :: 0 <= k < |RawFields(line, inQuotes)| ==> '"' !in RawFields(line, inQuotes)[k]
  {
    if line != [] {
      NoQuoteInFields(line[1..], if line[0] == '"' then !inQuotes else inQuotes);
    }
  }

  /** The characters of `s` other than double quotes. */
  function Unquote(s: string): (r: string)
    ensures '"' !in r
  {
    if s == [] then [] else if s[0] == '"' then Unquote(s[1..]) else [s[0]] + Unquote(s[1..])
  }

  /** Joining the untrimmed fields with commas gives back the line without
      its quotes: nothing but quotes is lost. */
  lemma {:induction false} JoinRawFields(line: string, inQuotes: bool)
    ensures Join(RawFields(line, inQuotes), ',') == Unquote(line)
  {
    if line != [] {
      var q := if line[0] == '"' then !inQuotes else inQuotes;
      JoinRawFields(line[1..], q);
      var rest := RawFields(line[1..], q);
      if line[0] == '"' {
      } else if line[0] == ',' && !inQuotes {
        assert ([""] + rest)[1..] == rest;
      } else {
        var r := [[line[0]] + rest[0]] + rest[1..];
        assert r[1..] == rest[1..];
        if |rest| > 1 {
          assert rest == [rest[0]] + rest[1..];
          assert Join(rest, ',') == rest[0] + [','] + Join(rest[1..], ',');
        }
      }
    }
  }

  /** On a line without double quotes the fields are the pieces of
      `line.split(',')`. */
  lemma {:induction false} RawFieldsUnquoted(line: string)
    requires '"' !in line
    ensures RawFields(line, false) == Split(line, ',')
  {
    if line != [] {
      assert '"' !in line[1..];
      RawFieldsUnquoted(line[1..]);
      var rest := Split(line[1..], ',');
      if line[0] == ',' {
        SplitAfter("", ',', line[1..]);
        assert line == "" + [','] + line[1..];
      } else {
        SplitCons(line[0], line[1..], ',');
        assert line == [line[0]] + line[1..];
      }
    }
  }

  /** Inside quotes, a quote-free text (commas included) all goes into the
      current field. */
  lemma {:induction false} QuotedText(f: string, t: string)
    requires '"' !in f
    ensures var r := RawFields(t, true);
            RawFields(f + t, true) == [f + r[0]] + r[1..]
  {
    if f != [] {
      assert (f + t)[1..] == f[1..] + t;
      assert '"' !in f[1..];
      QuotedText(f[1..], t);
      var r := RawFields(t, true);
      assert [f[0]] + (f[1..] + r[0]) == f + r[0];
    } else {
      var r := RawFields(t, true);
      assert f + t == t && f + r[0] == r[0];
      assert r == [r[0]] + r[1..];
    }
  }

  /** A quote-free field in double quotes, then a comma: the field is read
      whole, and the rest of the line starts the next field. */
  lemma QuotedFieldThenComma(f: string, tail: string)
    requires '"' !in f
    ensures RawFields(['"'] + f + ['"'] + [','] + tail, false) == [f] + RawFields(tail, false)
  {
    var line := ['"'] + f + ['"'] + [','] + tail;
    assert line[1..] == f + (['"', ','] + tail);
    QuotedText(f, ['"', ','] + tail);
    assert (['"', ','] + tail)[1..] == [','] + tail;
    assert ([','] + tail)[1..] == tail;
    assert f + "" == f;
  }

  /** A quote-free field in double quotes, alone on the line. */
  lemma QuotedFieldAlone(f: string)
    requires '"' !in f
    ensures RawFields(['"'] + f + ['"'], false) == [f]
  {
    var q := ['"'] + f + ['"'];
    QuotedText(f, ['"']);
    assert RawFields(['"'], true) == RawFields([], false) == [""];
    assert q[1..] == f + ['"'];
    assert f + "" == f;
  }

  /** Wrapping each quote-free field in double quotes and joining with
      commas gives a line that reads back as exactly those fields, commas
      inside fields included. */
  lemma {:induction false} QuotedRoundTrip(fields: seq<string>)
    requires |fields| >= 1
    requires forall k :: 0 <= k < |fields| ==> '"' !in fields[k]
    ensures RawFields(Join(QuoteEach(fields), ','), false) == fields
  {
    var f := fields[0];
    var q := ['"'] + f + ['"'];
    if |fields| == 1 {
      assert Join(QuoteEach(fields), ',') == q;
      QuotedFieldAlone(f);
    } else {
      QuotedRoundTrip(fields[1..]);
      var tail := Join(QuoteEach(fields[1..]), ',');
      assert QuoteEach(fields)[1..] == QuoteEach(fields[1..]);
      assert Join(QuoteEach(fields), ',') == q + [','] + tail;
      QuotedFieldThenComma(f, tail);
      assert fields == [f] + fields[1..];
    }
  }

  /** `parseCSVLine` on such a line gives each field trimmed. */
  lemma QuotedFields(fields: seq<string>)
    requires |fields| >= 1
    requires forall k :: 0 <= k < |fields| ==> '"' !in fields[k]
    ensures Fields(Join(QuoteEach(fields), ',')) == TrimAll(fields)
  {
    QuotedRoundTrip(fields);
  }

  function QuoteEach(fields: seq<string>): (r: seq<string>)
    ensures |r| == |fields|
  {
    if fields == [] then [] else [['"'] + fields[0] + ['"']] + QuoteEach(fields[1..])
  }
}
