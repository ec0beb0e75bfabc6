/**
 * `parseCSVLine` of database/seed.js: a quote-toggling tokenizer that splits one line of a feed
 * file at the commas that are not inside double quotes and trims every field.
 */
module CsvLine {
  import opened Strings

  /** The tokenizer's variables: the finished fields, the field being read, and the quote flag. */
  datatype ScanState = ScanState(values: seq<string>, current: string, inQuotes: bool)

  /** One character of the tokenizer: a quote toggles, an unquoted comma ends a field. */
  function Step(st: ScanState, c: char): ScanState
  {
    if c == '"' then st.(inQuotes := !st.inQuotes)
    else if c == ',' && !st.inQuotes then ScanState(st.values + [Trim(st.current)], [], st.inQuotes)
    else st.(current := st.current + [c])
  }

  /** The tokenizer's state after reading all of `s`. */
  function Scan(s: string): ScanState
  {
    if |s| == 0 then ScanState([], [], false)
    else Step(Scan(s[..|s| - 1]), s[|s| - 1])
  }

  /** What `parseCSVLine` returns: the finished fields and the trimmed last one. */
  function CsvFields(line: string): seq<string>
  {
    var st := Scan(line);
    st.values + [Trim(st.current)]
  }

  /** `parseCSVLine(line)`. */
  method ParseCsvLine(line: string) returns (values: seq<string>)
    ensures values == CsvFields(line)
  {
    values := [];
    var current: string := [];
    var inQuotes := false;
    for i := 0 to |line|
      invariant ScanState(values, current, inQuotes) == Scan(line[..i])
    {
      assert line[..i + 1][..i] == line[..i];
      var c := line[i];
      if c == '"' {
        inQuotes := !inQuotes;
      } else if c == ',' && !inQuotes {
        values := values + [Trim(current)];
        current := [];
      } else {
        current := current + [c];
      }
    }
    assert line[..|line|] == line;
    values := values + [Trim(current)];
  }

  /** Number of double quotes in `s`. */
  function QuoteCount(s: string): nat
  {
    if |s| == 0 then 0
    else QuoteCount(s[..|s| - 1]) + (if s[|s| - 1] == '"' then 1 else 0)
  }

  /** After reading `s`, an odd number of quotes has been seen. */
  predicate InsideQuotes(s: string)
  {
    QuoteCount(s) % 2 == 1
  }

  /** Number of commas in `s` preceded by an even number of quotes. */
  function SeparatorCount(s: string): nat
  {
    if |s| == 0 then 0
    else SeparatorCount(s[..|s| - 1]) + (if s[|s| - 1] == ',' && !InsideQuotes(s[..|s| - 1]) then 1 else 0)
  }

  lemma {:induction false} ScanFacts(s: string)
    ensures Scan(s).inQuotes == InsideQuotes(s)
    ensures |Scan(s).values| == SeparatorCount(s)
    ensures '"' !in Scan(s).current
    ensures forall k :: 0 <= k < |Scan(s).values| ==> '"' !in Scan(s).values[k] && IsTrimmed(Scan(s).values[k])
  {
    if |s| > 0 {
      ScanFacts(s[..|s| - 1]);
      TrimFacts(Scan(s[..|s| - 1]).current);
    }
  }

  /** The result has one field more than there are commas outside quotes, so it is never empty. */
  lemma CsvFieldCount(line: string)
    ensures |CsvFields(line)| == SeparatorCount(line) + 1
  {
    ScanFacts(line);
  }

  /** Quotes only toggle the mode and never reach a field; every field is trimmed. */
  lemma CsvFieldsClean(line: string)
    ensures forall k :: 0 <= k < |CsvFields(line)| ==> '"' !in CsvFields(line)[k] && IsTrimmed(CsvFields(line)[k])
  {
    ScanFacts(line);
    TrimFacts(Scan(line).current);
  }

  /**
   * A run of characters without quotes, and without commas unless the tokenizer is inside quotes,
   * is appended to the current field unchanged.
   */
  lemma {:induction false} Run(p: string, s: string)
    requires forall i :: 0 <= i < |s| ==> s[i] != '"' && (s[i] != ',' || Scan(p).inQuotes)
    ensures Scan(p + s) == Scan(p).(current := Scan(p).current + s)
    decreases |s|
  {
    if |s| == 0 {
      assert p + s == p;
      assert Scan(p).current + s == Scan(p).current;
    } else {
      var s', c := s[..|s| - 1], s[|s| - 1];
      Run(p, s');
      assert (p + s)[..|p + s| - 1] == p + s';
      assert (p + s)[|p + s| - 1] == c;
      var st := Scan(p + s');
      assert Scan(p + s) == Step(st, c);
      assert Step(st, c) == st.(current := st.current + [c]);
      assert Scan(p).current + s' + [c] == Scan(p).current + s;
    }
  }

  /** A comma between a pair of quotes stays in the current field: the quoted text is copied verbatim. */
  lemma QuotedRegion(p: string, f: string)
    requires !Scan(p).inQuotes
    requires '"' !in f
    ensures Scan(p + ['"'] + f + ['"']) == Scan(p).(current := Scan(p).current + f)
  {
    assert (p + ['"'])[..|p|] == p;
    Run(p + ['"'], f);
    assert (p + ['"'] + f + ['"'])[..|p| + 1 + |f|] == p + ['"'] + f;
  }

  /** Lemma helper for the round trip: the state after reading a comma-join of plain fields. */
  lemma {:induction false} ScanJoin(fields: seq<string>)
    requires |fields| >= 1
    requires forall k :: 0 <= k < |fields| ==> '"' !in fields[k] && ',' !in fields[k] && IsTrimmed(fields[k])
    ensures Scan(Join(fields, ",")) == ScanState(fields[..|fields| - 1], fields[|fields| - 1], false)
  {
    var last := fields[|fields| - 1];
    assert forall i :: 0 <= i < |last| ==> last[i] in last;
    if |fields| == 1 {
      assert Scan([]) == ScanState([], [], false);
      Run([], last);
      assert [] + last == last;
    } else {
      var init := fields[..|fields| - 1];
      ScanJoin(init);
      var j := Join(init, ",");
      assert Join(fields, ",") == j + [','] + last;
      ScanComma(j, init);
      Run(j + [','], last);
    }
  }

  /** An unquoted comma after a trimmed field finishes it and starts an empty one. */
  lemma ScanComma(j: string, init: seq<string>)
    requires |init| >= 1 && IsTrimmed(init[|init| - 1])
    requires Scan(j) == ScanState(init[..|init| - 1], init[|init| - 1], false)
    ensures Scan(j + [',']) == ScanState(init, [], false)
  {
    var prev := init[|init| - 1];
    TrimFacts(prev);
    assert (j + [','])[..|j|] == j;
    assert init[..|init| - 1] + [prev] == init;
  }

  /** Plain fields (no quote, no comma, no surrounding white space) survive a comma-join and a parse. */
  lemma CsvRoundTrip(fields: seq<string>, line: string)
    requires |fields| >= 1
    requires forall k :: 0 <= k < |fields| ==> '"' !in fields[k] && ',' !in fields[k] && IsTrimmed(fields[k])
    requires line == Join(fields, ",")
    ensures CsvFields(line) == fields
  {
    var last := fields[|fields| - 1];
    var st := Scan(line);
    assert st == ScanState(fields[..|fields| - 1], last, false) by {
      ScanJoin(fields);
    }
    assert Trim(last) == last by {
      TrimFacts(last);
    }
    LastSplit(fields);
  }

  lemma LastSplit<T>(s: seq<T>)
    requires |s| >= 1
    ensures s[..|s| - 1] + [s[|s| - 1]] == s
  {
  }
}
