/**
 * What the seeding script (database/seed.js) makes of a feed file, as values: JavaScript
 * `parseInt`, the mapping of a CSV row to an indicator record, the line filter, and the sequence of
 * rows the seed loop pushes.
 */
module FeedRows {
  import opened Wrappers
  import opened Strings
  import opened CsvLine

  /** The value of `c` as a digit of base 36, or 36 when it is not a digit at all. */
  function DigitValue(c: char): nat
  {
    if '0' <= c <= '9' then c as nat - '0' as nat
    else if 'a' <= c <= 'z' then c as nat - 'a' as nat + 10
    else if 'A' <= c <= 'Z' then c as nat - 'A' as nat + 10
    else 36
  }

  /** Length of the longest prefix of `s` made of digits of the given radix. */
  function DigitRun(s: string, radix: nat): (n: nat)
    ensures n <= |s|
    ensures forall i :: 0 <= i < n ==> DigitValue(s[i]) < radix
    ensures n < |s| ==> DigitValue(s[n]) >= radix
  {
    if |s| == 0 || DigitValue(s[0]) >= radix then 0 else 1 + DigitRun(s[1..], radix)
  }

  /** The number a digit string denotes in base 16 when `radix` is 16, in base 10 otherwise. */
  function ValueIn(digits: string, radix: nat): nat
  {
    if |digits| == 0 then 0
    else
      var high := ValueIn(digits[..|digits| - 1], radix);
      (if radix == 16 then 16 * high else 10 * high) + DigitValue(digits[|digits| - 1])
  }

  /**
   * The unsigned part of `parseInt`: a "0x" or "0X" prefix selects base 16, otherwise base 10, and
   * the longest run of digits is read; None when there is none.
   */
  function ParseMagnitude(u: string): (r: Option<nat>)
  {
    var hex := |u| >= 2 && u[0] == '0' && (u[1] == 'x' || u[1] == 'X');
    var radix := if hex then 16 else 10;
    var body := if hex then u[2..] else u;
    var n := DigitRun(body, radix);
    if n == 0 then None else Some(ValueIn(body[..n], radix))
  }

  /**
   * JavaScript `parseInt(s)` without a radix, None standing for NaN: leading white space and one
   * sign are skipped before the magnitude is read.
   */
  function ParseInt(s: string): (r: Option<int>)
  {
    ParseSigned(TrimStart(s))
  }

  /** `parseInt` after the leading white space: one optional sign, then the magnitude. */
  function ParseSigned(t: string): (r: Option<int>)
  {
    var negative := |t| > 0 && t[0] == '-';
    var u := if |t| > 0 && (t[0] == '-' || t[0] == '+') then t[1..] else t;
    match ParseMagnitude(u)
    case None => None
    case Some(n) => if negative then Some(-(n as int)) else Some(n as int)
  }

  /** `parseInt(v) || 0`: NaN and zero both fall back to 0. */
  function Confidence(v: string): int
  {
    match ParseInt(v)
    case None => 0
    case Some(n) => n
  }

  predicate IsDecimal(d: string)
  {
    forall i :: 0 <= i < |d| ==> '0' <= d[i] <= '9'
  }

  lemma TrimStartKeeps(s: string)
    requires s == [] || !IsSpace(s[0])
    ensures TrimStart(s) == s
  {
  }

  lemma {:induction false} DigitRunDecimal(d: string, rest: string)
    requires IsDecimal(d)
    requires rest == [] || DigitValue(rest[0]) >= 10
    ensures DigitRun(d + rest, 10) == |d|
    ensures (d + rest)[..|d|] == d
  {
    if |d| > 0 {
      assert (d + rest)[1..] == d[1..] + rest;
      DigitRunDecimal(d[1..], rest);
    } else {
      assert d + rest == rest;
    }
  }

  lemma MagnitudeDecimal(d: string, rest: string)
    requires |d| >= 1 && IsDecimal(d)
    requires rest == [] || DigitValue(rest[0]) == 36
    ensures ParseMagnitude(d + rest) == Some(ValueIn(d, 10))
  {
    var s := d + rest;
    DigitRunDecimal(d, rest);
    assert !(|s| >= 2 && s[0] == '0' && (s[1] == 'x' || s[1] == 'X')) by {
      if |s| >= 2 && s[0] == '0' {
        if |d| >= 2 {
          assert s[1] == d[1];
        } else {
          assert s[1] == rest[0];
        }
      }
    }
  }

  /** Text that starts with a digit is read from its first character. */
  lemma UnsignedNumeral(u: string, n: nat)
    requires |u| >= 1 && DigitValue(u[0]) < 10
    requires ParseMagnitude(u) == Some(n)
    ensures ParseInt(u) == Some(n)
  {
    TrimStartKeeps(u);
    assert u[0] != '-' && u[0] != '+';
    assert ParseSigned(u) == Some(n);
  }

  /** A minus sign in front of a numeral negates it. */
  lemma NegatedNumeral(u: string, n: nat)
    requires |u| >= 1 && DigitValue(u[0]) < 10
    requires ParseMagnitude(u) == Some(n)
    ensures ParseInt(['-'] + u) == Some(-(n as int))
  {
    var m := ['-'] + u;
    assert m[0] == '-' && m[1..] == u;
    TrimStartKeeps(m);
    assert ParseSigned(m) == Some(-(n as int));
  }

  /**
   * A decimal numeral followed by nothing or by a character that is neither a letter nor a digit
   * parses to its value, and so does the confidence cell holding it: the tail is ignored.
   */
  lemma ParseIntDecimal(d: string, rest: string)
    requires |d| >= 1 && IsDecimal(d)
    requires rest == [] || DigitValue(rest[0]) == 36
    ensures ParseInt(d + rest) == Some(ValueIn(d, 10))
    ensures Confidence(d + rest) == ValueIn(d, 10)
  {
    MagnitudeDecimal(d, rest);
    assert (d + rest)[0] == d[0];
    UnsignedNumeral(d + rest, ValueIn(d, 10));
  }

  /** A numeric cell is read as its value. */
  lemma ConfidenceOfNumeral()
    ensures Confidence("75") == 75
  {
    assert ValueIn("75", 10) == 75 by {
      assert "75"[..1] == "7" && "7"[..0] == "";
    }
    assert Confidence("75" + "") == ValueIn("75", 10) by {
      ParseIntDecimal("75", "");
    }
    assert "75" + "" == "75";
  }

  /** A cell without digits is NaN, which `|| 0` turns into 0; so is the empty cell. */
  lemma ConfidenceOfText()
    ensures Confidence("abc") == 0
    ensures Confidence("") == 0
  {
    TrimStartKeeps("abc");
    TrimStartKeeps("");
    assert DigitRun("abc", 10) == 0;
  }

  /** A "0x" prefix switches `parseInt` to base 16. */
  lemma ConfidenceOfHex()
    ensures Confidence("0x1F") == 31
  {
    HexMagnitude();
    UnsignedNumeral("0x1F", 31);
  }

  /** After the "0x" prefix, "1F" is read in base 16. */
  lemma HexMagnitude()
    ensures ParseMagnitude("0x1F") == Some(31)
  {
    var h := "0x1F";
    assert h[2..] == "1F";
    assert DigitRun("1F", 16) == 2 by {
      assert "1F"[1..] == "F" && "F"[1..] == "";
    }
    assert "1F"[..2] == "1F";
    assert ValueIn("1F", 16) == 31 by {
      assert "1F"[..1] == "1" && "1"[..0] == "";
    }
  }

  /** The columns `bulkCreate` receives for one CSV row; dates stay the text `new Date` would parse. */
  datatype SeedRow = SeedRow(
    ioc_id: string,
    ioc_value: string,
    threat_type: string,
    malware: Option<string>,
    malware_printable: string,
    confidence_level: int,
    first_seen_utc: Option<string>,
    last_seen_utc: Option<string>,
    reference: Option<string>,
    tags: Option<string>,
    reporter: string)

  /** The feeds write "None" for an empty optional column; it is stored as NULL. */
  function NoneAsNull(v: string): (r: Option<string>)
    ensures r.None? <==> v == "None"
    ensures r.Some? ==> r.value == v
  {
    if v == "None" then None else Some(v)
  }

  /** `parseDate`: the empty cell is NULL. */
  function ParseDate(v: string): (r: Option<string>)
    ensures r.None? <==> v == []
    ensures r.Some? ==> r.value == v
  {
    if v == [] then None else Some(v)
  }

  /** Column positions of the feed files. */
  function MapRow(values: seq<string>): (r: SeedRow)
    requires |values| >= 14
    ensures r.malware.None? <==> values[5] == "None"
    ensures r.reference.None? <==> values[10] == "None"
    ensures r.tags.None? <==> values[11] == "None"
    ensures r.first_seen_utc.None? <==> values[0] == []
    ensures r.last_seen_utc.None? <==> values[8] == []
  {
    SeedRow(
      ioc_id := values[1],
      ioc_value := values[2],
      threat_type := values[4],
      malware := NoneAsNull(values[5]),
      malware_printable := values[7],
      confidence_level := Confidence(values[9]),
      first_seen_utc := ParseDate(values[0]),
      last_seen_utc := ParseDate(values[8]),
      reference := NoneAsNull(values[10]),
      tags := NoneAsNull(values[11]),
      reporter := values[13])
  }

  /** Every text column of a seeded row is trimmed and free of quote characters. */
  lemma SeedRowClean(line: string)
    requires |CsvFields(line)| >= 14
    ensures var r := MapRow(CsvFields(line));
      && IsTrimmed(r.ioc_id) && '"' !in r.ioc_id
      && IsTrimmed(r.ioc_value) && '"' !in r.ioc_value
      && IsTrimmed(r.threat_type) && '"' !in r.threat_type
      && IsTrimmed(r.reporter) && '"' !in r.reporter
  {
    CsvFieldsClean(line);
  }

  // ---------------------------------------------------------------- lines and rows

  /** The filter on the file's lines: not blank and not a comment. */
  predicate KeepLine(line: string)
  {
    Trim(line) != [] && !StartsWith(line, "#")
  }

  function KeepLines(lines: seq<string>): (r: seq<string>)
    ensures forall k :: 0 <= k < |r| ==> KeepLine(r[k]) && r[k] in lines
    ensures forall l :: l in lines && KeepLine(l) ==> l in r
  {
    if |lines| == 0 then []
    else
      var rest := KeepLines(lines[1..]);
      assert forall l :: l in lines[1..] ==> l in lines;
      if KeepLine(lines[0]) then [lines[0]] + rest else rest
  }

  /** Filtering distributes over concatenation, so kept lines stay in their file order. */
  lemma {:induction false} KeepLinesAppend(a: seq<string>, b: seq<string>)
    ensures KeepLines(a + b) == KeepLines(a) + KeepLines(b)
  {
    if a == [] {
      assert a + b == b;
    } else {
      assert (a + b)[1..] == a[1..] + b;
      KeepLinesAppend(a[1..], b);
      var head := if KeepLine(a[0]) then [a[0]] else [];
      assert KeepLines(a + b) == head + (KeepLines(a[1..]) + KeepLines(b));
    }
  }

  /** A single line is kept exactly when it is neither blank nor a comment. */
  lemma KeepLinesSingle(l: string)
    ensures KeepLines([l]) == if KeepLine(l) then [l] else []
  {
    assert [l][1..] == [];
  }

  /** `content.split('\n').filter(...)`. */
  function DataLines(content: string): seq<string>
  {
    KeepLines(Split(content, '\n'))
  }

  /** The row a line contributes: none when it has fewer than 14 fields. */
  function RowOf(line: string): seq<SeedRow>
  {
    var values := CsvFields(line);
    if |values| < 14 then [] else [MapRow(values)]
  }

  /** The rows of lines 1 .. n-1 (line 0 is the header). */
  function RowsOf(lines: seq<string>, n: nat): seq<SeedRow>
    requires n <= 1 || n <= |lines|
  {
    if n <= 1 then [] else RowsOf(lines, n - 1) + RowOf(lines[n - 1])
  }

  /** Every row the seed loop pushes for the lines that survive the filter. */
  function Records(lines: seq<string>): seq<SeedRow>
  {
    if |lines| <= 1 then [] else RowsOf(lines, |lines|)
  }

  /** Once the loop has passed every line, the rows it pushed are all the records. */
  lemma RecordsAt(lines: seq<string>, i: nat)
    requires 1 <= i && (i == 1 || i <= |lines|) && i >= |lines|
    ensures RowsOf(lines, i) == Records(lines)
  {
    if |lines| > 1 {
      assert i == |lines|;
    }
  }

  /** Every row the seed loop pushes for the given file content. */
  function SeedRows(content: string): seq<SeedRow>
  {
    Records(DataLines(content))
  }

  /** The rows do not depend on the header line. */
  lemma {:induction false} HeaderIgnored(a: seq<string>, b: seq<string>, n: nat)
    requires n <= |a| && n <= |b|
    requires forall i :: 1 <= i < n ==> a[i] == b[i]
    ensures RowsOf(a, n) == RowsOf(b, n)
  {
    if n > 1 {
      HeaderIgnored(a, b, n - 1);
    }
  }

  /** Each pushed row comes from a data line with at least 14 fields. */
  lemma {:induction false} RowsFromLongLines(lines: seq<string>, n: nat)
    requires n <= 1 || n <= |lines|
    ensures |RowsOf(lines, n)| <= n
    ensures forall r :: r in RowsOf(lines, n) ==>
      exists i :: 1 <= i < n && |CsvFields(lines[i])| >= 14 && r == MapRow(CsvFields(lines[i]))
  {
    if n > 1 {
      RowsFromLongLines(lines, n - 1);
    }
  }

  /** One more line read: its row, if any, is appended. */
  lemma RowsOfNext(lines: seq<string>, i: nat, values: seq<string>)
    requires 1 <= i < |lines|
    requires values == CsvFields(lines[i])
    ensures RowsOf(lines, i + 1) == RowsOf(lines, i) + (if |values| < 14 then [] else [MapRow(values)])
  {
  }

  /** The rows of consecutive batches, in order. */
  function Flatten(batches: seq<seq<SeedRow>>): seq<SeedRow>
  {
    if |batches| == 0 then [] else Flatten(batches[..|batches| - 1]) + batches[|batches| - 1]
  }

  lemma FlattenSnoc(batches: seq<seq<SeedRow>>, batch: seq<SeedRow>)
    ensures Flatten(batches + [batch]) == Flatten(batches) + batch
  {
    assert (batches + [batch])[..|batches|] == batches;
  }
}
