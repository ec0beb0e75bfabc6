/**
 * The three IOC tables' schemas (database/models/Sha256.js, Url.js, IpPort.js). The tables have
 * the same columns and constraints and differ only in the format rule on `ioc_value`, so they are
 * one record type and one validator, parameterised by the Kind of indicator.
 */
module IocModels {
  import opened Wrappers
  import opened Strings

  datatype Kind = Sha256 | Url | IpPort

  /** The Sequelize model name, which prefixes not-null messages. */
  function ModelName(k: Kind): string
  {
    match k
    case Sha256 => "Sha256"
    case Url => "Url"
    case IpPort => "IpPort"
  }

  /** The 404 message of each router. */
  function NotFoundMessage(k: Kind): string
  {
    match k
    case Sha256 => "SHA256 hash not found"
    case Url => "URL not found"
    case IpPort => "IP:Port combination not found"
  }

  /** One property of a JSON request body: missing, explicitly `null`, or given. */
  datatype Field<T> = Absent | Null | Given(value: T)

  /**
   * A request body for create or update. Timestamps are integers (dates are not modelled);
   * properties that are not columns, and a body-supplied `id`, are not modelled.
   */
  datatype Payload = Payload(
    ioc_id: Field<string>,
    ioc_value: Field<string>,
    threat_type: Field<string>,
    malware: Field<string>,
    malware_printable: Field<string>,
    confidence_level: Field<int>,
    first_seen_utc: Field<int>,
    last_seen_utc: Field<int>,
    reference: Field<string>,
    tags: Field<string>,
    reporter: Field<string>)

  /** A row, as a model instance holds it: every column may be NULL until validation says otherwise. */
  datatype Ioc = Ioc(
    id: nat,
    ioc_id: Option<string>,
    ioc_value: Option<string>,
    threat_type: Option<string>,
    malware: Option<string>,
    malware_printable: Option<string>,
    confidence_level: Option<int>,
    first_seen_utc: Option<int>,
    last_seen_utc: Option<int>,
    reference: Option<string>,
    tags: Option<string>,
    reporter: Option<string>)

  /** The column value a body property sets: `null` and a missing property both give NULL. */
  function FieldValue<T>(f: Field<T>): Option<T>
  {
    match f
    case Given(v) => Some(v)
    case _ => None
  }

  /** One column under `instance.update(body)`: a missing property leaves the column alone. */
  function Apply<T>(current: Option<T>, f: Field<T>): (r: Option<T>)
    ensures f.Absent? ==> r == current
    ensures f.Null? ==> r == None
    ensures f.Given? ==> r == Some(f.value)
  {
    if f.Absent? then current else FieldValue(f)
  }

  /** `instance.update(body)` before validation: only the columns the body names change. */
  function Patch(rec: Ioc, p: Payload): (r: Ioc)
    ensures r.id == rec.id
  {
    Ioc(rec.id,
      Apply(rec.ioc_id, p.ioc_id),
      Apply(rec.ioc_value, p.ioc_value),
      Apply(rec.threat_type, p.threat_type),
      Apply(rec.malware, p.malware),
      Apply(rec.malware_printable, p.malware_printable),
      Apply(rec.confidence_level, p.confidence_level),
      Apply(rec.first_seen_utc, p.first_seen_utc),
      Apply(rec.last_seen_utc, p.last_seen_utc),
      Apply(rec.reference, p.reference),
      Apply(rec.tags, p.tags),
      Apply(rec.reporter, p.reporter))
  }

  /** A row with every column NULL. */
  function Blank(id: nat): Ioc
  {
    Ioc(id, None, None, None, None, None, None, None, None, None, None, None)
  }

  /** `Model.create(body)` before validation: the row with the generated id and the body's columns. */
  function Build(id: nat, p: Payload): (r: Ioc)
    ensures r == Patch(Blank(id), p)
  {
    Ioc(id, FieldValue(p.ioc_id), FieldValue(p.ioc_value), FieldValue(p.threat_type),
      FieldValue(p.malware), FieldValue(p.malware_printable), FieldValue(p.confidence_level),
      FieldValue(p.first_seen_utc), FieldValue(p.last_seen_utc), FieldValue(p.reference),
      FieldValue(p.tags), FieldValue(p.reporter))
  }

  /** Updating twice with the same body is the same as updating once. */
  lemma PatchIdempotent(rec: Ioc, p: Payload)
    ensures Patch(Patch(rec, p), p) == Patch(rec, p)
  {
  }

  // ---------------------------------------------------------------- value formats

  /** A character of the class `[a-f0-9]` under the `i` flag. */
  predicate IsHexDigit(c: char)
  {
    ('0' <= c <= '9') || ('a' <= c <= 'f') || ('A' <= c <= 'F')
  }

  /** `/^[a-f0-9]{64}$/i`: exactly 64 hexadecimal digits, either case. */
  predicate IsSha256Value(v: string)
  {
    |v| == 64 && forall i :: 0 <= i < |v| ==> IsHexDigit(v[i])
  }

  /** `\d{lo,hi}` as a whole string. */
  predicate IsDigits(s: string, lo: nat, hi: nat)
  {
    lo <= |s| <= hi && forall i :: 0 <= i < |s| ==> '0' <= s[i] <= '9'
  }

  /**
   * `/^(\d{1,3}\.){3}\d{1,3}:\d{1,5}$/`: four dot-separated groups of one to three digits, a colon,
   * and one to five digits. Digits never contain '.' or ':', so matching the pattern is the same
   * as splitting at those characters and checking the pieces.
   */
  predicate IsIpPortValue(v: string)
  {
    var halves := Split(v, ':');
    && |halves| == 2
    && IsDigits(halves[1], 1, 5)
    && var octets := Split(halves[0], '.');
       |octets| == 4 && forall k :: 0 <= k < 4 ==> IsDigits(octets[k], 1, 3)
  }

  /** The `ioc_value` rule of each table; `isUrl` is validator.js's predicate, left abstract. */
  predicate ValueFormatOk(kind: Kind, isUrl: string -> bool, v: string)
  {
    match kind
    case Sha256 => IsSha256Value(v)
    case Url => isUrl(v)
    case IpPort => IsIpPortValue(v)
  }

  // ---------------------------------------------------------------- validation

  /** One failed check: a NOT NULL column left NULL, or a named validator that rejected a value. */
  datatype Violation = NotNull(field: string) | Failed(validator: string, field: string)

  /** Sequelize's default message for a failed check. */
  function ViolationMessage(kind: Kind, v: Violation): string
  {
    match v
    case NotNull(f) => ModelName(kind) + "." + f + " cannot be null"
    case Failed(validator, f) => "Validation " + validator + " on " + f + " failed"
  }

  function Messages(kind: Kind, vs: seq<Violation>): (r: seq<string>)
    ensures |r| == |vs|
    ensures forall i :: 0 <= i < |vs| ==> r[i] == ViolationMessage(kind, vs[i])
  {
    if vs == [] then [] else [ViolationMessage(kind, vs[0])] + Messages(kind, vs[1..])
  }

  /**
   * The columns that carry checks, each flagged when a save validates it. A create validates
   * every column; an update only those whose value it changes.
   */
  datatype Columns = Columns(
    ioc_id: bool,
    ioc_value: bool,
    threat_type: bool,
    confidence_level: bool,
    first_seen_utc: bool,
    reporter: bool)

  const AllColumns := Columns(true, true, true, true, true, true)

  /** The checked columns whose value differs between `before` and `after`. */
  function ChangedColumns(before: Ioc, after: Ioc): Columns
  {
    Columns(
      before.ioc_id != after.ioc_id,
      before.ioc_value != after.ioc_value,
      before.threat_type != after.threat_type,
      before.confidence_level != after.confidence_level,
      before.first_seen_utc != after.first_seen_utc,
      before.reporter != after.reporter)
  }

  /** The checks of the columns in `cols` all pass. */
  predicate ValidIn(kind: Kind, isUrl: string -> bool, rec: Ioc, cols: Columns)
  {
    && (cols.ioc_id ==> rec.ioc_id.Some?)
    && (cols.ioc_value ==> rec.ioc_value.Some? && ValueFormatOk(kind, isUrl, rec.ioc_value.value))
    && (cols.threat_type ==> rec.threat_type.Some?)
    && (cols.confidence_level ==> rec.confidence_level.Some? && 0 <= rec.confidence_level.value <= 100)
    && (cols.first_seen_utc ==> rec.first_seen_utc.Some?)
    && (cols.reporter ==> rec.reporter.Some?)
  }

  /** A row the schema accepts (uniqueness of `ioc_id` is a property of the table, not of one row). */
  predicate IsValid(kind: Kind, isUrl: string -> bool, rec: Ioc)
  {
    ValidIn(kind, isUrl, rec, AllColumns)
  }

  /** `allowNull: false` on a checked column. */
  function NotNullCheck<T>(checked: bool, field: string, v: Option<T>): (r: seq<Violation>)
    ensures r != [] <==> checked && v.None?
    ensures forall x :: x in r ==> x == NotNull(field)
  {
    if checked && v.None? then [NotNull(field)] else []
  }

  /** The validators of `ioc_value` on a non-NULL value, in the order the schema lists them. */
  function ValueViolations(kind: Kind, isUrl: string -> bool, v: string): (r: seq<Violation>)
    ensures r == [] <==> ValueFormatOk(kind, isUrl, v)
    ensures forall x :: x in r ==> x.Failed?
  {
    match kind
    case Sha256 =>
      (if |v| != 64 then [Failed("len", "ioc_value")] else [])
      + (if !IsSha256Value(v) then [Failed("is", "ioc_value")] else [])
    case Url => if !isUrl(v) then [Failed("isUrl", "ioc_value")] else []
    case IpPort => if !IsIpPortValue(v) then [Failed("is", "ioc_value")] else []
  }

  /** `min: 0, max: 100` on a non-NULL confidence level. */
  function ConfidenceViolations(c: int): (r: seq<Violation>)
    ensures r == [] <==> 0 <= c <= 100
    ensures forall x :: x in r ==> x.Failed?
  {
    (if c < 0 then [Failed("min", "confidence_level")] else [])
    + (if c > 100 then [Failed("max", "confidence_level")] else [])
  }

  /** The NOT NULL failures among the checked columns, in declaration order. */
  function NullViolations(rec: Ioc, cols: Columns): (r: seq<Violation>)
    ensures forall x :: x in r ==> x.NotNull?
    ensures r == [] <==>
      && (cols.ioc_id ==> rec.ioc_id.Some?)
      && (cols.ioc_value ==> rec.ioc_value.Some?)
      && (cols.threat_type ==> rec.threat_type.Some?)
      && (cols.confidence_level ==> rec.confidence_level.Some?)
      && (cols.first_seen_utc ==> rec.first_seen_utc.Some?)
      && (cols.reporter ==> rec.reporter.Some?)
  {
    NotNullCheck(cols.ioc_id, "ioc_id", rec.ioc_id)
    + NotNullCheck(cols.ioc_value, "ioc_value", rec.ioc_value)
    + NotNullCheck(cols.threat_type, "threat_type", rec.threat_type)
    + NotNullCheck(cols.confidence_level, "confidence_level", rec.confidence_level)
    + NotNullCheck(cols.first_seen_utc, "first_seen_utc", rec.first_seen_utc)
    + NotNullCheck(cols.reporter, "reporter", rec.reporter)
  }

  /** The failures of the named validators of the checked, non-NULL columns, in declaration order. */
  function ValidatorViolations(kind: Kind, isUrl: string -> bool, rec: Ioc, cols: Columns): (r: seq<Violation>)
    ensures forall x :: x in r ==> x.Failed?
    ensures r == [] <==>
      && (cols.ioc_value && rec.ioc_value.Some? ==> ValueFormatOk(kind, isUrl, rec.ioc_value.value))
      && (cols.confidence_level && rec.confidence_level.Some? ==> 0 <= rec.confidence_level.value <= 100)
  {
    (if cols.ioc_value && rec.ioc_value.Some? then ValueViolations(kind, isUrl, rec.ioc_value.value) else [])
    + (if cols.confidence_level && rec.confidence_level.Some? then ConfidenceViolations(rec.confidence_level.value) else [])
  }

  /**
   * Every check a save makes on the columns in `cols`. The NOT NULL failures are recorded while
   * the columns are walked, the named validators' failures once they have all run, so every
   * NOT NULL failure comes first. A NULL in a NOT NULL column skips that column's validators;
   * NULL in a nullable column is never a violation.
   */
  function Violations(kind: Kind, isUrl: string -> bool, rec: Ioc, cols: Columns): (r: seq<Violation>)
    ensures r == [] <==> ValidIn(kind, isUrl, rec, cols)
    ensures forall i, j :: 0 <= i < j < |r| && r[j].NotNull? ==> r[i].NotNull?
    ensures cols.ioc_value && rec.ioc_value.None? ==> NotNull("ioc_value") in r
    ensures cols.confidence_level && rec.confidence_level.Some? && rec.confidence_level.value < 0 ==>
      Failed("min", "confidence_level") in r
    ensures cols.confidence_level && rec.confidence_level.Some? && rec.confidence_level.value > 100 ==>
      Failed("max", "confidence_level") in r
  {
    var nulls := NullViolations(rec, cols);
    var failures := ValidatorViolations(kind, isUrl, rec, cols);
    var r := nulls + failures;
    NullsFirst(nulls, failures);
    assert cols.ioc_value && rec.ioc_value.None? ==> r[|NotNullCheck(cols.ioc_id, "ioc_id", rec.ioc_id)|] == NotNull("ioc_value");
    r
  }

  /** NOT NULL failures followed by validator failures: no NOT NULL failure follows a validator failure. */
  lemma NullsFirst(nulls: seq<Violation>, failures: seq<Violation>)
    requires forall x :: x in nulls ==> x.NotNull?
    requires forall x :: x in failures ==> x.Failed?
    ensures forall i, j :: 0 <= i < j < |nulls + failures| && (nulls + failures)[j].NotNull? ==> (nulls + failures)[i].NotNull?
  {
    var r := nulls + failures;
    forall k | |nulls| <= k < |r| ensures r[k].Failed? {
      assert r[k] == failures[k - |nulls|] && failures[k - |nulls|] in failures;
    }
    forall i, j | 0 <= i < j < |r| && r[j].NotNull? ensures r[i].NotNull? {
      assert r[i] == nulls[i] && nulls[i] in nulls;
    }
  }

  /**
   * An update of a valid row: validating only the columns it changes reports exactly what
   * validating every column would, since the unchanged columns passed before.
   */
  lemma ChangedColumnsSuffice(kind: Kind, isUrl: string -> bool, before: Ioc, after: Ioc)
    requires IsValid(kind, isUrl, before)
    ensures Violations(kind, isUrl, after, ChangedColumns(before, after)) == Violations(kind, isUrl, after, AllColumns)
    ensures ValidIn(kind, isUrl, after, ChangedColumns(before, after)) <==> IsValid(kind, isUrl, after)
  {
    var cols := ChangedColumns(before, after);
    assert NullViolations(after, cols) == NullViolations(after, AllColumns);
    if !cols.ioc_value {
      assert ValueViolations(kind, isUrl, after.ioc_value.value) == [];
    }
    if !cols.confidence_level {
      assert ConfidenceViolations(after.confidence_level.value) == [];
    }
    assert ValidatorViolations(kind, isUrl, after, cols) == ValidatorViolations(kind, isUrl, after, AllColumns);
  }

  /** `c` repeated `n` times, as `c.repeat(n)`. */
  function Repeat(c: char, n: nat): (r: string)
    ensures |r| == n && forall i :: 0 <= i < n ==> r[i] == c
  {
    if n == 0 then [] else [c] + Repeat(c, n - 1)
  }

  /** "invalid" is rejected; 64 times 'a', or 'A' since the pattern ignores case, is accepted. */
  lemma Sha256Examples()
    ensures !IsSha256Value("invalid")
    ensures ValueViolations(Sha256, _ => true, "invalid") == [Failed("len", "ioc_value"), Failed("is", "ioc_value")]
    ensures IsSha256Value(Repeat('a', 64)) && IsSha256Value(Repeat('A', 64))
  {
  }

  /** Digits contain neither '.' nor ':'. */
  lemma DigitsHaveNoSeparator(s: string, lo: nat, hi: nat)
    requires IsDigits(s, lo, hi)
    ensures '.' !in s && ':' !in s
  {
    forall i | 0 <= i < |s| ensures s[i] != '.' && s[i] != ':' {
    }
  }

  /** The host part of an IP:port value splits into its four groups and has no colon. */
  lemma {:induction false} HostSplit(a: string, b: string, c: string, d: string)
    requires IsDigits(a, 1, 3) && IsDigits(b, 1, 3) && IsDigits(c, 1, 3) && IsDigits(d, 1, 3)
    ensures Split(a + "." + b + "." + c + "." + d, '.') == [a, b, c, d]
    ensures ':' !in a + "." + b + "." + c + "." + d
  {
    DigitsHaveNoSeparator(a, 1, 3);
    DigitsHaveNoSeparator(b, 1, 3);
    DigitsHaveNoSeparator(c, 1, 3);
    DigitsHaveNoSeparator(d, 1, 3);
    var parts := [a, b, c, d];
    assert parts[..3] == [a, b, c];
    assert [a, b, c][..2] == [a, b];
    assert [a, b][..1] == [a];
    assert Join([a], ".") == a;
    assert Join([a, b], ".") == a + "." + b;
    assert Join([a, b, c], ".") == a + "." + b + "." + c;
    assert Join(parts, ".") == a + "." + b + "." + c + "." + d;
    SplitJoin(parts, '.');
  }

  /** A host and a port without colons, joined by one colon, split back into the two. */
  lemma ColonSplit(host: string, port: string)
    requires ':' !in host && ':' !in port
    ensures Split(host + ":" + port, ':') == [host, port]
  {
    assert [host, port][..1] == [host];
    assert Join([host, port], ":") == host + ":" + port;
    SplitJoin([host, port], ':');
  }

  /** Four groups of one to three digits joined by dots, a colon and one to five digits form an IP:port value. */
  lemma {:induction false} IpPortOfParts(a: string, b: string, c: string, d: string, port: string)
    requires IsDigits(a, 1, 3) && IsDigits(b, 1, 3) && IsDigits(c, 1, 3) && IsDigits(d, 1, 3)
    requires IsDigits(port, 1, 5)
    ensures IsIpPortValue(a + "." + b + "." + c + "." + d + ":" + port)
  {
    HostSplit(a, b, c, d);
    DigitsHaveNoSeparator(port, 1, 5);
    ColonSplit(a + "." + b + "." + c + "." + d, port);
  }

  /** The shape the tests use is accepted. */
  lemma IpPortAcceptsTestValue()
    ensures IsIpPortValue("192.168.1.1:8080")
  {
    assert "192" + "." + "168" + "." + "1" + "." + "1" + ":" + "8080" == "192.168.1.1:8080" by { }
    IpPortOfParts("192", "168", "1", "1", "8080");
  }

  /** There is no numeric range check: groups above 255 and ports above 65535 pass. */
  lemma IpPortAcceptsOutOfRange()
    ensures IsIpPortValue("256.0.0.0:65536")
  {
    assert "256" + "." + "0" + "." + "0" + "." + "0" + ":" + "65536" == "256.0.0.0:65536" by { }
    IpPortOfParts("256", "0", "0", "0", "65536");
  }

  /** A value without a colon is rejected. */
  lemma IpPortRejectsWithoutColon(v: string)
    requires ':' !in v
    ensures !IsIpPortValue(v)
  {
    SplitPlain(v, ':');
  }

  /** The malformed values of the tests are rejected. */
  lemma IpPortRejectsTestValues()
    ensures !IsIpPortValue("invalid-ip-port") && !IsIpPortValue("no-port")
  {
    IpPortRejectsWithoutColon("invalid-ip-port");
    IpPortRejectsWithoutColon("no-port");
  }
}
