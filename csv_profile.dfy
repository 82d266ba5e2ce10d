/**
 * The layout of a depth profile as a CSV table: one "Date" column followed by one column per
 * constituent, headed `parameter(unit)`, and one row per depth. Dates are opaque values and
 * data values are exact reals; the CSV and date text formats themselves are not modelled.
 */
module CsvProfile {
  import opened Wrappers
  import opened JavaStrings
  import opened Streams

  /** A zoned date-time, kept opaque: the layout only copies it. */
  datatype ZonedDateTime = ZonedDateTime(isoText: string)

  /** A boxed `Double`; `None` is Java's null. */
  type BoxedDouble = Option<real>

  datatype ProfileConstituentData = ProfileConstituentData(parameter: string, dataValues: seq<BoxedDouble>, unit: string)

  datatype ProfileSample = ProfileSample(dateTime: ZonedDateTime, constituentDataList: seq<ProfileConstituentData>)

  /** One CSV row: its date and its values keyed by column header. */
  datatype CsvProfileRow = CsvProfileRow(date: ZonedDateTime, parameterValues: map<string, real>)

  /** The exceptions the layout code can raise. */
  datatype CsvFault = IndexOutOfBounds | NullPointer | StringIndexOutOfBounds

  const DATE_HEADER: string := "Date"

  /** A constituent's column header. */
  function Header(c: ProfileConstituentData): string {
    c.parameter + "(" + c.unit + ")"
  }

  /** The header row: "Date", then one header per constituent, in order. */
  function BuildHeaders(sample: ProfileSample): (r: seq<string>)
    ensures |r| == 1 + |sample.constituentDataList|
    ensures r[0] == DATE_HEADER
    ensures forall k :: 0 <= k < |sample.constituentDataList| ==> r[k + 1] == Header(sample.constituentDataList[k])
  {
    var cs := sample.constituentDataList;
    [DATE_HEADER] + seq(|cs|, k requires 0 <= k < |cs| => Header(cs[k]))
  }

  // ---------------------------------------------------------------------------------------------
  // Columns to rows
  // ---------------------------------------------------------------------------------------------

  /**
   * Row `i`'s values after the given constituents have been written in order: each constituent
   * long enough puts its `i`-th value under its header, a later one overwriting an earlier one
   * with the same header.
   */
  function RowMapping(cs: seq<ProfileConstituentData>, i: nat): map<string, real> {
    if |cs| == 0 then map[]
    else
      var before := RowMapping(cs[..|cs| - 1], i);
      var c := cs[|cs| - 1];
      if i < |c.dataValues| && c.dataValues[i].Some? then before[Header(c) := c.dataValues[i].value] else before
  }

  /**
   * What writing one constituent into `rowCount` rows raises: unboxing a null value before
   * running past the rows is a null pointer; a value beyond the last row is an index fault.
   */
  function ConstituentFault(c: ProfileConstituentData, rowCount: nat): Option<CsvFault> {
    if exists i :: 0 <= i < |c.dataValues| && i < rowCount && c.dataValues[i].None? then Some(NullPointer)
    else if |c.dataValues| > rowCount then Some(IndexOutOfBounds)
    else None
  }

  /** The first fault met writing the constituents in order. */
  function Fault(cs: seq<ProfileConstituentData>, rowCount: nat): Option<CsvFault> {
    if |cs| == 0 then None
    else
      match Fault(cs[..|cs| - 1], rowCount)
      case Some(f) => Some(f)
      case None => ConstituentFault(cs[|cs| - 1], rowCount)
  }

  /**
   * The rows of a sample: as many as the first constituent has values, each dated with the
   * sample's date and holding every constituent's value for that row. A sample without
   * constituents has no first constituent to size the rows by.
   */
  function CsvRows(sample: ProfileSample): Result<seq<CsvProfileRow>, CsvFault> {
    var cs := sample.constituentDataList;
    if |cs| == 0 then Failure(IndexOutOfBounds)
    else
      var n := |cs[0].dataValues|;
      match Fault(cs, n)
      case Some(f) => Failure(f)
      case None => Success(seq(n, i requires 0 <= i < n => CsvProfileRow(sample.dateTime, RowMapping(cs, i))))
  }

  /** Once a prefix of the constituents faults, the whole list faults the same way. */
  lemma {:induction false} FaultOfPrefix(cs: seq<ProfileConstituentData>, k: nat, rowCount: nat)
    requires k <= |cs| && Fault(cs[..k], rowCount).Some?
    ensures Fault(cs, rowCount) == Fault(cs[..k], rowCount)
    decreases |cs| - k
  {
    if k < |cs| {
      assert cs[..k + 1][..k] == cs[..k];
      FaultOfPrefix(cs, k + 1, rowCount);
    } else {
      assert cs[..k] == cs;
    }
  }

  lemma NoFaultMeansRows(sample: ProfileSample, rows: seq<CsvProfileRow>)
    requires |sample.constituentDataList| > 0
    requires Fault(sample.constituentDataList, |sample.constituentDataList[0].dataValues|).None?
    requires |rows| == |sample.constituentDataList[0].dataValues|
    requires forall i :: 0 <= i < |rows| ==> rows[i] == CsvProfileRow(sample.dateTime, RowMapping(sample.constituentDataList, i))
    ensures CsvRows(sample) == Success(rows)
  {
    var cs := sample.constituentDataList;
    assert rows == seq(|rows|, i requires 0 <= i < |rows| => CsvProfileRow(sample.dateTime, RowMapping(cs, i)));
  }

  /**
   * Fills the rows in place: one row per value of the first constituent, then every
   * constituent's values, column by column, into the rows.
   */
  method BuildCsvRows(sample: ProfileSample) returns (r: Result<seq<CsvProfileRow>, CsvFault>)
    ensures r == CsvRows(sample)
  {
    var cs := sample.constituentDataList;
    if |cs| == 0 {
      return Failure(IndexOutOfBounds);
    }
    var n := |cs[0].dataValues|;
    var rows := new CsvProfileRow[n](_ => CsvProfileRow(sample.dateTime, map[]));
    var k := 0;
    while k < |cs|
      invariant 0 <= k <= |cs|
      invariant Fault(cs[..k], n).None?
      invariant forall i :: 0 <= i < n ==> rows[i] == CsvProfileRow(sample.dateTime, RowMapping(cs[..k], i))
    {
      assert cs[..k + 1][..k] == cs[..k];
      var data := cs[k];
      var i := 0;
      while i < |data.dataValues|
        invariant 0 <= i <= |data.dataValues|
        invariant forall j :: 0 <= j < i ==> j < n && data.dataValues[j].Some?
        invariant forall j :: 0 <= j < n ==>
          rows[j] == CsvProfileRow(sample.dateTime, if j < i then RowMapping(cs[..k + 1], j) else RowMapping(cs[..k], j))
      {
        if i >= n {
          assert ConstituentFault(data, n) == Some(IndexOutOfBounds);
          FaultOfPrefix(cs, k + 1, n);
          return Failure(IndexOutOfBounds);
        }
        if data.dataValues[i].None? {
          assert ConstituentFault(data, n) == Some(NullPointer);
          FaultOfPrefix(cs, k + 1, n);
          return Failure(NullPointer);
        }
        rows[i] := rows[i].(parameterValues := rows[i].parameterValues[Header(data) := data.dataValues[i].value]);
        i := i + 1;
      }
      assert |data.dataValues| <= n by {
        if |data.dataValues| > 0 {
          assert data.dataValues[|data.dataValues| - 1].Some?;
        }
      }
      assert !exists j :: 0 <= j < |data.dataValues| && j < n && data.dataValues[j].None?;
      assert ConstituentFault(data, n).None?;
      assert cs[..k + 1][k] == data;
      forall j | 0 <= j < n
        ensures rows[j] == CsvProfileRow(sample.dateTime, RowMapping(cs[..k + 1], j))
      {
        if j >= i {
          assert RowMapping(cs[..k + 1], j) == RowMapping(cs[..k], j);
        }
      }
      k := k + 1;
    }
    assert cs[..k] == cs;
    NoFaultMeansRows(sample, rows[..]);
    r := Success(rows[..]);
  }

  // ---------------------------------------------------------------------------------------------
  // Rows back to columns
  // ---------------------------------------------------------------------------------------------

  /** What a header denotes: a column without `(` (such as "Date") is not a constituent. */
  datatype HeaderColumn = PlainColumn | ConstituentColumn(parameter: string, unit: string) | MalformedColumn

  /**
   * Splits a header at its first `(` and its first `)`: the parameter precedes the `(`, the
   * unit lies between. A `)` missing or before the `(` makes the substring call throw.
   */
  function ParseHeader(header: string): (r: HeaderColumn)
    ensures r.PlainColumn? <==> '(' !in header
    ensures r.ConstituentColumn? ==>
      && |r.parameter| + |r.unit| + 2 <= |header|
      && header[..|r.parameter| + |r.unit| + 2] == r.parameter + "(" + r.unit + ")"
      && '(' !in r.parameter && ')' !in r.unit
  {
    if '(' !in header then PlainColumn
    else
      var start := IndexOf(header, '(');
      var end := IndexOf(header, ')');
      if end < start + 1 then MalformedColumn
      else
        assert header[start + 1..end] == header[..end][start + 1..];
        ConstituentColumn(header[..start], header[start + 1..end])
  }

  /** A header built from a parameter free of brackets and a unit free of `)` splits back into them. */
  lemma HeaderRoundTrip(c: ProfileConstituentData)
    requires '(' !in c.parameter && ')' !in c.parameter && ')' !in c.unit
    ensures ParseHeader(Header(c)) == ConstituentColumn(c.parameter, c.unit)
  {
    var p, u := c.parameter, c.unit;
    var tail := u + ")";
    var rest := "(" + tail;
    var h := Header(c);
    assert h == p + rest;
    assert IndexOf(rest, '(') == 0;
    IndexOfAppend(p, rest, '(');
    assert IndexOf(h, '(') == |p|;
    IndexOfAppend(u, ")", ')');
    assert IndexOf(tail, ')') == |u|;
    IndexOfAppend("(", tail, ')');
    assert IndexOf(rest, ')') == 1 + |u|;
    IndexOfAppend(p, rest, ')');
    assert IndexOf(h, ')') == |p| + 1 + |u|;
    assert h[..|p|] == p;
    assert h[|p| + 1..|p| + 1 + |u|] == u;
  }


  /** The values a column holds, row by row; a row without the column yields null. */
  function ColumnValues(rows: seq<CsvProfileRow>, header: string): (r: seq<BoxedDouble>)
    ensures |r| == |rows|
    ensures forall i :: 0 <= i < |rows| ==> (r[i].Some? <==> header in rows[i].parameterValues)
    ensures forall i :: 0 <= i < |rows| && r[i].Some? ==> r[i].value == rows[i].parameterValues[header]
  {
    seq(|rows|, i requires 0 <= i < |rows| => Get(rows[i].parameterValues, header))
  }

  /** The constituents the headers describe, in header order; the first malformed header throws. */
  function ConstituentsFromHeaders(headers: seq<string>, rows: seq<CsvProfileRow>): Result<seq<ProfileConstituentData>, CsvFault> {
    if |headers| == 0 then Success([])
    else
      match ConstituentsFromHeaders(headers[..|headers| - 1], rows)
      case Failure(f) => Failure(f)
      case Success(cs) =>
        var header := headers[|headers| - 1];
        match ParseHeader(header)
        case PlainColumn => Success(cs)
        case MalformedColumn => Failure(StringIndexOutOfBounds)
        case ConstituentColumn(parameter, unit) =>
          Success(cs + [ProfileConstituentData(parameter, ColumnValues(rows, header), unit)])
  }

  /**
   * Rebuilds a sample from its headers and rows. No rows give null; otherwise the sample is dated
   * with the first row's date and holds one constituent per bracketed header.
   */
  function BuildProfileSampleFromRows(headers: seq<string>, rows: seq<CsvProfileRow>): (r: Result<Option<ProfileSample>, CsvFault>)
    ensures |rows| == 0 <==> r == Success(None)
    ensures r.Success? && r.value.Some? ==> r.value.value.dateTime == rows[0].date
    ensures r.Success? && r.value.Some? ==> ConstituentsFromHeaders(headers, rows) == Success(r.value.value.constituentDataList)
    ensures |rows| > 0 ==> (r.Failure? <==> ConstituentsFromHeaders(headers, rows).Failure?)
  {
    if |rows| == 0 then Success(None)
    else
      match ConstituentsFromHeaders(headers, rows)
      case Failure(f) => Failure(f)
      case Success(cs) => Success(Some(ProfileSample(rows[0].date, cs)))
  }

  // ---------------------------------------------------------------------------------------------
  // The round trip
  // ---------------------------------------------------------------------------------------------

  /** Distinct constituents have distinct headers. */
  predicate DistinctHeaders(cs: seq<ProfileConstituentData>) {
    forall k, l :: 0 <= k < l < |cs| ==> Header(cs[k]) != Header(cs[l])
  }

  /**
   * A sample the layout can carry without loss: at least one constituent, all with the same
   * positive number of values and no null among them, brackets only where the header puts them, and
   * distinct headers.
   */
  predicate WellFormedSample(s: ProfileSample) {
    var cs := s.constituentDataList;
    && |cs| > 0 && |cs[0].dataValues| > 0
    && (forall k :: 0 <= k < |cs| ==> |cs[k].dataValues| == |cs[0].dataValues|)
    && (forall k, i :: 0 <= k < |cs| && 0 <= i < |cs[k].dataValues| ==> cs[k].dataValues[i].Some?)
    && (forall k :: 0 <= k < |cs| ==> '(' !in cs[k].parameter && ')' !in cs[k].parameter && ')' !in cs[k].unit)
    && DistinctHeaders(cs)
  }

  /** Writing equal-length constituents without nulls raises nothing. */
  lemma {:induction false} NoFaultWhenWellFormed(cs: seq<ProfileConstituentData>, n: nat)
    requires forall k :: 0 <= k < |cs| ==> |cs[k].dataValues| == n
    requires forall k, i :: 0 <= k < |cs| && 0 <= i < |cs[k].dataValues| ==> cs[k].dataValues[i].Some?
    ensures Fault(cs, n).None?
  {
    if |cs| > 0 {
      NoFaultWhenWellFormed(cs[..|cs| - 1], n);
      assert ConstituentFault(cs[|cs| - 1], n).None?;
    }
  }

  /** Row `i` holds exactly the headers of the constituents, each mapped to that constituent's `i`-th value. */
  lemma {:induction false} RowMappingHoldsEveryValue(cs: seq<ProfileConstituentData>, i: nat)
    requires DistinctHeaders(cs)
    requires forall k :: 0 <= k < |cs| ==> i < |cs[k].dataValues| && cs[k].dataValues[i].Some?
    ensures forall k :: 0 <= k < |cs| ==>
      Header(cs[k]) in RowMapping(cs, i) && RowMapping(cs, i)[Header(cs[k])] == cs[k].dataValues[i].value
    ensures forall h :: h in RowMapping(cs, i) ==> exists k :: 0 <= k < |cs| && h == Header(cs[k])
  {
    if |cs| > 0 {
      var init := cs[..|cs| - 1];
      RowMappingHoldsEveryValue(init, i);
      forall k | 0 <= k < |cs|
        ensures Header(cs[k]) in RowMapping(cs, i) && RowMapping(cs, i)[Header(cs[k])] == cs[k].dataValues[i].value
      {
        if k < |cs| - 1 {
          assert cs[k] == init[k];
        }
      }
      forall h | h in RowMapping(cs, i)
        ensures exists k :: 0 <= k < |cs| && h == Header(cs[k])
      {
        if h != Header(cs[|cs| - 1]) {
          var k :| 0 <= k < |init| && h == Header(init[k]);
          assert init[k] == cs[k];
        }
      }
    }
  }

  /** The rows of a well-formed sample: one per value, each dated and holding every constituent's value. */
  lemma CsvRowsOfWellFormedSample(s: ProfileSample)
    requires WellFormedSample(s)
    ensures CsvRows(s).Success?
    ensures |CsvRows(s).value| == |s.constituentDataList[0].dataValues|
    ensures forall i, k :: 0 <= i < |CsvRows(s).value| && 0 <= k < |s.constituentDataList| ==>
      var row := CsvRows(s).value[i];
      && row.date == s.dateTime
      && Header(s.constituentDataList[k]) in row.parameterValues
      && row.parameterValues[Header(s.constituentDataList[k])] == s.constituentDataList[k].dataValues[i].value
  {
    var cs := s.constituentDataList;
    var n := |cs[0].dataValues|;
    NoFaultWhenWellFormed(cs, n);
    forall i | 0 <= i < n
      ensures forall k :: 0 <= k < |cs| ==>
        Header(cs[k]) in RowMapping(cs, i) && RowMapping(cs, i)[Header(cs[k])] == cs[k].dataValues[i].value
    {
      RowMappingHoldsEveryValue(cs, i);
    }
  }

  /** Each constituent's column, read back from the rows, is that constituent's values. */
  lemma ColumnOfWellFormedSample(s: ProfileSample, k: nat)
    requires WellFormedSample(s)
    requires k < |s.constituentDataList|
    ensures CsvRows(s).Success?
    ensures ColumnValues(CsvRows(s).value, Header(s.constituentDataList[k])) == s.constituentDataList[k].dataValues
  {
    CsvRowsOfWellFormedSample(s);
    var c := s.constituentDataList[k];
    var column := ColumnValues(CsvRows(s).value, Header(c));
    forall i | 0 <= i < |column|
      ensures column[i] == c.dataValues[i]
    {
    }
  }

  /**
   * Reading back the first `k` constituent columns yields the first `k` constituents, when every
   * constituent's header splits back into its parameter and unit and its column holds its values.
   */
  lemma {:induction false} ConstituentsOfHeaderPrefix(s: ProfileSample, rows: seq<CsvProfileRow>, k: nat)
    requires k <= |s.constituentDataList|
    requires forall j :: 0 <= j < |s.constituentDataList| ==>
      var c := s.constituentDataList[j];
      ParseHeader(Header(c)) == ConstituentColumn(c.parameter, c.unit) && ColumnValues(rows, Header(c)) == c.dataValues
    ensures ConstituentsFromHeaders(BuildHeaders(s)[..k + 1], rows) == Success(s.constituentDataList[..k])
  {
    var cs := s.constituentDataList;
    var headers := BuildHeaders(s);
    if k == 0 {
      assert headers[..1] == [DATE_HEADER];
      DateHeaderHasNoConstituent(rows);
    } else {
      ConstituentsOfHeaderPrefix(s, rows, k - 1);
      assert headers[..k + 1][..k] == headers[..k];
      assert headers[..k + 1][k] == Header(cs[k - 1]);
      ConstituentsStep(headers[..k + 1], rows, cs[..k - 1], cs[k - 1]);
      SeqPrefixStep(cs, k);
    }
  }


  lemma DateHeaderHasNoConstituent(rows: seq<CsvProfileRow>)
    ensures ConstituentsFromHeaders([DATE_HEADER], rows) == Success([])
  {
    assert [DATE_HEADER][..0] == [];
    assert DATE_HEADER == ['D', 'a', 't', 'e'];
    assert ParseHeader(DATE_HEADER) == PlainColumn;
  }

  lemma ConstituentsStep(headers: seq<string>, rows: seq<CsvProfileRow>, prev: seq<ProfileConstituentData>, c: ProfileConstituentData)
    requires |headers| > 0
    requires ConstituentsFromHeaders(headers[..|headers| - 1], rows) == Success(prev)
    requires ParseHeader(headers[|headers| - 1]) == ConstituentColumn(c.parameter, c.unit)
    requires ColumnValues(rows, headers[|headers| - 1]) == c.dataValues
    ensures ConstituentsFromHeaders(headers, rows) == Success(prev + [c])
  {
  }

  lemma SeqPrefixStep<T>(xs: seq<T>, k: nat)
    requires 0 < k <= |xs|
    ensures xs[..k - 1] + [xs[k - 1]] == xs[..k]
  {
  }


  /**
   * The round trip: the rows written for a well-formed sample, read back with the same headers,
   * give the sample again.
   */
  lemma ProfileRoundTrip(s: ProfileSample)
    requires WellFormedSample(s)
    ensures CsvRows(s).Success?
    ensures BuildProfileSampleFromRows(BuildHeaders(s), CsvRows(s).value) == Success(Some(s))
  {
    CsvRowsOfWellFormedSample(s);
    ConstituentsRoundTrip(s);
    assert CsvRows(s).value[0].date == s.dateTime;
  }

  /** Reading the written rows back under the sample's headers gives its constituents again. */
  lemma ConstituentsRoundTrip(s: ProfileSample)
    requires WellFormedSample(s)
    ensures CsvRows(s).Success?
    ensures ConstituentsFromHeaders(BuildHeaders(s), CsvRows(s).value) == Success(s.constituentDataList)
  {
    CsvRowsOfWellFormedSample(s);
    var rows := CsvRows(s).value;
    var cs := s.constituentDataList;
    var headers := BuildHeaders(s);
    forall j | 0 <= j < |cs|
      ensures ParseHeader(Header(cs[j])) == ConstituentColumn(cs[j].parameter, cs[j].unit)
      ensures ColumnValues(rows, Header(cs[j])) == cs[j].dataValues
    {
      HeaderRoundTrip(cs[j]);
      ColumnOfWellFormedSample(s, j);
    }
    ConstituentsOfHeaderPrefix(s, rows, |cs|);
    assert headers[..|cs| + 1] == headers;
    assert cs[..|cs|] == cs;
  }

  // ---------------------------------------------------------------------------------------------
  // Serialising a row
  // ---------------------------------------------------------------------------------------------

  /**
   * The keys a row's values are written under: the headers present in the row, in header order,
   * each once (re-inserting a key into an insertion-ordered map keeps its first place).
   */
  function SerializedKeys(headers: seq<string>, mapping: map<string, real>): (keys: seq<string>)
    ensures forall i :: 0 <= i < |keys| ==> keys[i] in mapping && keys[i] in headers
    ensures forall j :: 0 <= j < |headers| && headers[j] in mapping ==> headers[j] in keys
    ensures forall i, j :: 0 <= i < j < |keys| ==> keys[i] != keys[j]
  {
    if |headers| == 0 then []
    else
      var keys := SerializedKeys(headers[..|headers| - 1], mapping);
      var h := headers[|headers| - 1];
      assert forall j :: 0 <= j < |headers| - 1 ==> headers[j] == headers[..|headers| - 1][j];
      if h in mapping && h !in keys then keys + [h] else keys
  }

  /** The values a row serialises to: one per serialised key, in key order. */
  function SerializeMapping(headers: seq<string>, mapping: map<string, real>): (values: seq<real>)
    ensures |values| == |SerializedKeys(headers, mapping)| <= |headers|
  {
    var keys := SerializedKeys(headers, mapping);
    SerializedKeysAtMostHeaders(headers, mapping);
    seq(|keys|, i requires 0 <= i < |keys| => mapping[keys[i]])
  }

  lemma {:induction false} SerializedKeysAtMostHeaders(headers: seq<string>, mapping: map<string, real>)
    ensures |SerializedKeys(headers, mapping)| <= |headers|
  {
    if |headers| > 0 {
      SerializedKeysAtMostHeaders(headers[..|headers| - 1], mapping);
    }
  }

  /** With distinct headers, the serialised keys are exactly the headers present in the row, in header order. */
  lemma {:induction false} SerializedKeysFilterHeaders(headers: seq<string>, mapping: map<string, real>)
    requires forall i, j :: 0 <= i < j < |headers| ==> headers[i] != headers[j]
    ensures SerializedKeys(headers, mapping) == Filter(headers, h => h in mapping)
  {
    if |headers| > 0 {
      var init := headers[..|headers| - 1];
      var h := headers[|headers| - 1];
      SerializedKeysFilterHeaders(init, mapping);
      assert headers == init + [h];
      FilterAppend(init, h, x => x in mapping);
      assert h !in init;
      assert h !in SerializedKeys(init, mapping);
    }
  }

  /** "Date" is no constituent's header: every constituent header contains `(`. */
  lemma DateIsNoConstituentHeader(c: ProfileConstituentData)
    ensures Header(c) != DATE_HEADER
  {
    assert DATE_HEADER == ['D', 'a', 't', 'e'];
    assert Header(c)[|c.parameter|] == '(';
  }

  /** The header row of a sample with distinct constituent headers has no repeated header. */
  lemma HeadersDistinct(s: ProfileSample)
    requires DistinctHeaders(s.constituentDataList)
    ensures forall a, b :: 0 <= a < b < |BuildHeaders(s)| ==> BuildHeaders(s)[a] != BuildHeaders(s)[b]
  {
    var headers := BuildHeaders(s);
    forall a, b | 0 <= a < b < |headers|
      ensures headers[a] != headers[b]
    {
      if a == 0 {
        DateIsNoConstituentHeader(s.constituentDataList[b - 1]);
      }
    }
  }

  /**
   * A data row of a well-formed sample serialises to the constituents' values for that row, in
   * column order: the "Date" header is not a key of the row, and every other header is.
   */
  lemma SerializedRowFollowsHeaders(s: ProfileSample, i: nat)
    requires WellFormedSample(s)
    requires i < |s.constituentDataList[0].dataValues|
    ensures CsvRows(s).Success?
    ensures SerializeMapping(BuildHeaders(s), CsvRows(s).value[i].parameterValues)
         == seq(|s.constituentDataList|, k requires 0 <= k < |s.constituentDataList| => s.constituentDataList[k].dataValues[i].value)
  {
    CsvRowsOfWellFormedSample(s);
    RowKeysFollowHeaders(s, i);
  }

  /** The keys a data row serialises are the headers after "Date", in order. */
  lemma RowKeysFollowHeaders(s: ProfileSample, i: nat)
    requires WellFormedSample(s)
    requires i < |s.constituentDataList[0].dataValues|
    ensures CsvRows(s).Success? && i < |CsvRows(s).value|
    ensures SerializedKeys(BuildHeaders(s), CsvRows(s).value[i].parameterValues) == BuildHeaders(s)[1..]
  {
    var cs := s.constituentDataList;
    CsvRowsOfWellFormedSample(s);
    var mapping := CsvRows(s).value[i].parameterValues;
    var headers := BuildHeaders(s);
    assert DATE_HEADER !in mapping by {
      RowMappingHoldsEveryValue(cs, i);
      forall k | 0 <= k < |cs|
        ensures Header(cs[k]) != DATE_HEADER
      {
        DateIsNoConstituentHeader(cs[k]);
      }
    }
    HeadersDistinct(s);
    SerializedKeysFilterHeaders(headers, mapping);
    assert headers == [DATE_HEADER] + headers[1..];
    FilterSkipsHead(DATE_HEADER, headers[1..], h => h in mapping);
    FilterKeepsAll(headers[1..], h => h in mapping);
  }
}
