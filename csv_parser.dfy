/** The roster normaliser of backend/csv_parser.py: from a table of strings
    (row 0 holds the headers) to the schedulable students, their attribute
    and availability records and the students with no available time; and
    the flat form fields turned into constraint bounds with defaults. */
module CsvParser {
  import opened Wrappers
  import opened Text
  import opened Dict
  import opened Students
  import opened Constraints
  import opened Indices

  /** The three input-validation failures; each is reported with status 400. */
  datatype ParseError = MissingNameColumn | MissingAttributeColumn(attr: string) | NoAvailableStudents {
    function Message(): string {
      match this
      case MissingNameColumn =>
        "CSV must have either \"Name\" column or \"FirstName\" and \"LastName\" columns"
      case MissingAttributeColumn(a) =>
        "student attribute " + a + " not found in the csv file. please check the format and try again."
      case NoAvailableStudents =>
        "No students have any available times. Please ensure at least one student has available time slots."
    }

    function Status(): int {
      400
    }
  }

  // ---------------------------------------------------------------------
  // Headers and name columns

  /** `[str(header).strip().lower() for header in data[0]]`. */
  function LowerHeaders(row: seq<string>): (h: seq<string>)
    ensures |h| == |row| && forall i :: 0 <= i < |row| ==> h[i] == Lower(Strip(row[i]))
  {
    seq(|row|, i requires 0 <= i < |row| => Lower(Strip(row[i])))
  }

  /** Every normalised header has no upper-case ASCII letter and no
      surrounding whitespace, so normalising the headers again changes
      nothing: header matching ignores case and surrounding whitespace. */
  lemma LowerHeadersNormalised(row: seq<string>)
    ensures forall i, k :: 0 <= i < |row| && 0 <= k < |LowerHeaders(row)[i]| ==> !('A' <= LowerHeaders(row)[i][k] <= 'Z')
    ensures forall i :: 0 <= i < |row| ==> Strip(LowerHeaders(row)[i]) == LowerHeaders(row)[i]
    ensures LowerHeaders(LowerHeaders(row)) == LowerHeaders(row)
  {
    forall i | 0 <= i < |row|
      ensures forall k :: 0 <= k < |LowerHeaders(row)[i]| ==> !('A' <= LowerHeaders(row)[i][k] <= 'Z')
      ensures Strip(LowerHeaders(row)[i]) == LowerHeaders(row)[i]
      ensures LowerHeaders(LowerHeaders(row))[i] == LowerHeaders(row)[i]
    {
      var t := Strip(row[i]);
      StripRemovesSpaces(row[i]);
      LowerNormalises(t);
      StripUnchanged(Lower(t));
    }
  }

  /** `h.index(x)`: the first position holding `x`. */
  function IndexOf(h: seq<string>, x: string): (i: nat)
    requires x in h
    ensures i < |h| && h[i] == x && forall j :: 0 <= j < i ==> h[j] != x
  {
    if h[0] == x then 0 else 1 + IndexOf(h[1..], x)
  }

  /** `find_name_indices`: the name column(s) by a fixed priority chain, the
      first rule that matches winning. */
  function FindNameIndices(h: seq<string>): (r: Result<seq<nat>, ParseError>)
    ensures r.Failure? ==> r.error == MissingNameColumn
    ensures r.Failure? <==> !("name" in h || "student name" in h || "student" in h
                              || ("firstname" in h && "lastname" in h)
                              || ("first name" in h && "last name" in h)
                              || ("first" in h && "last" in h))
    ensures "name" in h ==> r == Success([IndexOf(h, "name")])
    ensures r.Success? ==> (|r.value| == 1 || |r.value| == 2) && forall k :: 0 <= k < |r.value| ==> r.value[k] < |h|
    ensures r.Success? && |r.value| == 1 ==> h[r.value[0]] in {"name", "student name", "student"}
    ensures r.Success? && |r.value| == 2 ==>
              (h[r.value[0]], h[r.value[1]]) in {("firstname", "lastname"), ("first name", "last name"), ("first", "last")}
  {
    if "name" in h then Success([IndexOf(h, "name")])
    else if "student name" in h then Success([IndexOf(h, "student name")])
    else if "student" in h then Success([IndexOf(h, "student")])
    else if "firstname" in h && "lastname" in h then Success([IndexOf(h, "firstname"), IndexOf(h, "lastname")])
    else if "first name" in h && "last name" in h then Success([IndexOf(h, "first name"), IndexOf(h, "last name")])
    else if "first" in h && "last" in h then Success([IndexOf(h, "first"), IndexOf(h, "last")])
    else Failure(MissingNameColumn)
  }

  /** The same priority chain as a table: each rule lists the headers it
      needs, in the order their columns are reported. */
  const NAME_RULES: seq<seq<string>> :=
    [["name"], ["student name"], ["student"], ["firstname", "lastname"], ["first name", "last name"], ["first", "last"]]

  predicate RuleMatches(h: seq<string>, rule: seq<string>) {
    forall k :: 0 <= k < |rule| ==> rule[k] in h
  }

  function RuleColumns(h: seq<string>, rule: seq<string>): seq<nat>
    requires RuleMatches(h, rule)
  {
    seq(|rule|, k requires 0 <= k < |rule| => IndexOf(h, rule[k]))
  }

  /** The first rule at or after `from` whose headers are all present. */
  function FirstMatchingRule(h: seq<string>, from: nat): (r: Option<nat>)
    decreases |NAME_RULES| - from
    ensures r.Some? ==> from <= r.value < |NAME_RULES| && RuleMatches(h, NAME_RULES[r.value])
                        && forall k :: from <= k < r.value ==> !RuleMatches(h, NAME_RULES[k])
    ensures r.None? ==> forall k :: from <= k < |NAME_RULES| ==> !RuleMatches(h, NAME_RULES[k])
  {
    if from >= |NAME_RULES| then None
    else if RuleMatches(h, NAME_RULES[from]) then Some(from)
    else FirstMatchingRule(h, from + 1)
  }

  /** Name detection is "first matching rule of the table wins". */
  lemma NameDetectionFollowsRuleTable(h: seq<string>)
    ensures FindNameIndices(h) == match FirstMatchingRule(h, 0)
                                  case None => Failure(MissingNameColumn)
                                  case Some(k) => Success(RuleColumns(h, NAME_RULES[k]))
  {
    var r := FirstMatchingRule(h, 0);
    MatchesOne(h, "name");
    MatchesOne(h, "student name");
    MatchesOne(h, "student");
    MatchesTwo(h, "firstname", "lastname");
    MatchesTwo(h, "first name", "last name");
    MatchesTwo(h, "first", "last");
    assert NAME_RULES[0] == ["name"] && NAME_RULES[1] == ["student name"] && NAME_RULES[2] == ["student"];
    assert NAME_RULES[3] == ["firstname", "lastname"] && NAME_RULES[4] == ["first name", "last name"];
    assert NAME_RULES[5] == ["first", "last"];
  }

  lemma MatchesOne(h: seq<string>, a: string)
    ensures RuleMatches(h, [a]) <==> a in h
    ensures a in h ==> RuleColumns(h, [a]) == [IndexOf(h, a)]
  {
    assert [a][0] == a;
  }

  lemma MatchesTwo(h: seq<string>, a: string, b: string)
    ensures RuleMatches(h, [a, b]) <==> a in h && b in h
    ensures a in h && b in h ==> RuleColumns(h, [a, b]) == [IndexOf(h, a), IndexOf(h, b)]
  {
    assert [a, b][0] == a && [a, b][1] == b;
  }

  // ---------------------------------------------------------------------
  // Attribute and availability columns

  /** Attribute columns from position `k` on: the headers that are requested attributes. */
  function AttributeIndicesFrom(h: seq<string>, given: seq<string>, k: nat): (r: seq<nat>)
    decreases |h| - k
    ensures Ascending(r)
    ensures forall j :: 0 <= j < |r| ==> k <= r[j] < |h|
    ensures forall i :: i in r <==> k <= i < |h| && h[i] in given
  {
    if k >= |h| then []
    else (if h[k] in given then [k] else []) + AttributeIndicesFrom(h, given, k + 1)
  }

  /** Availability columns from position `k` on: every other column. */
  function AvailabilityIndicesFrom(h: seq<string>, nameIdx: seq<nat>, attrIdx: seq<nat>, k: nat): (r: seq<nat>)
    decreases |h| - k
    ensures Ascending(r)
    ensures forall j :: 0 <= j < |r| ==> k <= r[j] < |h|
    ensures forall i :: i in r <==> k <= i < |h| && i !in nameIdx && i !in attrIdx
  {
    if k >= |h| then []
    else (if k !in nameIdx && k !in attrIdx then [k] else []) + AvailabilityIndicesFrom(h, nameIdx, attrIdx, k + 1)
  }

  /** `find_data_attributes`: the attribute columns are the headers that are
      requested attributes, the availability columns every position that is
      neither a name nor an attribute column; both in header order. */
  function FindDataAttributes(h: seq<string>, nameIdx: seq<nat>, given: seq<string>): (r: (seq<nat>, seq<nat>))
    ensures Ascending(r.0) && Ascending(r.1)
    ensures IndicesBelow(r.0, |h|) && IndicesBelow(r.1, |h|)
    ensures forall i :: i in r.0 <==> 0 <= i < |h| && h[i] in given
    ensures forall i :: i in r.1 <==> 0 <= i < |h| && i !in nameIdx && i !in r.0
  {
    var attrIdx := AttributeIndicesFrom(h, given, 0);
    (attrIdx, AvailabilityIndicesFrom(h, nameIdx, attrIdx, 0))
  }

  /** The first requested attribute that is not among the lower-cased headers;
      the requested names themselves are compared as given. */
  function FirstMissingAttribute(given: seq<string>, h: seq<string>): (r: Option<string>)
    ensures r.None? <==> forall a :: a in given ==> a in h
    ensures r.Some? ==> exists i :: 0 <= i < |given| && given[i] == r.value && r.value !in h
                                    && forall j :: 0 <= j < i ==> given[j] in h
  {
    if given == [] then None
    else if given[0] !in h then Some(given[0])
    else
      var rest := FirstMissingAttribute(given[1..], h);
      assert forall a :: a in given ==> a == given[0] || a in given[1..];
      if rest.None? then rest
      else
        var i :| 0 <= i < |given[1..]| && given[1..][i] == rest.value && rest.value !in h
                 && forall j :: 0 <= j < i ==> given[1..][j] in h;
        assert given[i + 1] == rest.value;
        rest
  }

  // ---------------------------------------------------------------------
  // Cell values

  /** A cell of a data row; pandas pads a row shorter than the header row
      with missing values. */
  function CellAt(row: seq<string>, j: nat): Option<string> {
    if j < |row| then Some(row[j]) else None
  }

  /** `str(value)` of a cell: a missing value renders as "None". */
  function AsStr(c: Option<string>): string {
    match c
    case Some(s) => s
    case None => "None"
  }

  /** Lines 89-94 applied to one attribute or availability cell: `fillna('0')`,
      `replace('', '0')`, the fixed Yes/No/True/False spellings, `astype(str)`. */
  function NormalizeCell(c: Option<string>): (r: string)
    ensures c.None? ==> r == "0"
    ensures c == Some("") ==> r == "0"
    ensures c.Some? && c.value in {"Yes", "yes", "True", "true"} ==> r == "1"
    ensures c.Some? && c.value in {"No", "no", "False", "false"} ==> r == "0"
    ensures c.Some? && c.value !in {"", "Yes", "yes", "True", "true", "No", "no", "False", "false"} ==> r == c.value
  {
    match c
    case None => "0"
    case Some(s) =>
      if s == "" then "0"
      else if s in {"Yes", "yes", "True", "true"} then "1"
      else if s in {"No", "no", "False", "false"} then "0"
      else s
  }

  /** Normalising a normalised cell changes nothing. */
  lemma NormalizeCellIdempotent(c: Option<string>)
    ensures NormalizeCell(Some(NormalizeCell(c))) == NormalizeCell(c)
  {
  }

  // ---------------------------------------------------------------------
  // The DataFrame

  /** A DataFrame: its column labels and its rows of cells. */
  datatype Frame = Frame(columns: seq<string>, rows: seq<seq<Option<string>>>)

  predicate Rectangular(df: Frame) {
    forall r :: 0 <= r < |df.rows| ==> |df.rows[r]| == |df.columns|
  }

  /** The name cell of a data row (lines 68-77): with two name columns their
      texts joined by one space in rule order, otherwise the cell itself. */
  function NameCell(row: seq<string>, nameIdx: seq<nat>): Option<string>
    requires |nameIdx| >= 1
  {
    if |nameIdx| > 1 then Some(Join(seq(|nameIdx|, k requires 0 <= k < |nameIdx| => AsStr(CellAt(row, nameIdx[k]))), " "))
    else CellAt(row, nameIdx[0])
  }

  /** The label of the name column: 'name' after a merge, otherwise the header. */
  function NameColumn(h: seq<string>, nameIdx: seq<nat>): string
    requires |nameIdx| >= 1 && nameIdx[0] < |h|
  {
    if |nameIdx| > 1 then "name" else h[nameIdx[0]]
  }

  /** Lines 65-85: the data rows as a DataFrame whose columns are the name
      column, then the attribute columns, then the availability columns. */
  function ReorderedFrame(rows: seq<seq<string>>, h: seq<string>, nameIdx: seq<nat>, attrIdx: seq<nat>, availIdx: seq<nat>): (df: Frame)
    requires |nameIdx| >= 1 && nameIdx[0] < |h| && IndicesBelow(attrIdx, |h|) && IndicesBelow(availIdx, |h|)
    ensures Rectangular(df) && |df.rows| == |rows| && |df.columns| == 1 + |attrIdx| + |availIdx|
  {
    var valueIdx := attrIdx + availIdx;
    Frame([NameColumn(h, nameIdx)] + Pick(h, valueIdx),
          seq(|rows|, r requires 0 <= r < |rows| =>
            [NameCell(rows[r], nameIdx)] + seq(|valueIdx|, k requires 0 <= k < |valueIdx| => CellAt(rows[r], valueIdx[k]))))
  }

  /** The frame after the loop of lines 89-94: every cell but the name cell normalised. */
  function NormalizedFrame(df: Frame): (out: Frame)
    requires Rectangular(df)
    ensures out.columns == df.columns && |out.rows| == |df.rows| && Rectangular(out)
  {
    Frame(df.columns, seq(|df.rows|, r requires 0 <= r < |df.rows| =>
      seq(|df.columns|, c requires 0 <= c < |df.columns| => if c == 0 then df.rows[r][0] else Some(NormalizeCell(df.rows[r][c])))))
  }

  /** One pass of the loop body: column `c` normalised in every row. */
  function NormalizeColumn(rows: seq<seq<Option<string>>>, c: nat): (out: seq<seq<Option<string>>>)
    ensures |out| == |rows|
    ensures forall r :: 0 <= r < |rows| ==> |out[r]| == |rows[r]|
    ensures forall r, j :: 0 <= r < |rows| && 0 <= j < |rows[r]| ==>
              out[r][j] == if j == c then Some(NormalizeCell(rows[r][j])) else rows[r][j]
  {
    seq(|rows|, r requires 0 <= r < |rows| =>
      if c < |rows[r]| then rows[r][c := Some(NormalizeCell(rows[r][c]))] else rows[r])
  }

  /** The loop of lines 89-94, column by column, over every attribute and
      availability column (all columns after the name column). */
  method NormalizeValueColumns(df: Frame) returns (out: Frame)
    requires Rectangular(df) && |df.columns| >= 1
    ensures out == NormalizedFrame(df)
  {
    var rows := df.rows;
    for c := 1 to |df.columns|
      invariant |rows| == |df.rows|
      invariant forall r :: 0 <= r < |rows| ==> |rows[r]| == |df.columns|
      invariant forall r, j :: 0 <= r < |rows| && 0 <= j < |df.columns| ==>
                  rows[r][j] == if 1 <= j < c then Some(NormalizeCell(df.rows[r][j])) else df.rows[r][j]
    {
      rows := NormalizeColumn(rows, c);
    }
    var expected := NormalizedFrame(df);
    forall r | 0 <= r < |rows|
      ensures rows[r] == expected.rows[r]
    {
      assert |rows[r]| == |expected.rows[r]|;
      forall j | 0 <= j < |rows[r]|
        ensures rows[r][j] == expected.rows[r][j]
      {
      }
    }
    out := Frame(df.columns, rows);
  }

  /** `df[name_column].tolist()`. */
  function FrameNames(df: Frame): (names: seq<Name>)
    requires Rectangular(df) && |df.columns| >= 1
    ensures |names| == |df.rows|
  {
    seq(|df.rows|, r requires 0 <= r < |df.rows| => df.rows[r][0])
  }

  /** The record of one row over `count` columns from position `from`. */
  function RowRecord(columns: seq<string>, row: seq<Option<string>>, from: nat, count: nat): (rec: Record)
    requires from + count <= |columns| && |row| == |columns|
    ensures |rec| == count
  {
    seq(count, k requires 0 <= k < count => (columns[from + k], AsStr(row[from + k])))
  }

  /** `df[cols].to_dict(orient='records') if cols else []`, for the `count`
      columns from position `from`. */
  function ColumnRecords(df: Frame, from: nat, count: nat): (recs: seq<Record>)
    requires Rectangular(df) && from + count <= |df.columns|
    ensures count == 0 ==> recs == []
    ensures count > 0 ==> |recs| == |df.rows|
  {
    if count == 0 then []
    else seq(|df.rows|, r requires 0 <= r < |df.rows| => RowRecord(df.columns, df.rows[r], from, count))
  }

  // ---------------------------------------------------------------------
  // Partition into schedulable and unassigned students

  /** Line 108: every availability value strips to '0'. */
  predicate NoAvailability(values: seq<string>) {
    values == [] || (IsZero(values[0]) && NoAvailability(values[1..]))
  }

  predicate IsZero(value: string) {
    Strip(value) == "0"
  }

  /** NoAvailability is Python's `all(...)` over the values. */
  lemma {:induction false} NoAvailabilityMeansAll(values: seq<string>)
    ensures NoAvailability(values) <==> forall k :: 0 <= k < |values| ==> IsZero(values[k])
  {
    if values != [] {
      NoAvailabilityMeansAll(values[1..]);
      assert forall k :: 1 <= k < |values| ==> values[1..][k - 1] == values[k];
    }
  }

  /** Per student, whether NoAvailability holds. */
  function ZeroFlags(avails: seq<Record>): (flags: seq<bool>)
    ensures |flags| == |avails| && forall i :: 0 <= i < |avails| ==> flags[i] == NoAvailability(Values(avails[i]))
  {
    seq(|avails|, i requires 0 <= i < |avails| => NoAvailability(Values(avails[i])))
  }

  /** The students kept for scheduling. */
  function LiveRows(avails: seq<Record>): seq<nat> {
    RowsWhere(ZeroFlags(avails), false, |avails|)
  }

  /** The students moved to the unassigned list. */
  function ZeroRows(avails: seq<Record>): seq<nat> {
    RowsWhere(ZeroFlags(avails), true, |avails|)
  }

  /** Every student is kept or unassigned, never both. */
  lemma RowsPartition(avails: seq<Record>)
    ensures |LiveRows(avails)| + |ZeroRows(avails)| == |avails|
    ensures forall i :: 0 <= i < |avails| ==> (i in LiveRows(avails) <==> i !in ZeroRows(avails))
  {
    RowsWhereCount(ZeroFlags(avails), |avails|);
  }

  /** A student with no available time (lines 110-114). */
  datatype Unassigned = Unassigned(name: Name, attributes: Record, availabilities: Record)

  function UnassignedAt(names: seq<Name>, attrs: seq<Record>, avails: seq<Record>, i: nat): Unassigned
    requires i < |avails| <= |names| && (attrs == [] || |avails| <= |attrs|)
  {
    Unassigned(names[i], if attrs != [] then attrs[i] else [], avails[i])
  }

  function UnassignedList(names: seq<Name>, attrs: seq<Record>, avails: seq<Record>, idx: seq<nat>): (r: seq<Unassigned>)
    requires IndicesBelow(idx, |avails|) && |avails| <= |names| && (attrs == [] || |avails| <= |attrs|)
    ensures |r| == |idx|
  {
    seq(|idx|, k requires 0 <= k < |idx| => UnassignedAt(names, attrs, avails, idx[k]))
  }

  lemma UnassignedAppend(names: seq<Name>, attrs: seq<Record>, avails: seq<Record>, idx: seq<nat>, j: nat)
    requires IndicesBelow(idx, |avails|) && j < |avails| <= |names| && (attrs == [] || |avails| <= |attrs|)
    ensures UnassignedList(names, attrs, avails, idx + [j]) == UnassignedList(names, attrs, avails, idx) + [UnassignedAt(names, attrs, avails, j)]
  {
  }

  /** The loop of lines 107-120: the students with some availability go to
      the filtered lists, the others to the unassigned list, in input order. */
  method Partition(names: seq<Name>, attrs: seq<Record>, avails: seq<Record>)
    returns (liveNames: seq<Name>, liveAttrs: seq<Record>, liveAvails: seq<Record>, unassigned: seq<Unassigned>)
    requires |avails| <= |names| && (attrs == [] || |avails| <= |attrs|)
    ensures liveNames == Pick(names, LiveRows(avails))
    ensures liveAttrs == if attrs == [] then [] else Pick(attrs, LiveRows(avails))
    ensures liveAvails == Pick(avails, LiveRows(avails))
    ensures unassigned == UnassignedList(names, attrs, avails, ZeroRows(avails))
  {
    liveNames, liveAttrs, liveAvails, unassigned := [], [], [], [];
    for i := 0 to |avails|
      invariant PartitionedUpTo(names, attrs, avails, i, liveNames, liveAttrs, liveAvails, unassigned)
    {
      var none := NoAvailability(Values(avails[i]));
      if none {
        UnassignStep(names, attrs, avails, i, liveNames, liveAttrs, liveAvails, unassigned);
        unassigned := unassigned + [UnassignedAt(names, attrs, avails, i)];
      } else {
        var newAttrs := if attrs == [] then liveAttrs else liveAttrs + [attrs[i]];
        KeepStep(names, attrs, avails, i, liveNames, liveAttrs, liveAvails, unassigned);
        liveNames := liveNames + [names[i]];
        liveAttrs := newAttrs;
        liveAvails := liveAvails + [avails[i]];
      }
    }
  }

  /** The loop invariant of `Partition`: the lists hold the first `i`
      students, split by `NoAvailability`. */
  predicate PartitionedUpTo(names: seq<Name>, attrs: seq<Record>, avails: seq<Record>, i: nat,
                            liveNames: seq<Name>, liveAttrs: seq<Record>, liveAvails: seq<Record>, unassigned: seq<Unassigned>)
    requires |avails| <= |names| && (attrs == [] || |avails| <= |attrs|)
  {
    var flags := ZeroFlags(avails);
    && i <= |avails|
    && liveNames == Pick(names, RowsWhere(flags, false, i))
    && liveAttrs == (if attrs == [] then [] else Pick(attrs, RowsWhere(flags, false, i)))
    && liveAvails == Pick(avails, RowsWhere(flags, false, i))
    && unassigned == UnassignedList(names, attrs, avails, RowsWhere(flags, true, i))
  }

  lemma UnassignStep(names: seq<Name>, attrs: seq<Record>, avails: seq<Record>, i: nat,
                     liveNames: seq<Name>, liveAttrs: seq<Record>, liveAvails: seq<Record>, unassigned: seq<Unassigned>)
    requires |avails| <= |names| && (attrs == [] || |avails| <= |attrs|) && i < |avails|
    requires PartitionedUpTo(names, attrs, avails, i, liveNames, liveAttrs, liveAvails, unassigned)
    requires NoAvailability(Values(avails[i]))
    ensures PartitionedUpTo(names, attrs, avails, i + 1, liveNames, liveAttrs, liveAvails,
                            unassigned + [UnassignedAt(names, attrs, avails, i)])
  {
    var flags := ZeroFlags(avails);
    RowsWhereStep(flags, true, i);
    RowsWhereStep(flags, false, i);
    UnassignedAppend(names, attrs, avails, RowsWhere(flags, true, i), i);
  }

  lemma KeepStep(names: seq<Name>, attrs: seq<Record>, avails: seq<Record>, i: nat,
                 liveNames: seq<Name>, liveAttrs: seq<Record>, liveAvails: seq<Record>, unassigned: seq<Unassigned>)
    requires |avails| <= |names| && (attrs == [] || |avails| <= |attrs|) && i < |avails|
    requires PartitionedUpTo(names, attrs, avails, i, liveNames, liveAttrs, liveAvails, unassigned)
    requires !NoAvailability(Values(avails[i]))
    ensures PartitionedUpTo(names, attrs, avails, i + 1, liveNames + [names[i]],
                            if attrs == [] then liveAttrs else liveAttrs + [attrs[i]],
                            liveAvails + [avails[i]], unassigned)
  {
    var flags := ZeroFlags(avails);
    var kept := RowsWhere(flags, false, i);
    RowsWhereStep(flags, true, i);
    RowsWhereStep(flags, false, i);
    PickAppend(names, kept, i);
    if attrs != [] {
      PickAppend(attrs, kept, i);
    }
    PickAppend(avails, kept, i);
  }

  // ---------------------------------------------------------------------
  // parse_student_data

  predicate Distinct(xs: seq<string>) {
    forall a, b :: 0 <= a < b < |xs| ==> xs[a] != xs[b]
  }

  /** No requested attribute is the header of a chosen name column. */
  predicate NameColumnsNotRequested(h: seq<string>, given: seq<string>) {
    var found := FindNameIndices(h);
    found.Success? ==> forall k :: 0 <= k < |found.value| ==> h[found.value[k]] !in given
  }

  /** The tables on which `parse_student_data` returns instead of raising:
      a header row (line 49 indexes it), data rows whose widest one is exactly
      as wide as the header row, if there is any data row at all (line 65
      pads the shorter rows to the widest one, and refuses a widest row of
      any other width), distinct lower-cased headers, and no requested
      attribute that is also a name column (the source fails once that
      column is selected twice or dropped). */
  predicate WellFormedTable(data: seq<seq<string>>, given: seq<string>) {
    && |data| >= 1
    && (forall r :: 1 <= r < |data| ==> |data[r]| <= |data[0]|)
    && (|data| == 1 || exists r :: 1 <= r < |data| && |data[r]| == |data[0]|)
    && Distinct(LowerHeaders(data[0]))
    && NameColumnsNotRequested(LowerHeaders(data[0]), given)
  }

  /** A header row with a trailing comma over data rows that all stop
      before it is refused, as line 65 refuses it; so is a table with no row. */
  lemma ShortRowsRefused()
    ensures !WellFormedTable([["Name", "Mon", ""], ["Alice", "1"]], [])
    ensures !WellFormedTable([["name", "mon"], ["alice"]], [])
    ensures !WellFormedTable([], [])
  {
  }

  /** The successful result of `parse_student_data`. */
  datatype Parsed = Parsed(df: Frame, names: seq<Name>, attributes: seq<Record>,
                           availabilities: seq<Record>, unassigned: seq<Unassigned>)

  /** The student DataFrame of lines 65-94, once the name columns are known
      and every requested attribute is present. */
  function StudentFrame(data: seq<seq<string>>, h: seq<string>, nameIdx: seq<nat>, given: seq<string>): (df: Frame)
    requires |data| >= 1 && |nameIdx| >= 1 && nameIdx[0] < |h|
    ensures Rectangular(df) && |df.rows| == |data| - 1
    ensures |df.columns| == 1 + |FindDataAttributes(h, nameIdx, given).0| + |FindDataAttributes(h, nameIdx, given).1|
  {
    var (attrIdx, availIdx) := FindDataAttributes(h, nameIdx, given);
    NormalizedFrame(ReorderedFrame(data[1..], h, nameIdx, attrIdx, availIdx))
  }

  /** Lines 48-132: the roster normaliser as a whole. */
  function ParseStudentTable(data: seq<seq<string>>, given: seq<string>): Result<Parsed, ParseError>
    requires WellFormedTable(data, given)
  {
    var h := LowerHeaders(data[0]);
    match FindNameIndices(h)
    case Failure(e) => Failure(e)
    case Success(nameIdx) =>
      match FirstMissingAttribute(given, h)
      case Some(a) => Failure(MissingAttributeColumn(a))
      case None =>
        var (attrIdx, availIdx) := FindDataAttributes(h, nameIdx, given);
        SplitStudents(StudentFrame(data, h, nameIdx, given), |attrIdx|, |availIdx|)
  }

  /** Lines 97-132 on the student DataFrame whose columns are the name, then
      `attrCount` attribute columns, then `availCount` availability columns. */
  function SplitStudents(df: Frame, attrCount: nat, availCount: nat): Result<Parsed, ParseError>
    requires Rectangular(df) && |df.columns| == 1 + attrCount + availCount
  {
    var names := FrameNames(df);
    var attrs := ColumnRecords(df, 1, attrCount);
    var avails := ColumnRecords(df, 1 + attrCount, availCount);
    var live := LiveRows(avails);
    if live == [] then Failure(NoAvailableStudents)
    else Success(Parsed(df, Pick(names, live), if attrs == [] then [] else Pick(attrs, live),
                        Pick(avails, live), UnassignedList(names, attrs, avails, ZeroRows(avails))))
  }

  /** The loop of lines 57-59: the first requested attribute that is not a header. */
  method CheckAttributesPresent(given: seq<string>, h: seq<string>) returns (missing: Option<string>)
    ensures missing == FirstMissingAttribute(given, h)
  {
    for i := 0 to |given|
      invariant FirstMissingAttribute(given, h) == FirstMissingAttribute(given[i..], h)
    {
      assert given[i..][1..] == given[i + 1..];
      if given[i] !in h {
        return Some(given[i]);
      }
    }
    assert given[|given|..] == [];
    return None;
  }

  /** `parse_student_data(data, given_attributes)`. */
  method ParseStudentData(data: seq<seq<string>>, given: seq<string>) returns (r: Result<Parsed, ParseError>)
    requires WellFormedTable(data, given)
    ensures r == ParseStudentTable(data, given)
  {
    var h := LowerHeaders(data[0]);
    var found := FindNameIndices(h);
    if found.Failure? {
      return Failure(found.error);
    }
    var nameIdx := found.value;
    var missing := CheckAttributesPresent(given, h);
    if missing.Some? {
      return Failure(MissingAttributeColumn(missing.value));
    }
    var (attrIdx, availIdx) := FindDataAttributes(h, nameIdx, given);
    var df := NormalizeValueColumns(ReorderedFrame(data[1..], h, nameIdx, attrIdx, availIdx));
    assert df == StudentFrame(data, h, nameIdx, given);
    var names := FrameNames(df);
    var attrs := ColumnRecords(df, 1, |attrIdx|);
    var avails := ColumnRecords(df, 1 + |attrIdx|, |availIdx|);
    var liveNames, liveAttrs, liveAvails, unassigned := Partition(names, attrs, avails);
    if liveNames == [] {
      r := Failure(NoAvailableStudents);
    } else {
      r := Success(Parsed(df, liveNames, liveAttrs, liveAvails, unassigned));
    }
    assert r == SplitStudents(df, |attrIdx|, |availIdx|);
  }

  // ---------------------------------------------------------------------
  // The roster read straight from the table, and what parse_student_data promises

  /** A student's record over the header positions `idx`, read straight from its data row. */
  function RawRecord(h: seq<string>, row: seq<string>, idx: seq<nat>): (rec: Record)
    requires IndicesBelow(idx, |h|)
    ensures |rec| == |idx|
  {
    seq(|idx|, k requires 0 <= k < |idx| => (h[idx[k]], NormalizeCell(CellAt(row, idx[k]))))
  }

  /** Every student's record over `idx`; no records at all when `idx` is empty. */
  function RawRecords(data: seq<seq<string>>, h: seq<string>, idx: seq<nat>): (recs: seq<Record>)
    requires |data| >= 1 && IndicesBelow(idx, |h|)
    ensures idx != [] ==> |recs| == |data| - 1
  {
    if idx == [] then [] else seq(|data| - 1, r requires 0 <= r < |data| - 1 => RawRecord(h, data[r + 1], idx))
  }

  /** Every student's name. */
  function RawNames(data: seq<seq<string>>, nameIdx: seq<nat>): (names: seq<Name>)
    requires |data| >= 1 && |nameIdx| >= 1
    ensures |names| == |data| - 1
  {
    seq(|data| - 1, r requires 0 <= r < |data| - 1 => NameCell(data[r + 1], nameIdx))
  }

  /** Two name cells merged by line 70: their texts joined by one space, first name first. */
  lemma MergedNameCell(row: seq<string>, nameIdx: seq<nat>)
    requires |nameIdx| == 2
    ensures NameCell(row, nameIdx) == Some(AsStr(CellAt(row, nameIdx[0])) + " " + AsStr(CellAt(row, nameIdx[1])))
  {
    var parts := seq(|nameIdx|, k requires 0 <= k < |nameIdx| => AsStr(CellAt(row, nameIdx[k])));
    assert parts[1..] == [parts[1]];
    assert Join(parts[1..], " ") == parts[1];
    assert NameCell(row, nameIdx) == Some(Join(parts, " "));
  }

  /** One cell of the student DataFrame: the normalised cell of the data row
      under the header the column came from. */
  lemma FrameCell(rows: seq<seq<string>>, h: seq<string>, nameIdx: seq<nat>, attrIdx: seq<nat>, availIdx: seq<nat>, r: nat, c: nat)
    requires |nameIdx| >= 1 && nameIdx[0] < |h| && IndicesBelow(attrIdx, |h|) && IndicesBelow(availIdx, |h|)
    requires r < |rows| && 1 <= c <= |attrIdx| + |availIdx|
    ensures var df := NormalizedFrame(ReorderedFrame(rows, h, nameIdx, attrIdx, availIdx));
            && df.columns[c] == h[(attrIdx + availIdx)[c - 1]]
            && df.rows[r][c] == Some(NormalizeCell(CellAt(rows[r], (attrIdx + availIdx)[c - 1])))
  {
  }

  /** The records that lines 98-99 take from the student DataFrame, for the
      columns from position `from` whose headers are at positions `idx`. */
  lemma FrameRecords(data: seq<seq<string>>, h: seq<string>, nameIdx: seq<nat>, attrIdx: seq<nat>, availIdx: seq<nat>, from: nat, idx: seq<nat>)
    requires |data| >= 1 && |nameIdx| >= 1 && nameIdx[0] < |h| && IndicesBelow(attrIdx, |h|) && IndicesBelow(availIdx, |h|)
    requires 1 <= from && from - 1 + |idx| <= |attrIdx| + |availIdx|
    requires forall k :: 0 <= k < |idx| ==> (attrIdx + availIdx)[from - 1 + k] == idx[k]
    ensures var df := NormalizedFrame(ReorderedFrame(data[1..], h, nameIdx, attrIdx, availIdx));
            ColumnRecords(df, from, |idx|) == RawRecords(data, h, idx)
  {
    var df := NormalizedFrame(ReorderedFrame(data[1..], h, nameIdx, attrIdx, availIdx));
    if idx != [] {
      forall r | 0 <= r < |data| - 1
        ensures RowRecord(df.columns, df.rows[r], from, |idx|) == RawRecord(h, data[r + 1], idx)
      {
        forall k | 0 <= k < |idx|
          ensures RowRecord(df.columns, df.rows[r], from, |idx|)[k] == RawRecord(h, data[r + 1], idx)[k]
        {
          FrameCell(data[1..], h, nameIdx, attrIdx, availIdx, r, from + k);
          assert (attrIdx + availIdx)[from - 1 + k] == idx[k];
          assert data[1..][r] == data[r + 1];
          assert RowRecord(df.columns, df.rows[r], from, |idx|)[k] == (df.columns[from + k], AsStr(df.rows[r][from + k]));
          assert RawRecord(h, data[r + 1], idx)[k] == (h[idx[k]], NormalizeCell(CellAt(data[r + 1], idx[k])));
        }
      }
    }
  }

  lemma FrameNamesAreRows(data: seq<seq<string>>, h: seq<string>, nameIdx: seq<nat>, attrIdx: seq<nat>, availIdx: seq<nat>)
    requires |data| >= 1 && |nameIdx| >= 1 && nameIdx[0] < |h| && IndicesBelow(attrIdx, |h|) && IndicesBelow(availIdx, |h|)
    ensures FrameNames(NormalizedFrame(ReorderedFrame(data[1..], h, nameIdx, attrIdx, availIdx))) == RawNames(data, nameIdx)
  {
    var df := NormalizedFrame(ReorderedFrame(data[1..], h, nameIdx, attrIdx, availIdx));
    forall r | 0 <= r < |data| - 1
      ensures FrameNames(df)[r] == RawNames(data, nameIdx)[r]
    {
      assert data[1..][r] == data[r + 1];
    }
  }

  /** The DataFrame route of lines 65-99 yields the columns in the order name,
      attributes, availabilities, and the same names and records as reading
      each student straight from its row. */
  lemma StudentFrameReadsRows(data: seq<seq<string>>, h: seq<string>, nameIdx: seq<nat>, given: seq<string>)
    requires |data| >= 1 && |nameIdx| >= 1 && nameIdx[0] < |h|
    ensures var (attrIdx, availIdx) := FindDataAttributes(h, nameIdx, given);
            var df := StudentFrame(data, h, nameIdx, given);
            && df.columns == [NameColumn(h, nameIdx)] + Pick(h, attrIdx) + Pick(h, availIdx)
            && FrameNames(df) == RawNames(data, nameIdx)
            && ColumnRecords(df, 1, |attrIdx|) == RawRecords(data, h, attrIdx)
            && ColumnRecords(df, 1 + |attrIdx|, |availIdx|) == RawRecords(data, h, availIdx)
  {
    var (attrIdx, availIdx) := FindDataAttributes(h, nameIdx, given);
    assert StudentFrame(data, h, nameIdx, given) == NormalizedFrame(ReorderedFrame(data[1..], h, nameIdx, attrIdx, availIdx));
    assert Pick(h, attrIdx + availIdx) == Pick(h, attrIdx) + Pick(h, availIdx);
    FrameNamesAreRows(data, h, nameIdx, attrIdx, availIdx);
    FrameRecords(data, h, nameIdx, attrIdx, availIdx, 1, attrIdx);
    FrameRecords(data, h, nameIdx, attrIdx, availIdx, 1 + |attrIdx|, availIdx);
  }

  /** A student's normalised cells under the header positions `idx`. */
  function RowCells(row: seq<string>, idx: seq<nat>): (cells: seq<string>)
    ensures |cells| == |idx|
  {
    seq(|idx|, k requires 0 <= k < |idx| => NormalizeCell(CellAt(row, idx[k])))
  }

  /** No student has any available time: every normalised availability cell
      strips to '0' (vacuously so when there are no availability columns or
      no students). */
  predicate EveryoneUnavailable(data: seq<seq<string>>, availIdx: seq<nat>) {
    forall r :: 1 <= r < |data| ==> NoAvailability(RowCells(data[r], availIdx))
  }

  lemma RawRecordValues(h: seq<string>, row: seq<string>, idx: seq<nat>)
    requires IndicesBelow(idx, |h|)
    ensures Values(RawRecord(h, row, idx)) == RowCells(row, idx)
  {
  }

  /** The three error results of `parse_student_data`, each exactly when its
      cause holds and in the order the source checks them: no name column,
      then the first missing requested attribute, then no student with any
      available time (also when there are no availability columns at all). */
  lemma StudentTableErrors(data: seq<seq<string>>, given: seq<string>)
    requires WellFormedTable(data, given)
    ensures var h := LowerHeaders(data[0]);
            var r := ParseStudentTable(data, given);
            && (r == Failure(MissingNameColumn) <==> FindNameIndices(h).Failure?)
            && (forall a :: r == Failure(MissingAttributeColumn(a))
                  <==> FindNameIndices(h).Success? && FirstMissingAttribute(given, h) == Some(a))
            && (r == Failure(NoAvailableStudents) <==>
                  && FindNameIndices(h).Success?
                  && (forall a :: a in given ==> a in h)
                  && EveryoneUnavailable(data, FindDataAttributes(h, FindNameIndices(h).value, given).1))
  {
    var h := LowerHeaders(data[0]);
    if FindNameIndices(h).Success? && FirstMissingAttribute(given, h).None? {
      var nameIdx := FindNameIndices(h).value;
      var (attrIdx, availIdx) := FindDataAttributes(h, nameIdx, given);
      StudentFrameReadsRows(data, h, nameIdx, given);
      assert ParseStudentTable(data, given) == SplitStudents(StudentFrame(data, h, nameIdx, given), |attrIdx|, |availIdx|);
      NoLiveRowsIff(data, h, availIdx);
    }
  }

  /** Nobody is kept exactly when every student's availability cells all strip to '0'. */
  lemma NoLiveRowsIff(data: seq<seq<string>>, h: seq<string>, availIdx: seq<nat>)
    requires |data| >= 1 && IndicesBelow(availIdx, |h|)
    ensures LiveRows(RawRecords(data, h, availIdx)) == [] <==> EveryoneUnavailable(data, availIdx)
  {
    var avails := RawRecords(data, h, availIdx);
    var flags := ZeroFlags(avails);
    NoneWanted(flags, false, |avails|);
    if availIdx != [] {
      forall i | 0 <= i < |data| - 1
        ensures flags[i] == NoAvailability(RowCells(data[i + 1], availIdx))
      {
        RawRecordValues(h, data[i + 1], availIdx);
      }
      if !EveryoneUnavailable(data, availIdx) {
        var r :| 1 <= r < |data| && !NoAvailability(RowCells(data[r], availIdx));
        assert !flags[r - 1];
      }
    }
  }

  /** On success (lines 126-132): the kept students are the rows with some
      available time and the unassigned ones are the others, each in input
      order, with the names, attribute records and availability records read
      from the same row, and the DataFrame's columns are name, attributes,
      availabilities. */
  lemma StudentTableSuccess(data: seq<seq<string>>, given: seq<string>)
    requires WellFormedTable(data, given) && ParseStudentTable(data, given).Success?
    ensures var h := LowerHeaders(data[0]);
            var nameIdx := FindNameIndices(h).value;
            var (attrIdx, availIdx) := FindDataAttributes(h, nameIdx, given);
            var p := ParseStudentTable(data, given).value;
            var names := RawNames(data, nameIdx);
            var attrs := RawRecords(data, h, attrIdx);
            var avails := RawRecords(data, h, availIdx);
            && p.df.columns == [NameColumn(h, nameIdx)] + Pick(h, attrIdx) + Pick(h, availIdx)
            && avails != [] && |attrs| <= |avails| <= |names|
            && p.names == Pick(names, LiveRows(avails))
            && p.attributes == (if attrs == [] then [] else Pick(attrs, LiveRows(avails)))
            && p.availabilities == Pick(avails, LiveRows(avails))
            && p.unassigned == UnassignedList(names, attrs, avails, ZeroRows(avails))
  {
    var h := LowerHeaders(data[0]);
    var nameIdx := FindNameIndices(h).value;
    var (attrIdx, availIdx) := FindDataAttributes(h, nameIdx, given);
    StudentFrameReadsRows(data, h, nameIdx, given);
    assert ParseStudentTable(data, given) == SplitStudents(StudentFrame(data, h, nameIdx, given), |attrIdx|, |availIdx|);
  }

  /** The partition of lines 107-124 on a successful result: at least one
      kept student, kept names and availabilities index-aligned (and the
      attribute records too, when there are attribute columns), every data
      row either kept or unassigned, the kept students with some available
      time and the unassigned ones with none. */
  lemma StudentTablePartition(data: seq<seq<string>>, given: seq<string>)
    requires WellFormedTable(data, given) && ParseStudentTable(data, given).Success?
    ensures var p := ParseStudentTable(data, given).value;
            && |p.names| == |p.availabilities| >= 1
            && (p.attributes == [] || |p.attributes| == |p.names|)
            && |p.names| + |p.unassigned| == |data| - 1
            && (forall k :: 0 <= k < |p.availabilities| ==> !NoAvailability(Values(p.availabilities[k])))
            && (forall k :: 0 <= k < |p.unassigned| ==> NoAvailability(Values(p.unassigned[k].availabilities)))
  {
    var h := LowerHeaders(data[0]);
    var nameIdx := FindNameIndices(h).value;
    var (attrIdx, availIdx) := FindDataAttributes(h, nameIdx, given);
    StudentTableSuccess(data, given);
    var names, attrs, avails := RawNames(data, nameIdx), RawRecords(data, h, attrIdx), RawRecords(data, h, availIdx);
    assert availIdx != [] && |avails| == |data| - 1;
    KeptAndUnassigned(names, attrs, avails);
  }

  /** The partition on the records themselves: kept and unassigned students
      together are all of them, the kept ones with some available time and
      the unassigned ones with none. */
  lemma KeptAndUnassigned(names: seq<Name>, attrs: seq<Record>, avails: seq<Record>)
    requires |avails| <= |names| && (attrs == [] || |avails| <= |attrs|)
    ensures |LiveRows(avails)| + |ZeroRows(avails)| == |avails|
    ensures forall k :: 0 <= k < |LiveRows(avails)| ==> !NoAvailability(Values(Pick(avails, LiveRows(avails))[k]))
    ensures forall k :: 0 <= k < |ZeroRows(avails)| ==>
              NoAvailability(Values(UnassignedList(names, attrs, avails, ZeroRows(avails))[k].availabilities))
  {
    RowsPartition(avails);
    var live := LiveRows(avails);
    forall k | 0 <= k < |live|
      ensures !NoAvailability(Values(Pick(avails, live)[k]))
    {
      assert live[k] in live;
    }
    var zero := ZeroRows(avails);
    forall k | 0 <= k < |zero|
      ensures NoAvailability(Values(UnassignedList(names, attrs, avails, zero)[k].availabilities))
    {
      assert zero[k] in zero;
    }
  }

  /** With two name columns (lines 68-77): the DataFrame's name column is
      'name', neither original name column survives, and every student's name
      is the first-name cell, one space, and the last-name cell. */
  lemma StudentTableMergedNames(data: seq<seq<string>>, given: seq<string>)
    requires WellFormedTable(data, given) && ParseStudentTable(data, given).Success?
    requires |FindNameIndices(LowerHeaders(data[0])).value| == 2
    ensures var h := LowerHeaders(data[0]);
            var nameIdx := FindNameIndices(h).value;
            var p := ParseStudentTable(data, given).value;
            && p.df.columns[0] == "name"
            && h[nameIdx[0]] !in p.df.columns && h[nameIdx[1]] !in p.df.columns
            && forall r :: 0 <= r < |data| - 1 ==>
                 RawNames(data, nameIdx)[r] == Some(AsStr(CellAt(data[r + 1], nameIdx[0])) + " " + AsStr(CellAt(data[r + 1], nameIdx[1])))
  {
    var h := LowerHeaders(data[0]);
    var nameIdx := FindNameIndices(h).value;
    var (attrIdx, availIdx) := FindDataAttributes(h, nameIdx, given);
    StudentFrameReadsRows(data, h, nameIdx, given);
    assert ParseStudentTable(data, given) == SplitStudents(StudentFrame(data, h, nameIdx, given), |attrIdx|, |availIdx|);
    assert ParseStudentTable(data, given).value.df.columns == ["name"] + Pick(h, attrIdx) + Pick(h, availIdx);
    NameHeadersDropped(h, nameIdx, given);
    RawMergedNames(data, nameIdx);
  }

  /** Neither merged name header is 'name' or a header of an attribute or
      availability column. */
  lemma NameHeadersDropped(h: seq<string>, nameIdx: seq<nat>, given: seq<string>)
    requires Distinct(h) && NameColumnsNotRequested(h, given)
    requires FindNameIndices(h) == Success(nameIdx) && |nameIdx| == 2
    ensures var (attrIdx, availIdx) := FindDataAttributes(h, nameIdx, given);
            forall k :: 0 <= k < 2 ==> h[nameIdx[k]] !in ["name"] + Pick(h, attrIdx) + Pick(h, availIdx)
  {
    NameHeaderDropped(h, nameIdx, given, 0);
    NameHeaderDropped(h, nameIdx, given, 1);
  }

  lemma NameHeaderDropped(h: seq<string>, nameIdx: seq<nat>, given: seq<string>, k: nat)
    requires Distinct(h) && NameColumnsNotRequested(h, given)
    requires FindNameIndices(h) == Success(nameIdx) && |nameIdx| == 2 && k < 2
    ensures var (attrIdx, availIdx) := FindDataAttributes(h, nameIdx, given);
            h[nameIdx[k]] !in ["name"] + Pick(h, attrIdx) + Pick(h, availIdx)
  {
    var (attrIdx, availIdx) := FindDataAttributes(h, nameIdx, given);
    var x := h[nameIdx[k]];
    assert x != "name";
    assert x !in given;
    forall j | 0 <= j < |attrIdx|
      ensures h[attrIdx[j]] != x
    {
      assert attrIdx[j] in attrIdx;
    }
    NotPicked(h, attrIdx, x);
    forall j | 0 <= j < |availIdx|
      ensures h[availIdx[j]] != x
    {
      assert availIdx[j] in availIdx;
      assert availIdx[j] != nameIdx[k];
    }
    NotPicked(h, availIdx, x);
  }

  lemma NotPicked(h: seq<string>, idx: seq<nat>, x: string)
    requires IndicesBelow(idx, |h|)
    requires forall j :: 0 <= j < |idx| ==> h[idx[j]] != x
    ensures x !in Pick(h, idx)
  {
  }

  lemma RawMergedNames(data: seq<seq<string>>, nameIdx: seq<nat>)
    requires |data| >= 1 && |nameIdx| == 2
    ensures forall r :: 0 <= r < |data| - 1 ==>
              RawNames(data, nameIdx)[r] == Some(AsStr(CellAt(data[r + 1], nameIdx[0])) + " " + AsStr(CellAt(data[r + 1], nameIdx[1])))
  {
    forall r | 0 <= r < |data| - 1
      ensures RawNames(data, nameIdx)[r] == Some(AsStr(CellAt(data[r + 1], nameIdx[0])) + " " + AsStr(CellAt(data[r + 1], nameIdx[1])))
    {
      MergedNameCell(data[r + 1], nameIdx);
    }
  }

  // ---------------------------------------------------------------------
  // parse_attribute_constraints and parse_all_constraints

  /** The form field names for one attribute's bounds (lines 141 and 146). */
  function MinKey(attr: string): string {
    attr + "_min_per_group"
  }

  function MaxKey(attr: string): string {
    attr + "_max_per_group"
  }

  /** Whether the form gives at least one bound for `attr`. */
  predicate HasBound(form: map<string, int>, attr: string) {
    MinKey(attr) in form || MaxKey(attr) in form
  }

  /** Lines 138-148: the dictionary of the bounds the form gives for `attr`. */
  function BoundFromForm(form: map<string, int>, attr: string): (b: AttrBound)
    ensures b.minPerGroup.Some? <==> MinKey(attr) in form
    ensures b.maxPerGroup.Some? <==> MaxKey(attr) in form
    ensures b.minPerGroup.Some? ==> b.minPerGroup.value == form[MinKey(attr)]
    ensures b.maxPerGroup.Some? ==> b.maxPerGroup.value == form[MaxKey(attr)]
  {
    AttrBound(if MinKey(attr) in form then Some(form[MinKey(attr)]) else None,
              if MaxKey(attr) in form then Some(form[MaxKey(attr)]) else None)
  }

  /** The dictionary `parse_attribute_constraints` has built once it has seen `given`. */
  function AttributeBounds(form: map<string, int>, given: seq<string>): (d: Dict<AttrBound>)
    ensures DistinctKeys(d)
    decreases |given|
  {
    if given == [] then []
    else
      var d := AttributeBounds(form, given[..|given| - 1]);
      var attr := given[|given| - 1];
      if HasBound(form, attr) then Set(d, attr, BoundFromForm(form, attr)) else d
  }

  /** `parse_attribute_constraints(request, given_attributes)` (lines 134-154). */
  method ParseAttributeConstraints(form: map<string, int>, given: seq<string>) returns (bounds: Dict<AttrBound>)
    ensures bounds == AttributeBounds(form, given)
  {
    bounds := [];
    for i := 0 to |given|
      invariant bounds == AttributeBounds(form, given[..i])
    {
      assert given[..i + 1][..i] == given[..i];
      var attr := given[i];
      var minKey := attr + "_min_per_group";
      var maxKey := attr + "_max_per_group";
      var minBound: Option<int> := None;
      var maxBound: Option<int> := None;
      if minKey in form {
        minBound := Some(form[minKey]);
      }
      if maxKey in form {
        maxBound := Some(form[maxKey]);
      }
      if minBound.Some? || maxBound.Some? {
        bounds := Set(bounds, attr, AttrBound(minBound, maxBound));
      }
    }
    assert given[..|given|] == given;
  }

  /** An attribute has an entry exactly when it was requested and the form
      gives at least one of its two bounds, and the entry holds exactly the
      bounds the form gives. */
  lemma {:induction false} AttributeBoundsEntries(form: map<string, int>, given: seq<string>)
    ensures forall a :: a in Keys(AttributeBounds(form, given)) <==> a in given && HasBound(form, a)
    ensures forall a :: a in Keys(AttributeBounds(form, given)) ==> Get(AttributeBounds(form, given), a) == Some(BoundFromForm(form, a))
    decreases |given|
  {
    if given != [] {
      var front := given[..|given| - 1];
      var attr := given[|given| - 1];
      AttributeBoundsEntries(form, front);
      var d := AttributeBounds(form, front);
      assert forall a :: a in given <==> a in front || a == attr;
      if HasBound(form, attr) {
        var r := Set(d, attr, BoundFromForm(form, attr));
        forall a | a in Keys(r)
          ensures Get(r, a) == Some(BoundFromForm(form, a))
        {
          if a != attr {
            SetKeepsOthers(d, attr, BoundFromForm(form, attr), a);
          }
        }
      }
    }
  }

  /** The attributes that get an entry, in the order the loop adds them. */
  function BoundKeys(form: map<string, int>, given: seq<string>): seq<string>
    decreases |given|
  {
    if given == [] then []
    else
      var keys := BoundKeys(form, given[..|given| - 1]);
      var attr := given[|given| - 1];
      if HasBound(form, attr) && attr !in keys then keys + [attr] else keys
  }

  lemma {:induction false} AttributeBoundsKeys(form: map<string, int>, given: seq<string>)
    ensures Keys(AttributeBounds(form, given)) == BoundKeys(form, given)
    decreases |given|
  {
    if given != [] {
      AttributeBoundsKeys(form, given[..|given| - 1]);
    }
  }

  lemma {:induction false} BoundKeysMembers(form: map<string, int>, given: seq<string>)
    ensures forall a :: a in BoundKeys(form, given) <==> a in given && HasBound(form, a)
    decreases |given|
  {
    if given != [] {
      var front := given[..|given| - 1];
      BoundKeysMembers(form, front);
      assert forall a :: a in given <==> a in front || a == given[|given| - 1];
    }
  }

  /** The entries appear in the order their attributes were first requested. */
  lemma {:induction false} AttributeBoundsOrder(form: map<string, int>, given: seq<string>)
    ensures forall k :: 0 <= k < |Keys(AttributeBounds(form, given))| ==> Keys(AttributeBounds(form, given))[k] in given
    ensures forall i, j :: 0 <= i < j < |Keys(AttributeBounds(form, given))| ==> IndexOf(given, Keys(AttributeBounds(form, given))[i]) < IndexOf(given, Keys(AttributeBounds(form, given))[j])
  {
    AttributeBoundsKeys(form, given);
    BoundKeysOrder(form, given);
  }

  lemma {:induction false} BoundKeysOrder(form: map<string, int>, given: seq<string>)
    ensures forall k :: 0 <= k < |BoundKeys(form, given)| ==> BoundKeys(form, given)[k] in given
    ensures forall i, j :: 0 <= i < j < |BoundKeys(form, given)| ==> IndexOf(given, BoundKeys(form, given)[i]) < IndexOf(given, BoundKeys(form, given)[j])
    decreases |given|
  {
    if given != [] {
      var front := given[..|given| - 1];
      var attr := given[|given| - 1];
      BoundKeysOrder(form, front);
      BoundKeysMembers(form, front);
      var keys := BoundKeys(form, front);
      forall k | 0 <= k < |keys|
        ensures keys[k] in given && IndexOf(given, keys[k]) == IndexOf(front, keys[k])
      {
        IndexOfPrefix(given, front, keys[k]);
      }
      if HasBound(form, attr) && attr !in keys {
        assert attr !in front;
        IndexOfLast(given, attr);
        var keys' := keys + [attr];
        forall i, j | 0 <= i < j < |keys'|
          ensures IndexOf(given, keys'[i]) < IndexOf(given, keys'[j])
        {
          assert keys'[i] == keys[i];
          if j < |keys| {
            assert keys'[j] == keys[j];
            assert IndexOf(front, keys[i]) < IndexOf(front, keys[j]);
          } else {
            assert IndexOf(given, keys'[j]) == |given| - 1;
            assert IndexOf(given, keys[i]) < |given| - 1;
          }
        }
      }
    }
  }

  lemma {:induction false} IndexOfPrefix(xs: seq<string>, front: seq<string>, x: string)
    requires |front| <= |xs| && front == xs[..|front|] && x in front
    ensures x in xs && IndexOf(xs, x) == IndexOf(front, x)
  {
    if xs[0] != x {
      assert front[0] == xs[0];
      assert front[1..] == xs[1..][..|front| - 1];
      IndexOfPrefix(xs[1..], front[1..], x);
    }
  }

  lemma IndexOfLast(xs: seq<string>, x: string)
    requires xs != [] && xs[|xs| - 1] == x && x !in xs[..|xs| - 1]
    ensures IndexOf(xs, x) == |xs| - 1
  {
  }

  /** The `combined_constraints` form field: absent, not valid JSON, or the
      decoded list of combined bounds. */
  datatype CombinedField = Absent | Malformed | Decoded(bounds: seq<CombinedBound>)

  /** Lines 182-187: the combined bounds, `[]` unless the field decodes. */
  function CombinedBounds(field: CombinedField): (r: seq<CombinedBound>)
    ensures field.Decoded? ==> r == field.bounds
    ensures !field.Decoded? ==> r == []
  {
    match field
    case Decoded(bs) => bs
    case _ => []
  }

  /** A numeric form field, or its default when the form does not give it. */
  function FieldOr(form: map<string, int>, key: string, default: int): (v: int)
    ensures key in form ==> v == form[key]
    ensures key !in form ==> v == default
  {
    if key in form then form[key] else default
  }

  /** `parse_all_constraints` (lines 156-190): the group size bounds default
      to 1 and the number of students, the group count bounds to 1 and the
      number of availability columns, the attribute bounds are those the form
      gives for the requested attributes, and the combined bounds are the
      decoded list or `[]`. */
  method ParseAllConstraints(form: map<string, int>, combinedField: CombinedField,
                             numStudents: int, numAvailabilities: int, given: seq<string>)
    returns (c: SchedulingConstraints)
    ensures c.groupSizeMax == FieldOr(form, "group_size_max", numStudents)
    ensures c.groupSizeMin == FieldOr(form, "group_size_min", 1)
    ensures c.groupCountMin == FieldOr(form, "group_count_min", 1)
    ensures c.groupCountMax == FieldOr(form, "group_count_max", numAvailabilities)
    ensures c.attributeBounds == AttributeBounds(form, given)
    ensures c.combined == CombinedBounds(combinedField)
  {
    var groupSizeMax := numStudents;
    if "group_size_max" in form {
      groupSizeMax := form["group_size_max"];
    }
    var groupSizeMin := 1;
    if "group_size_min" in form {
      groupSizeMin := form["group_size_min"];
    }
    var groupCountMin := 1;
    if "group_count_min" in form {
      groupCountMin := form["group_count_min"];
    }
    var groupCountMax := numAvailabilities;
    if "group_count_max" in form {
      groupCountMax := form["group_count_max"];
    }
    var attributeBounds := ParseAttributeConstraints(form, given);
    var combined: seq<CombinedBound> := [];
    if combinedField.Decoded? {
      combined := combinedField.bounds;
    }
    c := SchedulingConstraints(attributeBounds, groupSizeMin, groupSizeMax, groupCountMin, groupCountMax, combined);
  }
}
