/**
 * The attendance records as the service sees them: the raw JSON records of the Spring
 * endpoint, the pandas frame `_to_df` builds from them (one `Row` per record, plus the set of
 * column names, since several rules test `"col" in df`), and the minute fill-in rules.
 *
 * `pd.to_datetime(..., errors="coerce")` is a parameter (`Parsers`): a value it cannot parse
 * becomes NaT, written `None`. Date-times are kept to the whole minute.
 */
module AttendanceFrame {
  import opened Wrappers
  import opened PyStr
  import opened JavaTime

  // ---------------------------------------------------------------------------
  // Dates and times
  // ---------------------------------------------------------------------------

  datatype Date = Date(year: int, month: int, day: int)

  datatype DateTime = DateTime(date: Date, hour: int, minute: int)

  function DaysInMonth(year: int, month: int): int
  {
    if month == 2 then (if (year % 4 == 0 && year % 100 != 0) || year % 400 == 0 then 29 else 28)
    else if month == 4 || month == 6 || month == 9 || month == 11 then 30
    else 31
  }

  predicate ValidDate(d: Date)
  {
    1 <= d.year <= 9999 && 1 <= d.month <= 12 && 1 <= d.day <= DaysInMonth(d.year, d.month)
  }

  predicate ValidDateTime(t: DateTime)
  {
    ValidDate(t.date) && 0 <= t.hour < 24 && 0 <= t.minute < 60
  }

  /** Python's `date < date`: by year, then month, then day. */
  predicate DateBefore(a: Date, b: Date)
  {
    a.year < b.year || (a.year == b.year && (a.month < b.month || (a.month == b.month && a.day < b.day)))
  }

  /** An integer that orders valid dates as `DateBefore` does. */
  function DateKey(d: Date): int
  {
    d.year * 10000 + d.month * 100 + d.day
  }

  lemma DateKeyOrder(a: Date, b: Date)
    requires ValidDate(a) && ValidDate(b)
    ensures DateBefore(a, b) <==> DateKey(a) < DateKey(b)
    ensures DateKey(a) == DateKey(b) <==> a == b
  {
  }

  /** Days since 1970-01-01 in the proleptic Gregorian calendar. */
  function DayNumber(d: Date): int
  {
    var y := if d.month <= 2 then d.year - 1 else d.year;
    var era := y / 400;
    var yoe := y - era * 400;
    var mp := (d.month + 9) % 12;
    var doy := (153 * mp + 2) / 5 + d.day - 1;
    var doe := yoe * 365 + yoe / 4 - yoe / 100 + doy;
    era * 146097 + doe - 719468
  }

  /** Minutes since 1970-01-01 00:00. */
  function EpochMinutes(t: DateTime): int
  {
    DayNumber(t.date) * 1440 + t.hour * 60 + t.minute
  }

  /** `date.isoformat()` */
  function Iso(d: Date): string
  {
    DateText(d.year, d.month, d.day)
  }

  // ---------------------------------------------------------------------------
  // Records and frames
  // ---------------------------------------------------------------------------

  /** One record of `/admin/attendance/list`. `keys` are the keys it carries; the value of a
      key it lacks is never read. Text fields arrive as text or null. */
  datatype RawRecord = RawRecord(
    keys: set<string>,
    empId: Option<string>, empName: Option<string>,
    workDate: JavaValue, checkIn: JavaValue, checkOut: JavaValue,
    workStatus: Option<string>, workType: Option<string>,
    normalWorkMinutes: JavaValue, overtimeWorkMinutes: JavaValue,
    unpaidMinutes: JavaValue, totalWorkMinutes: JavaValue)

  /** One row of the frame after `_to_df`. */
  datatype Row = Row(
    empId: Option<string>, empName: Option<string>,
    workDate: Option<Date>, checkIn: Option<DateTime>, checkOut: Option<DateTime>,
    workStatus: Option<string>, workType: Option<string>,
    normal: int, overtime: int, unpaid: int, total: int)

  datatype Frame = Frame(columns: set<string>, rows: seq<Row>)

  /** `df.empty`: no rows, or no columns at all. */
  predicate IsEmpty(f: Frame)
  {
    f.rows == [] || f.columns == {}
  }

  /** The parsers of `pd.to_datetime(..., errors="coerce")`: of a date column, of a raw
      date-time value, and of the ISO text `_normalize_java_time` produces. */
  datatype Parsers = Parsers(
    date: JavaValue -> Option<Date>,
    dateTime: JavaValue -> Option<DateTime>,
    isoDateTime: string -> Option<DateTime>)

  const MinuteColumns: set<string> := {"normalWorkMinutes", "overtimeWorkMinutes", "unpaidMinutes", "totalWorkMinutes"}

  /** The columns of `pd.DataFrame(records)`: every key some record has. */
  function KeyUnion(records: seq<RawRecord>): (r: set<string>)
    ensures forall i :: 0 <= i < |records| ==> records[i].keys <= r
    ensures forall k :: k in r ==> exists i :: 0 <= i < |records| && k in records[i].keys
  {
    if records == [] then {}
    else
      var rest := KeyUnion(records[1..]);
      assert forall i :: 1 <= i < |records| ==> records[i] == records[1..][i - 1];
      records[0].keys + rest
  }

  /** The value pandas sees in a column: the record's own value, or NaN when it lacks the key. */
  function Cell(rec: RawRecord, key: string, v: JavaValue): JavaValue
  {
    if key in rec.keys then v else JNaN
  }

  function TextCell(rec: RawRecord, key: string, v: Option<string>): Option<string>
  {
    if key in rec.keys then v else None
  }

  predicate Nullish(v: JavaValue)
  {
    v == JNull || v == JNaN
  }

  predicate AllDigits(s: string)
  {
    forall i :: 0 <= i < |s| ==> IsDigit(s[i])
  }

  /** A number written in decimal: its sign, the digits before and after the point, and the
      power of ten it is scaled by. */
  datatype Numeral = Numeral(negative: bool, whole: string, fraction: string, exponent: int)

  predicate ValidNumeral(n: Numeral)
  {
    AllDigits(n.whole) && AllDigits(n.fraction) && |n.whole| + |n.fraction| >= 1
  }

  /** How `pd.to_numeric` reads a (stripped) text: an optional sign, digits with an optional
      fractional part (at least one digit in all), and an optional exponent `e`/`E` with its
      own optional sign. `None` is a text it cannot read, which `errors="coerce"` makes NaN. */
  function NumericText(s: string): (r: Option<Numeral>)
    ensures r.Some? ==> ValidNumeral(r.value)
  {
    var negative := s != [] && s[0] == '-';
    var body := if s != [] && (s[0] == '-' || s[0] == '+') then s[1..] else s;
    match ExponentSplit(body)
    case None => None
    case Some((mantissa, k)) =>
      match MantissaSplit(mantissa)
      case None => None
      case Some((whole, fraction)) => Some(Numeral(negative, whole, fraction, k))
  }

  /** The mantissa text and the exponent of an unsigned number: `0` without an `e`/`E`. */
  function ExponentSplit(body: string): Option<(string, int)>
  {
    var parts := SplitOn(Lower(body), 'e');
    if |parts| == 1 then Some((parts[0], 0))
    else if |parts| == 2 && SignedDigits(parts[1]).Some? then Some((parts[0], SignedDigits(parts[1]).value))
    else None
  }

  /** The digits before and after the point of a mantissa, at least one digit in all. */
  function MantissaSplit(m: string): (r: Option<(string, string)>)
    ensures r.Some? ==> AllDigits(r.value.0) && AllDigits(r.value.1) && |r.value.0| + |r.value.1| >= 1
  {
    var parts := SplitOn(m, '.');
    var whole := parts[0];
    var fraction := if |parts| == 2 then parts[1] else [];
    if |parts| > 2 || |whole| + |fraction| == 0 || !AllDigits(whole) || !AllDigits(fraction) then None
    else Some((whole, fraction))
  }

  /** `astype(int)` of the number a numeral denotes: truncation toward zero. The point moves
      `exponent` places, padding with zeros, and the digits left after it are dropped. */
  function Truncate(n: Numeral): int
    requires ValidNumeral(n)
  {
    var k := n.exponent;
    var digits := n.whole + n.fraction;
    var point := |n.whole| + k;
    var magnitude :=
      if point <= 0 then 0
      else if point <= |digits| then DigitsValue(digits[..point])
      else DigitsValue(digits + Repeat('0', point - |digits|));
    if n.negative then -magnitude else magnitude
  }

  /** `pd.to_numeric(col, errors="coerce").fillna(0).astype(int)` on one value: an integer
      stays, a numeric text is read as a number and truncated toward zero, and anything else
      is NaN, filled with 0. */
  function MinuteValue(v: JavaValue): int
  {
    match v
    case JInt(i) => i
    case JText(s) => (match NumericText(Strip(s)) case Some(d) => Truncate(d) case None => 0)
    case _ => 0
  }

  function ParseDate(p: Parsers, v: JavaValue): Option<Date>
  {
    if Nullish(v) then None else p.date(v)
  }

  function ParseDateTime(p: Parsers, v: JavaValue): Option<DateTime>
  {
    if Nullish(v) then None else p.dateTime(v)
  }

  /** `_normalize_java_time` of a record's check-in and check-out cells. */
  function CheckInNorm(rec: RawRecord): Normalized
  {
    NormalizeJavaTime(Cell(rec, "checkIn", rec.checkIn))
  }

  function CheckOutNorm(rec: RawRecord): Normalized
  {
    NormalizeJavaTime(Cell(rec, "checkOut", rec.checkOut))
  }

  /** `df["checkIn"].apply(_normalize_java_time)` and the same for `checkOut`, cell by cell. */
  function CheckIns(records: seq<RawRecord>): seq<Normalized>
  {
    seq(|records|, i requires 0 <= i < |records| => CheckInNorm(records[i]))
  }

  function CheckOuts(records: seq<RawRecord>): seq<Normalized>
  {
    seq(|records|, i requires 0 <= i < |records| => CheckOutNorm(records[i]))
  }

  /** `i` is the first cell of the column on which the formatter raises. */
  predicate FirstRaising(col: seq<Normalized>, i: int)
  {
    0 <= i < |col| && col[i].Raises? && forall j :: 0 <= j < i ==> !col[j].Raises?
  }

  /** `col.apply(_normalize_java_time)` stops at the first cell that raises: `None` when no
      cell does, otherwise the exception of that first cell. */
  function FirstRaise(col: seq<Normalized>): (r: Option<string>)
    ensures r.None? <==> forall i :: 0 <= i < |col| ==> !col[i].Raises?
    ensures r.Some? ==> exists i :: FirstRaising(col, i) && col[i].error == r.value
  {
    if col == [] then None
    else if col[0].Raises? then Some(col[0].error)
    else
      var r := FirstRaise(col[1..]);
      assert forall i :: 1 <= i < |col| ==> col[i] == col[1..][i - 1];
      if r.Some? then
        var i :| FirstRaising(col[1..], i) && col[1..][i].error == r.value;
        assert FirstRaising(col, i + 1);
        r
      else r
  }

  /** `pd.to_datetime(..., errors="coerce")` of what the formatter gave; `None` is NaT. */
  function TimeOf(p: Parsers, n: Normalized): Option<DateTime>
  {
    match n
    case Text(s) => p.isoDateTime(s)
    case _ => None
  }

  /** The row of one record, given how its check-in and check-out were parsed. */
  function RowOf(p: Parsers, rec: RawRecord, checkIn: Option<DateTime>, checkOut: Option<DateTime>): Row
  {
    Row(TextCell(rec, "empId", rec.empId), TextCell(rec, "empName", rec.empName),
        ParseDate(p, Cell(rec, "workDate", rec.workDate)), checkIn, checkOut,
        TextCell(rec, "workStatus", rec.workStatus), TextCell(rec, "workType", rec.workType),
        MinuteValue(Cell(rec, "normalWorkMinutes", rec.normalWorkMinutes)),
        MinuteValue(Cell(rec, "overtimeWorkMinutes", rec.overtimeWorkMinutes)),
        MinuteValue(Cell(rec, "unpaidMinutes", rec.unpaidMinutes)),
        MinuteValue(Cell(rec, "totalWorkMinutes", rec.totalWorkMinutes)))
  }

  /** The rows of `_to_df` when check-in and check-out go through `_normalize_java_time`:
      the whole check-in column is formatted before the check-out column, and the first
      value the formatter cannot convert makes the whole call raise. */
  function NormalizedRows(p: Parsers, records: seq<RawRecord>): (r: Result<seq<Row>, string>)
    ensures r.Ok? ==> |r.value| == |records|
    ensures r.Err? ==> r.error == "TypeError" || r.error == "ValueError"
  {
    var ins := CheckIns(records);
    var outs := CheckOuts(records);
    match FirstRaise(ins)
    case Some(e) =>
      var i :| FirstRaising(ins, i) && ins[i].error == e;
      assert ins[i] == NormalizeJavaTime(Cell(records[i], "checkIn", records[i].checkIn));
      Err(e)
    case None =>
      match FirstRaise(outs)
      case Some(e) =>
        var i :| FirstRaising(outs, i) && outs[i].error == e;
        assert outs[i] == NormalizeJavaTime(Cell(records[i], "checkOut", records[i].checkOut));
        Err(e)
      case None =>
        Ok(seq(|records|, i requires 0 <= i < |records| =>
          RowOf(p, records[i], TimeOf(p, ins[i]), TimeOf(p, outs[i]))))
  }

  /** The rows of `_to_df` when check-in and check-out are parsed as they arrive. */
  function RawRows(p: Parsers, records: seq<RawRecord>): (r: seq<Row>)
    ensures |r| == |records|
    ensures forall i :: 0 <= i < |records| ==> (r[i] ==
      RowOf(p, records[i], ParseDateTime(p, Cell(records[i], "checkIn", records[i].checkIn)),
                           ParseDateTime(p, Cell(records[i], "checkOut", records[i].checkOut))))
  {
    seq(|records|, i requires 0 <= i < |records| =>
      RowOf(p, records[i], ParseDateTime(p, Cell(records[i], "checkIn", records[i].checkIn)),
                           ParseDateTime(p, Cell(records[i], "checkOut", records[i].checkOut))))
  }

  /** The columns every non-empty frame ends with: the parsed dates and the minute columns. */
  function BuiltColumns(records: seq<RawRecord>): set<string>
  {
    KeyUnion(records) + {"workDate", "checkInDt", "checkOutDt"} + MinuteColumns
  }

  /** `_to_df` of `app.py` and `routes.py`. `df.get("workDate")` is `None` when no record has
      that key, and `.dt` on it raises. */
  function ToDfNormalizing(p: Parsers, records: seq<RawRecord>): (r: Result<Frame, string>)
    ensures records == [] ==> r == Ok(Frame({}, []))
    ensures records != [] && "workDate" !in KeyUnion(records) ==> r == Err("AttributeError")
    ensures r.Err? ==> r.error == "AttributeError" || r.error == "TypeError" || r.error == "ValueError"
    ensures r.Ok? && records != [] ==>
      && |r.value.rows| == |records|
      && KeyUnion(records) + MinuteColumns + {"checkInDt", "checkOutDt"} <= r.value.columns
  {
    if records == [] then Ok(Frame({}, []))
    else if "workDate" !in KeyUnion(records) then Err("AttributeError")
    else
      match NormalizedRows(p, records)
      case Ok(rows) => Ok(Frame(BuiltColumns(records), rows))
      case Err(e) => Err(e)
  }

  /** `_to_df` of `storage1.py`: `df["workDate"]` without such a column raises `KeyError`. */
  function ToDfStorage1(p: Parsers, records: seq<RawRecord>): (r: Result<Frame, string>)
    ensures records == [] ==> r == Ok(Frame({}, []))
    ensures r.Err? <==> records != [] && "workDate" !in KeyUnion(records)
    ensures r.Err? ==> r.error == "KeyError"
    ensures r.Ok? && records != [] ==>
      && |r.value.rows| == |records|
      && KeyUnion(records) + MinuteColumns + {"checkInDt", "checkOutDt"} <= r.value.columns
  {
    if records == [] then Ok(Frame({}, []))
    else if "workDate" !in KeyUnion(records) then Err("KeyError")
    else Ok(Frame(BuiltColumns(records), RawRows(p, records)))
  }

  const DefendedColumns: set<string> := {"empId", "empName", "workStatus", "workType"}

  /** `df[df["empId"].notna()]` then `df[df["workDate"].notna()]`. */
  function KeepIdentified(rows: seq<Row>): (r: seq<Row>)
    ensures |r| <= |rows|
  {
    if rows == [] then []
    else (if rows[0].empId.Some? && rows[0].workDate.Some? then [rows[0]] else []) + KeepIdentified(rows[1..])
  }

  /** `_to_df` of `storage2.py`: every column it reads is defended, and unidentified rows go. */
  function ToDfStorage2(p: Parsers, records: seq<RawRecord>): (f: Frame)
    ensures records == [] ==> f == Frame({}, [])
    ensures |f.rows| <= |records|
    ensures records != [] ==> DefendedColumns + MinuteColumns + {"workDate"} <= f.columns
    ensures forall i :: 0 <= i < |f.rows| ==> f.rows[i].empId.Some? && f.rows[i].workDate.Some?
  {
    if records == [] then Frame({}, [])
    else
      KeepIdentifiedExact(RawRows(p, records));
      Frame(BuiltColumns(records) + DefendedColumns, KeepIdentified(RawRows(p, records)))
  }

  // ---------------------------------------------------------------------------
  // Properties of the three `_to_df`
  // ---------------------------------------------------------------------------

  /** No records gives the empty frame, without columns. */
  lemma ToDfOfNothing(p: Parsers)
    ensures ToDfNormalizing(p, []) == Ok(Frame({}, []))
    ensures ToDfStorage1(p, []) == Ok(Frame({}, []))
    ensures ToDfStorage2(p, []) == Frame({}, [])
    ensures IsEmpty(ToDfStorage2(p, []))
  {
  }

  /** A missing minute key gives 0, and so does a value `to_numeric` cannot read. */
  lemma MinutesDefaultToZero(p: Parsers, rec: RawRecord, ci: Option<DateTime>, co: Option<DateTime>)
    requires "unpaidMinutes" !in rec.keys
    requires rec.overtimeWorkMinutes.JNull? || rec.overtimeWorkMinutes.JList? || rec.overtimeWorkMinutes.JDict?
    ensures RowOf(p, rec, ci, co).unpaid == 0
    ensures RowOf(p, rec, ci, co).overtime == 0
  {
  }

  /** An integer, and a text of digits, keep their value. */
  lemma MinutesKept(v: int, s: string)
    requires s != [] && AllDigits(s)
    ensures MinuteValue(JInt(v)) == v
    ensures MinuteValue(JText(s)) == DigitsValue(s)
  {
    StripOfDigits(s);
    LowerOfNumeric(s);
    SplitOnNone(s, 'e');
    SplitOnNone(s, '.');
    assert NumericText(s) == Some(Numeral(false, s, [], 0));
    assert s + [][..0] == s;
  }

  /** A text with a fractional part is truncated toward zero: `"12.5"` counts 12 minutes and
      `"-7.9"` counts -7. */
  lemma MinutesFraction(a: string, b: string)
    requires AllDigits(a) && AllDigits(b) && |a| + |b| >= 1
    ensures MinuteValue(JText(a + "." + b)) == DigitsValue(a)
    ensures MinuteValue(JText("-" + (a + "." + b))) == 0 - DigitsValue(a)
  {
    DecimalNumeral(a, b);
    DecimalStripped(a, b);
    MinuteOfNumeral(a + "." + b, Numeral(false, a, b, 0));
    MinuteOfNumeral("-" + (a + "." + b), Numeral(true, a, b, 0));
    TruncateUnscaled(Numeral(false, a, b, 0));
    TruncateUnscaled(Numeral(true, a, b, 0));
  }

  lemma MinuteOfNumeral(s: string, n: Numeral)
    requires NumericText(Strip(s)) == Some(n)
    ensures MinuteValue(JText(s)) == Truncate(n)
  {
  }

  /** Without an exponent, the digits after the point are dropped. */
  lemma TruncateUnscaled(n: Numeral)
    requires ValidNumeral(n) && n.exponent == 0
    ensures Truncate(n) == if n.negative then 0 - DigitsValue(n.whole) else DigitsValue(n.whole)
  {
    assert n.whole + n.fraction[..0] == n.whole;
  }

  lemma DecimalStripped(a: string, b: string)
    requires AllDigits(a) && AllDigits(b)
    ensures Strip(a + "." + b) == a + "." + b
    ensures Strip("-" + (a + "." + b)) == "-" + (a + "." + b)
  {
    var body := a + "." + b;
    assert !IsSpace(body[0]) && !IsSpace(body[|body| - 1]) by {
      assert body[0] == (if a == [] then '.' else a[0]);
      assert body[|body| - 1] == (if b == [] then '.' else b[|b| - 1]);
    }
    StripOfNonSpaceEnds(body);
    StripOfNonSpaceEnds("-" + body);
  }

  lemma DecimalNumeral(a: string, b: string)
    requires AllDigits(a) && AllDigits(b) && |a| + |b| >= 1
    ensures NumericText(a + "." + b) == Some(Numeral(false, a, b, 0))
    ensures NumericText("-" + (a + "." + b)) == Some(Numeral(true, a, b, 0))
  {
    var body := a + "." + b;
    DecimalSplits(a, b);
    UnsignedNumeral(body, Numeral(false, a, b, 0));
  }

  /** The sign in front of an unsigned numeral only sets its sign. */
  lemma UnsignedNumeral(body: string, n: Numeral)
    requires ExponentSplit(body) == Some((n.whole + "." + n.fraction, n.exponent))
    requires MantissaSplit(n.whole + "." + n.fraction) == Some((n.whole, n.fraction))
    requires body == [] || (body[0] != '-' && body[0] != '+')
    ensures NumericText(body) == Some(n.(negative := false))
    ensures NumericText("-" + body) == Some(n.(negative := true))
  {
    assert ("-" + body)[1..] == body;
  }

  lemma DecimalSplits(a: string, b: string)
    requires AllDigits(a) && AllDigits(b) && |a| + |b| >= 1
    ensures ExponentSplit(a + "." + b) == Some((a + "." + b, 0))
    ensures MantissaSplit(a + "." + b) == Some((a, b))
    ensures (a + "." + b)[0] != '-' && (a + "." + b)[0] != '+'
  {
    var body := a + "." + b;
    forall i | 0 <= i < |body|
      ensures IsDigit(body[i]) || body[i] == '.'
    {
      if i < |a| {
        assert body[i] == a[i];
      } else if i > |a| {
        assert body[i] == b[i - |a| - 1];
      }
    }
    LowerOfNumeric(body);
    SplitOnNone(body, 'e');
    SplitOnAt(a, '.', b);
    SplitOnNone(b, '.');
  }

  /** A text with an exponent is scaled by it: `"1e3"` and `"1E3"` count 1000 minutes. */
  lemma MinutesExponent(a: string, k: string)
    requires a != [] && AllDigits(a) && k != [] && AllDigits(k)
    ensures MinuteValue(JText(a + "e" + k)) == DigitsValue(a) * Pow10(DigitsValue(k))
    ensures MinuteValue(JText(a + "E" + k)) == DigitsValue(a) * Pow10(DigitsValue(k))
  {
    ExponentValue(a, k, 'e');
    ExponentValue(a, k, 'E');
  }

  lemma ExponentValue(a: string, k: string, e: char)
    requires a != [] && AllDigits(a) && k != [] && AllDigits(k) && (e == 'e' || e == 'E')
    ensures MinuteValue(JText(a + [e] + k)) == DigitsValue(a) * Pow10(DigitsValue(k))
  {
    var n := Numeral(false, a, [], DigitsValue(k));
    ExponentNumeral(a, k, e);
    MinuteOfNumeral(a + [e] + k, n);
    TruncateScaled(a, DigitsValue(k));
  }

  /** A whole number scaled by `10^z` gains `z` zeros. */
  lemma TruncateScaled(a: string, z: nat)
    requires a != [] && AllDigits(a)
    ensures Truncate(Numeral(false, a, [], z)) == DigitsValue(a) * Pow10(z)
  {
    assert a + [] == a;
    if z == 0 {
      assert a[..|a|] == a;
    }
    DigitsValueZeros(a, z);
  }

  lemma ExponentNumeral(a: string, k: string, e: char)
    requires a != [] && AllDigits(a) && k != [] && AllDigits(k) && (e == 'e' || e == 'E')
    ensures Strip(a + [e] + k) == a + [e] + k
    ensures NumericText(a + [e] + k) == Some(Numeral(false, a, [], DigitsValue(k)))
  {
    var s := a + [e] + k;
    assert s[0] == a[0] && s[|s| - 1] == k[|k| - 1];
    StripOfNonSpaceEnds(s);
    ExponentSplitOf(a, k, e);
    SplitOnNone(a, '.');
    assert MantissaSplit(a) == Some((a, []));
  }

  lemma ExponentSplitOf(a: string, k: string, e: char)
    requires AllDigits(a) && k != [] && AllDigits(k) && (e == 'e' || e == 'E')
    ensures ExponentSplit(a + [e] + k) == Some((a, DigitsValue(k)))
  {
    var lower := a + "e" + k;
    forall i | 0 <= i < |lower|
      ensures IsDigit(lower[i]) || lower[i] == 'e'
    {
      if i < |a| {
        assert lower[i] == a[i];
      } else if i > |a| {
        assert lower[i] == k[i - |a| - 1];
      }
    }
    LowerOfNumeric(lower);
    assert Lower(a + [e] + k) == lower;
    SplitOnAt(a, 'e', k);
    SplitOnNone(k, 'e');
    SignedDigitsOfDigits(k);
  }

  /** Appending `z` zeros multiplies by `10^z`. */
  lemma {:induction false} DigitsValueZeros(s: string, z: nat)
    requires AllDigits(s)
    ensures AllDigits(s + Repeat('0', z))
    ensures DigitsValue(s + Repeat('0', z)) == DigitsValue(s) * Pow10(z)
  {
    var t := s + Repeat('0', z);
    if z == 0 {
      assert t == s;
    } else {
      DigitsValueZeros(s, z - 1);
      assert t[..|t| - 1] == s + Repeat('0', z - 1);
      assert t[|t| - 1] == '0';
      assert DigitsValue(t) == DigitsValue(s) * Pow10(z - 1) * 10;
      assert Pow10(z) == 10 * Pow10(z - 1);
    }
  }

  /** A text of digits, signs, points and a lower-case `e` is its own lower case. */
  lemma LowerOfNumeric(s: string)
    requires forall i :: 0 <= i < |s| ==> IsDigit(s[i]) || s[i] == '.' || s[i] == 'e'
    ensures Lower(s) == s
  {
  }

  lemma SignedDigitsOfDigits(s: string)
    requires s != [] && AllDigits(s)
    ensures SignedDigits(s) == Some(DigitsValue(s))
  {
    assert IsDigit(s[0]);
  }

  lemma StripOfDigits(s: string)
    requires s != [] && AllDigits(s)
    ensures Strip(s) == s
  {
    assert IsDigit(s[0]) && IsDigit(s[|s| - 1]);
    StripOfNonSpaceEnds(s);
  }

  lemma StripOfNonSpaceEnds(s: string)
    requires s != [] && !IsSpace(s[0]) && !IsSpace(s[|s| - 1])
    ensures Strip(s) == s
  {
    assert LStrip(s) == s;
    assert RStrip(s) == s;
  }

  /** After `_to_df` of `app.py`/`routes.py`, every minute column and both date-time columns
      exist, whatever keys the records had, and there is one row per record. */
  lemma NormalizingColumns(p: Parsers, records: seq<RawRecord>)
    requires ToDfNormalizing(p, records).Ok? && records != []
    ensures MinuteColumns <= ToDfNormalizing(p, records).value.columns
    ensures {"workDate", "checkInDt", "checkOutDt"} <= ToDfNormalizing(p, records).value.columns
    ensures |ToDfNormalizing(p, records).value.rows| == |records|
  {
  }

  /** The `app.py`/`routes.py` rows raise exactly when some record's check-in or check-out
      cannot be formatted. The error is that of the first check-in that raises; only when every
      check-in formats is it that of the first check-out that raises. Without an error, row
      `i` holds the parsed check-in and check-out of record `i`. */
  lemma NormalizedRowsRaise(p: Parsers, records: seq<RawRecord>)
    ensures NormalizedRows(p, records).Err? <==>
      exists i :: 0 <= i < |records| && (CheckInNorm(records[i]).Raises? || CheckOutNorm(records[i]).Raises?)
    ensures forall i :: FirstRaising(CheckIns(records), i) ==>
      NormalizedRows(p, records) == Err(CheckInNorm(records[i]).error)
    ensures (forall i :: 0 <= i < |records| ==> !CheckInNorm(records[i]).Raises?) ==>
      forall i :: FirstRaising(CheckOuts(records), i) ==>
        NormalizedRows(p, records) == Err(CheckOutNorm(records[i]).error)
    ensures NormalizedRows(p, records).Ok? ==> forall i :: 0 <= i < |records| ==>
      NormalizedRows(p, records).value[i] ==
        RowOf(p, records[i], TimeOf(p, CheckInNorm(records[i])), TimeOf(p, CheckOutNorm(records[i])))
  {
    var ins := CheckIns(records);
    var outs := CheckOuts(records);
    forall i | FirstRaising(ins, i)
      ensures NormalizedRows(p, records) == Err(CheckInNorm(records[i]).error)
    {
      var k :| FirstRaising(ins, k) && ins[k].error == FirstRaise(ins).value;
      FirstRaisingUnique(ins, i, k);
    }
    if forall i :: 0 <= i < |records| ==> !CheckInNorm(records[i]).Raises? {
      forall i | FirstRaising(outs, i)
        ensures NormalizedRows(p, records) == Err(CheckOutNorm(records[i]).error)
      {
        var k :| FirstRaising(outs, k) && outs[k].error == FirstRaise(outs).value;
        FirstRaisingUnique(outs, i, k);
      }
    }
  }

  lemma FirstRaisingUnique(col: seq<Normalized>, i: int, k: int)
    requires FirstRaising(col, i) && FirstRaising(col, k)
    ensures i == k
  {
  }

  /** `storage1.py` needs a `workDate` key in some record; the other variants differ there. */
  lemma Storage1NeedsWorkDate(p: Parsers, records: seq<RawRecord>)
    requires records != [] && forall i :: 0 <= i < |records| ==> "workDate" !in records[i].keys
    ensures ToDfStorage1(p, records) == Err("KeyError")
    ensures ToDfNormalizing(p, records) == Err("AttributeError")
    ensures ToDfStorage2(p, records).rows == []
  {
    KeepNoneWithoutDates(RawRows(p, records));
  }

  lemma {:induction false} KeepNoneWithoutDates(rows: seq<Row>)
    requires forall i :: 0 <= i < |rows| ==> rows[i].workDate.None?
    ensures KeepIdentified(rows) == []
  {
    if rows != [] {
      KeepNoneWithoutDates(rows[1..]);
    }
  }

  /** `df[mask]` keeps exactly the identified rows, in order. */
  lemma {:induction false} KeepIdentifiedExact(rows: seq<Row>)
    ensures forall r :: r in KeepIdentified(rows) <==> r in rows && r.empId.Some? && r.workDate.Some?
    ensures KeepIdentified(rows) == rows <==> forall i :: 0 <= i < |rows| ==> rows[i].empId.Some? && rows[i].workDate.Some?
  {
    if rows != [] {
      KeepIdentifiedExact(rows[1..]);
      var rest := KeepIdentified(rows[1..]);
      if !(rows[0].empId.Some? && rows[0].workDate.Some?) {
        assert |KeepIdentified(rows)| < |rows|;
      } else {
        assert KeepIdentified(rows) == [rows[0]] + rest;
        if rest == rows[1..] {
          assert rows == [rows[0]] + rows[1..];
        }
        assert (forall i :: 0 <= i < |rows| ==> rows[i].empId.Some? && rows[i].workDate.Some?) <==>
               (forall i :: 0 <= i < |rows[1..]| ==> rows[1..][i].empId.Some? && rows[1..][i].workDate.Some?);
      }
    }
  }

  /** The `storage2.py` frame has the four defended columns and only identified rows. */
  lemma Storage2Defended(p: Parsers, records: seq<RawRecord>)
    requires records != []
    ensures DefendedColumns + MinuteColumns <= ToDfStorage2(p, records).columns
    ensures forall r :: r in ToDfStorage2(p, records).rows ==> r.empId.Some? && r.workDate.Some?
    ensures forall i :: (0 <= i < |records| && "empId" in records[i].keys && records[i].empId.Some? &&
                         ParseDate(p, Cell(records[i], "workDate", records[i].workDate)).Some?) ==>
      RawRows(p, records)[i] in ToDfStorage2(p, records).rows
  {
    KeepIdentifiedExact(RawRows(p, records));
  }

  // ---------------------------------------------------------------------------
  // Minutes
  // ---------------------------------------------------------------------------

  /** `_calc_total_minutes_from_times(row)`, to the whole minute. */
  function CalcTotalMinutes(checkIn: Option<DateTime>, checkOut: Option<DateTime>): (r: int)
    ensures r >= 0
    ensures checkIn.None? || checkOut.None? ==> r == 0
    ensures checkIn.Some? && checkOut.Some? ==>
      var diff := EpochMinutes(checkOut.value) - EpochMinutes(checkIn.value);
      r == 0 || r == diff || r == diff + 1440
  {
    if checkIn.None? || checkOut.None? then 0
    else
      var diff := EpochMinutes(checkOut.value) - EpochMinutes(checkIn.value);
      var shifted := if diff < 0 then diff + 24 * 60 else diff;
      if shifted < 0 then 0 else shifted
  }

  /** Never negative; 0 when a time is missing; the plain difference when the checkout is
      not earlier; one day more when it is earlier by less than a day; 0 beyond that. */
  lemma CalcTotalMinutesRules(checkIn: Option<DateTime>, checkOut: Option<DateTime>)
    ensures CalcTotalMinutes(checkIn, checkOut) >= 0
    ensures checkIn.None? || checkOut.None? ==> CalcTotalMinutes(checkIn, checkOut) == 0
    ensures checkIn.Some? && checkOut.Some? ==>
      var diff := EpochMinutes(checkOut.value) - EpochMinutes(checkIn.value);
      && (diff >= 0 ==> CalcTotalMinutes(checkIn, checkOut) == diff)
      && (-1440 <= diff < 0 ==> CalcTotalMinutes(checkIn, checkOut) == diff + 1440)
      && (diff < -1440 ==> CalcTotalMinutes(checkIn, checkOut) == 0)
  {
  }

  /** A night shift from 22:00 to 06:30 the next day counts 510 minutes; the same clock times
      recorded on one date count the same, because the negative difference is shifted. */
  lemma CalcTotalMinutesNight()
    ensures CalcTotalMinutes(Some(DateTime(Date(2026, 1, 5), 22, 0)), Some(DateTime(Date(2026, 1, 6), 6, 30))) == 510
    ensures CalcTotalMinutes(Some(DateTime(Date(2026, 1, 5), 22, 0)), Some(DateTime(Date(2026, 1, 5), 6, 30))) == 510
  {
  }

  /** `_fill_minutes_from_times` on one row: the four column rewrites, in their order. */
  function FillRow(r: Row): (f: Row)
    ensures f.total >= 0 && f.overtime >= 0 && f.normal >= 0
    ensures f.(total := r.total, overtime := r.overtime, normal := r.normal) == r
    ensures r.total > 0 && r.overtime > 0 && r.normal > 0 ==> f == r
  {
    var total := if r.total > 0 then r.total else CalcTotalMinutes(r.checkIn, r.checkOut);
    var overtime := if r.overtime > 0 then r.overtime else (if total - 480 > 0 then total - 480 else 0);
    var normal := if r.normal > 0 then r.normal
                  else (if total - overtime - r.unpaid > 0 then total - overtime - r.unpaid else 0);
    r.(total := total, overtime := overtime, normal := normal)
  }

  /** Positive recorded values are kept; the rest are derived, never negative. */
  lemma FillRowRules(r: Row)
    ensures var f := FillRow(r);
      && (r.total > 0 ==> f.total == r.total)
      && (r.total <= 0 ==> f.total == CalcTotalMinutes(r.checkIn, r.checkOut))
      && (r.overtime > 0 ==> f.overtime == r.overtime)
      && (r.overtime <= 0 ==> f.overtime == if f.total > 480 then f.total - 480 else 0)
      && (r.normal > 0 ==> f.normal == r.normal)
      && (r.normal <= 0 ==> f.normal == if f.total - f.overtime - r.unpaid > 0 then f.total - f.overtime - r.unpaid else 0)
      && f.total >= 0 && f.overtime >= 0 && f.normal >= 0
      && f.unpaid == r.unpaid
      && f.(total := r.total, overtime := r.overtime, normal := r.normal) == r
  {
    CalcTotalMinutesRules(r.checkIn, r.checkOut);
  }

  /** With nothing recorded, the derived normal and overtime minutes split the total at the
      eight-hour mark. */
  lemma FillRowSplitsTotal(r: Row)
    requires r.normal <= 0 && r.overtime <= 0 && r.unpaid == 0
    ensures FillRow(r).normal + FillRow(r).overtime == FillRow(r).total
    ensures FillRow(r).normal <= 480
  {
    FillRowRules(r);
  }

  /** Filling twice changes nothing more. */
  lemma FillRowIdempotent(r: Row)
    ensures FillRow(FillRow(r)) == FillRow(r)
  {
    FillRowRules(r);
  }

  /** `_fill_minutes_from_times(df)` */
  function FilledFrame(f: Frame): (g: Frame)
    ensures |g.rows| == |f.rows|
  {
    if IsEmpty(f) then f
    else Frame(f.columns + {"computedTotalMinutes"}, seq(|f.rows|, i requires 0 <= i < |f.rows| => FillRow(f.rows[i])))
  }

  /** `_fill_minutes_from_times(df)`: the total, overtime, unpaid and normal columns are
      rewritten one after the other, each from the columns already rewritten. */
  method FillMinutesFromTimes(f: Frame) returns (g: Frame)
    ensures g == FilledFrame(f)
    ensures !IsEmpty(f) ==> forall i :: 0 <= i < |f.rows| ==> g.rows[i] == FillRow(f.rows[i])
  {
    if IsEmpty(f) {
      return f;
    }
    var rows := f.rows;
    var computed := seq(|rows|, i requires 0 <= i < |rows| => CalcTotalMinutes(rows[i].checkIn, rows[i].checkOut));
    rows := seq(|rows|, i requires 0 <= i < |rows| =>
      rows[i].(total := if rows[i].total > 0 then rows[i].total else computed[i]));
    rows := seq(|rows|, i requires 0 <= i < |rows| =>
      rows[i].(overtime := if rows[i].overtime > 0 then rows[i].overtime
                           else (if rows[i].total - 480 > 0 then rows[i].total - 480 else 0)));
    rows := seq(|rows|, i requires 0 <= i < |rows| =>
      rows[i].(normal := if rows[i].normal > 0 then rows[i].normal
                         else (if rows[i].total - rows[i].overtime - rows[i].unpaid > 0
                               then rows[i].total - rows[i].overtime - rows[i].unpaid else 0)));
    g := Frame(f.columns + {"computedTotalMinutes"}, rows);
  }

  /** `_minutes_since_midnight(dt)` (and `_minutes_from_midnight` of `routes.py`). */
  function MinutesSinceMidnight(t: Option<DateTime>): (r: Option<int>)
    ensures t.Some? && ValidDateTime(t.value) ==> r.Some? && 0 <= r.value < 1440
  {
    match t
    case None => None
    case Some(dt) => Some(dt.hour * 60 + dt.minute)
  }

  /** Missing gives `None`; otherwise the clock time in minutes, which determines the hour and
      minute back. */
  lemma MinutesSinceMidnightExact(t: DateTime)
    requires ValidDateTime(t)
    ensures MinutesSinceMidnight(None) == None
    ensures MinutesSinceMidnight(Some(t)).value / 60 == t.hour
    ensures MinutesSinceMidnight(Some(t)).value % 60 == t.minute
  {
  }
}
