/**
 * The JSON values the attendance service receives for a Java `LocalDateTime`, and the
 * formatter `_normalize_java_time` that turns them into ISO text `YYYY-MM-DDTHH:MM:SS`.
 *
 * Jackson may send a date-time as text, as an array `[year, month, day, hour, minute,
 * second?, nanos?]` or as an object with named fields; pandas fills a key that a record lacks
 * with a float NaN.
 */
module JavaTime {
  import opened Wrappers
  import opened PyStr

  /** A decoded JSON value as Python sees it. Object entries keep their order in the text. */
  datatype JavaValue =
    | JNull
    | JNaN
    | JInt(i: int)
    | JText(s: string)
    | JList(items: seq<JavaValue>)
    | JDict(entries: seq<(string, JavaValue)>)

  /** Python truthiness: `None`, `0`, `""`, `[]` and `{}` are false; NaN is true. */
  predicate Truthy(v: JavaValue)
  {
    match v
    case JNull => false
    case JNaN => true
    case JInt(i) => i != 0
    case JText(s) => s != []
    case JList(items) => items != []
    case JDict(entries) => entries != []
  }

  /** `key in d`. */
  predicate HasKey(entries: seq<(string, JavaValue)>, key: string)
  {
    exists i :: 0 <= i < |entries| && entries[i].0 == key
  }

  /** `d.get(key)`: the value of the last entry with that key, as JSON decoding keeps it. */
  function Lookup(entries: seq<(string, JavaValue)>, key: string): (r: Option<JavaValue>)
    ensures r.Some? <==> HasKey(entries, key)
    ensures r.Some? ==> (key, r.value) in entries
  {
    if entries == [] then None
    else if entries[|entries| - 1].0 == key then Some(entries[|entries| - 1].1)
    else
      var r := Lookup(entries[..|entries| - 1], key);
      assert forall i :: 0 <= i < |entries| - 1 ==> entries[..|entries| - 1][i] == entries[i];
      r
  }

  /** `d.get(key, default)`. */
  function Get(entries: seq<(string, JavaValue)>, key: string, default: JavaValue): JavaValue
  {
    Lookup(entries, key).GetOr(default)
  }

  /** The value of an optionally signed run of decimal digits. */
  function SignedDigits(s: string): Option<int>
  {
    if s != [] && (s[0] == '-' || s[0] == '+') then
      var rest := s[1..];
      if rest != [] && forall i :: 0 <= i < |rest| ==> IsDigit(rest[i]) then
        Some(if s[0] == '-' then 0 - DigitsValue(rest) else DigitsValue(rest) as int)
      else None
    else if s != [] && forall i :: 0 <= i < |s| ==> IsDigit(s[i]) then Some(DigitsValue(s))
    else None
  }

  /** `int(v)`: a `TypeError` for `None`, a list and an object; a `ValueError` for NaN and for
      a text that is not an optionally signed run of digits. */
  function IntOf(v: JavaValue): Result<int, string>
  {
    match v
    case JInt(i) => Ok(i)
    case JText(s) => (match SignedDigits(Strip(s)) case Some(i) => Ok(i) case None => Err("ValueError"))
    case JNaN => Err("ValueError")
    case _ => Err("TypeError")
  }

  /** `int()` of each value in turn, as an f-string evaluates its fields from left to right:
      all the numbers, or the error of the first value that does not convert. */
  function IntsOf(vs: seq<JavaValue>): (r: Result<seq<int>, string>)
    ensures r.Ok? <==> forall k :: 0 <= k < |vs| ==> IntOf(vs[k]).Ok?
    ensures r.Ok? ==> |r.value| == |vs| && forall k :: 0 <= k < |vs| ==> IntOf(vs[k]) == Ok(r.value[k])
    ensures r.Err? ==>
      exists k :: 0 <= k < |vs| && IntOf(vs[k]) == Err(r.error) && forall j :: 0 <= j < k ==> IntOf(vs[j]).Ok?
    ensures r.Err? ==> r.error == "TypeError" || r.error == "ValueError"
  {
    if vs == [] then Ok([])
    else
      var rest := IntsOf(vs[1..]);
      assert forall k :: 1 <= k < |vs| ==> vs[k] == vs[1..][k - 1];
      match IntOf(vs[0])
      case Err(e) => Err(e)
      case Ok(x) =>
        match rest
        case Ok(xs) => Ok([x] + xs)
        case Err(e) =>
          var k :| 0 <= k < |vs[1..]| && IntOf(vs[1..][k]) == Err(e) && forall j :: 0 <= j < k ==> IntOf(vs[1..][j]).Ok?;
          assert IntOf(vs[k + 1]) == Err(e);
          Err(e)
  }

  /** `str(v)` for the values that reach the fall-through case. */
  function Repr(v: JavaValue): string
  {
    match v
    case JNull => "None"
    case JNaN => "nan"
    case JInt(i) => IntToStr(i)
    case JText(s) => "'" + s + "'"
    case JList(items) => "[" + Join(", ", seq(|items|, k requires 0 <= k < |items| => Repr(items[k]))) + "]"
    case JDict(entries) =>
      "{" + Join(", ", seq(|entries|, k requires 0 <= k < |entries| => "'" + entries[k].0 + "': " + Repr(entries[k].1))) + "}"
  }

  function Str(v: JavaValue): string
  {
    match v
    case JText(s) => s
    case _ => Repr(v)
  }

  /** What `_normalize_java_time` gives: `None`, a text, or the exception `int()` raises. */
  datatype Normalized = Absent | Text(text: string) | Raises(error: string)

  /** `f"{y:04d}-{m:02d}-{d:02d}"` */
  function DateText(y: int, m: int, d: int): string
  {
    PadInt(y, 4) + "-" + PadInt(m, 2) + "-" + PadInt(d, 2)
  }

  /** `f"{hh:02d}:{mm:02d}:{ss:02d}"` */
  function TimeText(hh: int, mm: int, ss: int): string
  {
    PadInt(hh, 2) + ":" + PadInt(mm, 2) + ":" + PadInt(ss, 2)
  }

  /** `f"{y:04d}-{m:02d}-{d:02d}T{hh:02d}:{mm:02d}:{ss:02d}"` */
  function IsoText(y: int, m: int, d: int, hh: int, mm: int, ss: int): string
  {
    DateText(y, m, d) + "T" + TimeText(hh, mm, ss)
  }

  /** Formats six values, each converted with `int()`; the first failed conversion raises. */
  function Format(y: JavaValue, m: JavaValue, d: JavaValue, hh: JavaValue, mm: JavaValue, ss: JavaValue): Normalized
  {
    match IntsOf([y, m, d, hh, mm, ss])
    case Ok(n) => Text(IsoText(n[0], n[1], n[2], n[3], n[4], n[5]))
    case Err(e) => Raises(e)
  }

  /** `_normalize_java_time(v)`: `None` only for the null-like values and for an object
      without the date keys; an exception only from the two formatting paths; a text and every
      other scalar come back as their `str`. */
  function NormalizeJavaTime(v: JavaValue): (r: Normalized)
    ensures v.JNull? || v.JNaN? ==> r == Absent
    ensures v.JText? ==> r == Text(v.s)
    ensures v.JInt? ==> r == Text(IntToStr(v.i))
    ensures r == Absent ==> v.JNull? || v.JNaN? || v.JDict?
    ensures r.Raises? ==> (v.JList? || v.JDict?) && (r.error == "TypeError" || r.error == "ValueError")
    ensures v.JList? && |v.items| < 5 ==> r == Text(Str(v))
  {
    match v
    case JNull => Absent
    case JNaN => Absent
    case JList(p) =>
      if |p| >= 5 then Format(p[0], p[1], p[2], p[3], p[4], if |p| >= 6 then p[5] else JInt(0))
      else Text(Str(v))
    case JDict(e) =>
      if HasKey(e, "year") && (HasKey(e, "monthValue") || HasKey(e, "month")) && HasKey(e, "dayOfMonth") then
        var monthValue := Get(e, "monthValue", JNull);
        var month := if Truthy(monthValue) then monthValue else Get(e, "month", JNull);
        Format(Get(e, "year", JNull), month, Get(e, "dayOfMonth", JNull),
               Get(e, "hour", JInt(0)), Get(e, "minute", JInt(0)), Get(e, "second", JInt(0)))
      else Absent
    case _ => Text(Str(v))
  }

  // ---------------------------------------------------------------------------
  // Properties
  // ---------------------------------------------------------------------------

  /** `YYYY-MM-DD` reads back as the three values it was built from. */
  predicate DateReadsBack(t: string, y: nat, m: nat, d: nat)
  {
    && |t| == 10 && t[4] == '-' && t[7] == '-'
    && (forall i :: 0 <= i < 10 && i != 4 && i != 7 ==> IsDigit(t[i]))
    && DigitsValue(t[0..4]) == y && DigitsValue(t[5..7]) == m && DigitsValue(t[8..10]) == d
  }

  /** `HH:MM:SS` reads back as the three values it was built from. */
  predicate TimeReadsBack(t: string, hh: nat, mm: nat, ss: nat)
  {
    && |t| == 8 && t[2] == ':' && t[5] == ':'
    && (forall i :: 0 <= i < 8 && i != 2 && i != 5 ==> IsDigit(t[i]))
    && DigitsValue(t[0..2]) == hh && DigitsValue(t[3..5]) == mm && DigitsValue(t[6..8]) == ss
  }

  /** The fields of a formatted text read back: a date part, `T`, and a time part. */
  predicate ReadsBack(t: string, y: nat, m: nat, d: nat, hh: nat, mm: nat, ss: nat)
  {
    && |t| == 19 && t[10] == 'T'
    && DateReadsBack(t[..10], y, m, d)
    && TimeReadsBack(t[11..], hh, mm, ss)
  }

  /** The three fields `a`, `b`, `c` of `a + [s1] + b + [s2] + c` are recovered by slicing. */
  lemma ThreeFields(a: string, s1: char, b: string, s2: char, c: string)
    ensures var t := a + [s1] + b + [s2] + c;
      && t[..|a|] == a && t[|a|] == s1 && t[|a| + 1..|a| + 1 + |b|] == b
      && t[|a| + 1 + |b|] == s2 && t[|a| + 2 + |b|..] == c
  {
  }

  lemma DateTextReadsBack(y: nat, m: nat, d: nat)
    requires y < 10000 && m < 100 && d < 100
    ensures DateReadsBack(DateText(y, m, d), y, m, d)
  {
    PadIntRoundTrip(y, 4);
    PadIntRoundTrip(m, 2);
    PadIntRoundTrip(d, 2);
    ThreeFields(PadInt(y, 4), '-', PadInt(m, 2), '-', PadInt(d, 2));
    var t := PadInt(y, 4) + "-" + PadInt(m, 2) + "-" + PadInt(d, 2);
    assert t[0..4] == t[..4];
    assert t[8..10] == t[8..];
  }

  lemma TimeTextReadsBack(hh: nat, mm: nat, ss: nat)
    requires hh < 100 && mm < 100 && ss < 100
    ensures TimeReadsBack(TimeText(hh, mm, ss), hh, mm, ss)
  {
    PadIntRoundTrip(hh, 2);
    PadIntRoundTrip(mm, 2);
    PadIntRoundTrip(ss, 2);
    ThreeFields(PadInt(hh, 2), ':', PadInt(mm, 2), ':', PadInt(ss, 2));
    var t := PadInt(hh, 2) + ":" + PadInt(mm, 2) + ":" + PadInt(ss, 2);
    assert t[0..2] == t[..2];
    assert t[6..8] == t[6..];
  }

  /** Zero padding is exact for fields that fit their width: the text is 19 characters and
      every field reads back as the value it was built from. */
  lemma IsoTextReadsBack(y: nat, m: nat, d: nat, hh: nat, mm: nat, ss: nat)
    requires y < 10000 && m < 100 && d < 100 && hh < 100 && mm < 100 && ss < 100
    ensures ReadsBack(IsoText(y, m, d, hh, mm, ss), y, m, d, hh, mm, ss)
  {
    DateTextReadsBack(y, m, d);
    TimeTextReadsBack(hh, mm, ss);
    var date := DateText(y, m, d);
    var t := IsoText(y, m, d, hh, mm, ss);
    assert t[..10] == date;
    assert t[11..] == TimeText(hh, mm, ss);
  }

  /** `None` and NaN give `None`; a text passes through unchanged; an integer gives its `str`. */
  lemma NullishAndText(s: string, i: int)
    ensures NormalizeJavaTime(JNull) == Absent && NormalizeJavaTime(JNaN) == Absent
    ensures NormalizeJavaTime(JText(s)) == Text(s)
    ensures NormalizeJavaTime(JInt(i)) == Text(IntToStr(i))
    ensures NormalizeJavaTime(JInt(-5)) == Text("-5")
  {
  }

  /** An array of at least five integers in range gives the zero-padded ISO text of its first
      five or six entries; with exactly five, the seconds are 0. */
  lemma ListFormat(p: seq<JavaValue>, y: nat, m: nat, d: nat, hh: nat, mm: nat, ss: nat)
    requires |p| >= 5
    requires p[0] == JInt(y) && p[1] == JInt(m) && p[2] == JInt(d) && p[3] == JInt(hh) && p[4] == JInt(mm)
    requires if |p| >= 6 then p[5] == JInt(ss) else ss == 0
    requires y < 10000 && m < 100 && d < 100 && hh < 100 && mm < 100 && ss < 100
    ensures NormalizeJavaTime(JList(p)).Text?
    ensures ReadsBack(NormalizeJavaTime(JList(p)).text, y, m, d, hh, mm, ss)
  {
    IsoTextReadsBack(y, m, d, hh, mm, ss);
  }

  /** An array of at least five entries raises the error of its first field that `int()`
      rejects: a `TypeError` for `None`, a list or an object, a `ValueError` for NaN and for a
      non-numeric text. The sixth field takes part only when the array has one. */
  lemma ListRaises(p: seq<JavaValue>, k: nat)
    requires |p| >= 5 && (k < 5 || (k == 5 && |p| >= 6))
    requires IntOf(p[k]).Err? && forall j :: 0 <= j < k ==> IntOf(p[j]).Ok?
    ensures NormalizeJavaTime(JList(p)) == Raises(IntOf(p[k]).error)
    ensures p[k].JNull? || p[k].JList? || p[k].JDict? ==> NormalizeJavaTime(JList(p)) == Raises("TypeError")
    ensures p[k].JNaN? || p[k].JText? ==> NormalizeJavaTime(JList(p)) == Raises("ValueError")
  {
    var vs := [p[0], p[1], p[2], p[3], p[4], if |p| >= 6 then p[5] else JInt(0)];
    assert vs[k] == p[k];
    assert forall j :: 0 <= j < k ==> vs[j] == p[j];
    FirstFailure(vs, k);
  }

  /** `IntsOf` reports the error of the first value that does not convert. */
  lemma FirstFailure(vs: seq<JavaValue>, k: nat)
    requires k < |vs| && IntOf(vs[k]).Err? && forall j :: 0 <= j < k ==> IntOf(vs[j]).Ok?
    ensures IntsOf(vs) == Err(IntOf(vs[k]).error)
  {
    var r := IntsOf(vs);
    var k' :| 0 <= k' < |vs| && IntOf(vs[k']) == Err(r.error) && forall j :: 0 <= j < k' ==> IntOf(vs[j]).Ok?;
    assert k' == k;
  }

  /** A `null` field raises `TypeError` in either form: the array `[2026, null, 1, 9, 0]` and
      the object `{"year": 2026, "month": 1, "dayOfMonth": null}`. */
  lemma NullFieldRaises()
    ensures NormalizeJavaTime(JList([JInt(2026), JNull, JInt(1), JInt(9), JInt(0)])) == Raises("TypeError")
    ensures NormalizeJavaTime(JDict([("year", JInt(2026)), ("month", JInt(1)), ("dayOfMonth", JNull)])) == Raises("TypeError")
  {
    ListRaises([JInt(2026), JNull, JInt(1), JInt(9), JInt(0)], 1);
    NullDayRaises();
  }

  lemma NullDayRaises()
    ensures NormalizeJavaTime(JDict([("year", JInt(2026)), ("month", JInt(1)), ("dayOfMonth", JNull)])) == Raises("TypeError")
  {
    var e := [("year", JInt(2026)), ("month", JInt(1)), ("dayOfMonth", JNull)];
    assert HasKey(e, "year") && HasKey(e, "month") && HasKey(e, "dayOfMonth") by {
      assert e[0].0 == "year" && e[1].0 == "month" && e[2].0 == "dayOfMonth";
    }
    assert Lookup(e, "dayOfMonth") == Some(JNull);
    assert Lookup(e, "year") == Some(JInt(2026));
    assert Lookup(e, "month") == Some(JInt(1));
    assert !HasKey(e, "monthValue") && !HasKey(e, "hour") && !HasKey(e, "minute") && !HasKey(e, "second");
    FirstFailure([JInt(2026), JInt(1), JNull, JInt(0), JInt(0), JInt(0)], 2);
  }

  /** Five entries behave as six with a zero second; entries after the sixth are ignored. */
  lemma ListSecondsDefault(p: seq<JavaValue>, extra: seq<JavaValue>)
    requires |p| == 5
    ensures NormalizeJavaTime(JList(p)) == NormalizeJavaTime(JList(p + [JInt(0)]))
    ensures NormalizeJavaTime(JList(p + [JInt(0)])) == NormalizeJavaTime(JList(p + [JInt(0)] + extra))
  {
    var q := p + [JInt(0)];
    var r := q + extra;
    assert r[..6] == q;
    assert forall i :: 0 <= i < 6 ==> r[i] == q[i];
  }

  /** A short array is not a date-time: it is rendered with `str`. */
  lemma ShortList()
    ensures NormalizeJavaTime(JList([JInt(9), JInt(30)])) == Text("[9, 30]")
  {
    var items := [JInt(9), JInt(30)];
    assert Repr(JInt(9)) == "9";
    assert NatToStr(30) == NatToStr(3) + [DigitChar(0)];
    assert Repr(JInt(30)) == "30";
    var reprs := seq(|items|, k requires 0 <= k < |items| => Repr(items[k]));
    assert reprs[0] == "9" && reprs[1] == "30";
    assert reprs == ["9", "30"];
    assert Join(", ", ["9", "30"]) == "9, 30";
  }

  /** The object form formats like the array `[year, month, dayOfMonth, hour, minute, second]`,
      with `monthValue` taking precedence over `month` when it is truthy. */
  lemma DictAsList(e: seq<(string, JavaValue)>)
    requires HasKey(e, "year") && HasKey(e, "monthValue") && HasKey(e, "dayOfMonth")
    requires HasKey(e, "hour") && HasKey(e, "minute") && HasKey(e, "second")
    requires Truthy(Get(e, "monthValue", JNull))
    ensures NormalizeJavaTime(JDict(e)) ==
      NormalizeJavaTime(JList([Get(e, "year", JNull), Get(e, "monthValue", JNull), Get(e, "dayOfMonth", JNull),
                               Get(e, "hour", JNull), Get(e, "minute", JNull), Get(e, "second", JNull)]))
  {
  }

  /** Missing hour, minute and second default to 0; a falsy `monthValue` falls back to `month`. */
  lemma DictDefaults(e: seq<(string, JavaValue)>)
    requires HasKey(e, "year") && HasKey(e, "month") && HasKey(e, "dayOfMonth")
    requires !HasKey(e, "hour") && !HasKey(e, "minute") && !HasKey(e, "second")
    requires !Truthy(Get(e, "monthValue", JNull))
    ensures NormalizeJavaTime(JDict(e)) ==
      NormalizeJavaTime(JList([Get(e, "year", JNull), Get(e, "month", JNull), Get(e, "dayOfMonth", JNull), JInt(0), JInt(0)]))
  {
  }

  /** An object without the date keys is not a date-time. */
  lemma DictWithoutDate(e: seq<(string, JavaValue)>)
    requires !HasKey(e, "dayOfMonth")
    ensures NormalizeJavaTime(JDict(e)) == Absent
  {
  }
}
